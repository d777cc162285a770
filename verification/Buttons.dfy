/**
 * The three-button handler (firmware/src/button.cpp): debouncing, short and long presses, and the panic hold, on
 * a wrapping 32-bit clock.
 */
module Buttons {
  import opened Words
  import opened Dedup
  import opened Ui

  const DEBOUNCE_MS := 30
  const LONG_PRESS_MS := 800
  const PANIC_HOLD_MS := 3000
  const COUNT := 3

  datatype Btn = Btn(pressed: bool, wasPressed: bool, changeTime: u32, pressStart: u32, longFired: bool)

  const RELEASED := Btn(false, false, 0, 0, false)

  datatype Fire = Nothing | Short | Long

  /** One button's part of a poll: debounce, then long-press detection. */
  function Debounced(b: Btn, raw: bool, now: u32): Btn
  {
    if raw != b.pressed && Elapsed(now, b.changeTime) >= DEBOUNCE_MS then
      if raw then Btn(true, b.pressed, now, now, false) else Btn(false, b.pressed, now, b.pressStart, b.longFired)
    else b
  }

  predicate LongDue(b: Btn, now: u32) { b.pressed && !b.longFired && Elapsed(now, b.pressStart) >= LONG_PRESS_MS }

  function Polled(b: Btn, raw: bool, now: u32): Btn
  {
    var d := Debounced(b, raw, now);
    if LongDue(d, now) then d.(longFired := true) else d
  }

  /** The event that this poll makes of the button. */
  function Fired(b: Btn, raw: bool, now: u32): Fire
  {
    var d := Debounced(b, raw, now);
    if LongDue(d, now) then Long
    else if b.pressed && !d.pressed && !d.longFired then Short
    else Nothing
  }

  function EventOf(i: nat, f: Fire): BtnEvent
    requires i < COUNT
  {
    match f
    case Nothing => NoEvent
    case Short => if i == 0 then UpShort else if i == 1 then OkShort else DownShort
    case Long => if i == 0 then UpLong else if i == 1 then OkLong else DownLong
  }

  type Btns = s: seq<Btn> | |s| == COUNT witness [RELEASED, RELEASED, RELEASED]
  type Raws = s: seq<bool> | |s| == COUNT witness [false, false, false]

  datatype Pad = Pad(btns: Btns, panicStart: u32)

  const PAD_INIT := Pad([RELEASED, RELEASED, RELEASED], 0)

  predicate AllPressed(s: Btns) { s[0].pressed && s[1].pressed && s[2].pressed }

  /** The event of the last of the first `n` buttons that fired. */
  function LastFired(s: Btns, raws: Raws, now: u32, n: nat): (e: BtnEvent)
    requires n <= COUNT
    ensures e != Panic
  {
    if n == 0 then NoEvent
    else
      var f := Fired(s[n - 1], raws[n - 1], now);
      if f == Nothing then LastFired(s, raws, now, n - 1) else EventOf(n - 1, f)
  }

  function AllPolled(s: Btns, raws: Raws, now: u32): Btns
  {
    [Polled(s[0], raws[0], now), Polled(s[1], raws[1], now), Polled(s[2], raws[2], now)]
  }

  predicate Panics(p: Pad, now: u32)
  {
    AllPressed(p.btns) && p.panicStart != 0 && Elapsed(now, p.panicStart) >= PANIC_HOLD_MS
  }

  /** The panic timer after the buttons have been read. */
  function Held(p: Pad, now: u32): u32
  {
    if !AllPressed(p.btns) || Panics(p, now) then 0 else if p.panicStart == 0 then now else p.panicStart
  }

  function PadAfter(p: Pad, raws: Raws, now: u32): Pad
  {
    var s := AllPolled(p.btns, raws, now);
    Pad(s, Held(Pad(s, p.panicStart), now))
  }

  function EventAt(p: Pad, raws: Raws, now: u32): BtnEvent
  {
    if Panics(Pad(AllPolled(p.btns, raws, now), p.panicStart), now) then Panic else LastFired(p.btns, raws, now, COUNT)
  }

  class ButtonPad {
    const btns: array<Btn>
    var panicStart: u32

    ghost predicate Valid() { btns.Length == COUNT }

    ghost function Value(): Pad
      requires Valid()
      reads this, btns
    {
      Pad(btns[..], panicStart)
    }

    constructor ()
      ensures Valid() && fresh(btns) && Value() == PAD_INIT
    {
      btns := new Btn[COUNT](_ => RELEASED);
      panicStart := 0;
    }

    /** `raws` are the pin levels, true for pressed. */
    method Poll(raws: Raws, now: u32) returns (evt: BtnEvent)
      requires Valid()
      modifies this, btns
      ensures Value() == PadAfter(old(Value()), raws, now) && evt == EventAt(old(Value()), raws, now)
    {
      evt := NoEvent;
      ghost var s := btns[..];
      var i := 0;
      while i < COUNT
        invariant i <= COUNT && panicStart == old(panicStart)
        invariant forall k | 0 <= k < i :: btns[k] == Polled(s[k], raws[k], now)
        invariant forall k | i <= k < COUNT :: btns[k] == s[k]
        invariant evt == LastFired(s, raws, now, i)
      {
        evt := PollOne(i, raws[i], now, evt);
        i := i + 1;
      }
      assert btns[..] == AllPolled(s, raws, now);
      if btns[0].pressed && btns[1].pressed && btns[2].pressed {
        if panicStart == 0 {
          panicStart := now;
        } else if Elapsed(now, panicStart) >= PANIC_HOLD_MS {
          panicStart := 0;
          return Panic;
        }
      } else {
        panicStart := 0;
      }
    }

    /** The body of the polling loop. */
    method PollOne(i: nat, raw: bool, now: u32, before: BtnEvent) returns (evt: BtnEvent)
      requires Valid() && i < COUNT
      modifies btns
      ensures btns[..] == old(btns[..])[i := Polled(old(btns[i]), raw, now)]
      ensures evt == if Fired(old(btns[i]), raw, now) == Nothing then before
              else EventOf(i, Fired(old(btns[i]), raw, now))
    {
      evt := before;
      if raw != btns[i].pressed {
        if Elapsed(now, btns[i].changeTime) >= DEBOUNCE_MS {
          btns[i] := btns[i].(wasPressed := btns[i].pressed);
          btns[i] := btns[i].(pressed := raw);
          btns[i] := btns[i].(changeTime := now);
          if raw {
            btns[i] := btns[i].(pressStart := now);
            btns[i] := btns[i].(longFired := false);
          } else if btns[i].wasPressed && !btns[i].longFired {
            evt := if i == 0 then UpShort else if i == 1 then OkShort else DownShort;
          }
        }
      }
      if btns[i].pressed && !btns[i].longFired {
        if Elapsed(now, btns[i].pressStart) >= LONG_PRESS_MS {
          btns[i] := btns[i].(longFired := true);
          evt := if i == 0 then UpLong else if i == 1 then OkLong else DownLong;
        }
      }
    }
  }

  // ---------- Histories ----------

  /** The pin levels read at each poll and its true time. */
  datatype Poll = Poll(raws: Raws, at: nat)

  ghost predicate InOrder(h: seq<Poll>) { forall i, j | 0 <= i < j < |h| :: h[i].at <= h[j].at }

  /** The handler after the first `n` polls. */
  function After(h: seq<Poll>, n: nat): Pad
    requires n <= |h|
  {
    if n == 0 then PAD_INIT else PadAfter(After(h, n - 1), h[n - 1].raws, Millis(h[n - 1].at))
  }

  function Event(h: seq<Poll>, k: nat): BtnEvent
    requires k < |h|
  {
    EventAt(After(h, k), h[k].raws, Millis(h[k].at))
  }

  /** All three buttons count as pressed from poll `j` through poll `k`. */
  ghost predicate HeldThrough(h: seq<Poll>, j: nat, k: nat)
    requires k < |h|
  {
    forall n | j < n <= k + 1 :: AllDown(h, n)
  }

  /** After `n` polls all three buttons count as pressed. */
  ghost predicate AllDown(h: seq<Poll>, n: nat)
    requires n <= |h|
  {
    forall i | 0 <= i < 3 :: After(h, n).btns[i].pressed
  }

  lemma {:induction false} PanicTimer(h: seq<Poll>, n: nat) returns (j: nat)
    requires n <= |h| && After(h, n).panicStart != 0
    ensures n > 0 && j < n && HeldThrough(h, j, n - 1) && After(h, n).panicStart == Millis(h[j].at)
  {
    if After(h, n - 1).panicStart == 0 {
      j := n - 1;
    } else {
      j := PanicTimer(h, n - 1);
    }
  }

  /** A panic is reported only when all three buttons were held at every poll of at least three seconds. */
  lemma PanicNeedsHold(h: seq<Poll>, k: nat) returns (j: nat)
    requires InOrder(h) && k < |h| && Event(h, k) == Panic
    ensures j < k && HeldThrough(h, j, k) && h[k].at - h[j].at >= 3000
  {
    j := PanicTimer(h, k);
    ElapsedIsAge(h[j].at, h[k].at);
    assert AllDown(h, k + 1);
  }

  /** Button `i` reported a short or long press at poll `k`. */
  predicate Reports(h: seq<Poll>, i: nat, k: nat)
    requires k < |h| && i < COUNT
  {
    Event(h, k) in {EventOf(i, Short), EventOf(i, Long)}
  }

  /** Button `i` went down, debounced, at poll `k`. */
  predicate GoesDown(h: seq<Poll>, i: nat, k: nat)
    requires k < |h| && i < COUNT
  {
    !After(h, k).btns[i].pressed && After(h, k + 1).btns[i].pressed
  }

  /** The current press, if any, has already been reported. */
  predicate Spent(b: Btn) { b.longFired || !b.pressed }

  lemma OneReport(b: Btn, raw: bool, now: u32)
    ensures Fired(b, raw, now) != Nothing ==> !Spent(b) && Spent(Polled(b, raw, now))
    ensures Spent(b) && !(!b.pressed && Polled(b, raw, now).pressed) ==> Spent(Polled(b, raw, now))
  {
  }

  lemma ReportFires(h: seq<Poll>, i: nat, k: nat)
    requires k < |h| && i < COUNT && Reports(h, i, k)
    ensures Fired(After(h, k).btns[i], h[k].raws[i], Millis(h[k].at)) != Nothing
  {
    LastFiredOf(After(h, k).btns, h[k].raws, Millis(h[k].at), COUNT, i);
  }

  lemma {:induction false} LastFiredOf(s: Btns, raws: Raws, now: u32, n: nat, i: nat)
    requires n <= COUNT && i < COUNT && LastFired(s, raws, now, n) in {EventOf(i, Short), EventOf(i, Long)}
    ensures Fired(s[i], raws[i], now) != Nothing
  {
    if n > 0 {
      EventNames(n - 1, Fired(s[n - 1], raws[n - 1], now), i);
      if Fired(s[n - 1], raws[n - 1], now) == Nothing {
        LastFiredOf(s, raws, now, n - 1, i);
      }
    }
  }

  /** Events of different buttons differ. */
  lemma EventNames(j: nat, f: Fire, i: nat)
    requires j < COUNT && i < COUNT
    ensures EventOf(j, f) in {EventOf(i, Short), EventOf(i, Long)} ==> j == i && f != Nothing
  {
  }

  lemma {:induction false} SpentUntilDown(h: seq<Poll>, i: nat, j: nat, k: nat)
    requires j < k <= |h| && i < COUNT && Spent(After(h, j + 1).btns[i])
    requires forall m | j < m < k :: !GoesDown(h, i, m)
    ensures Spent(After(h, k).btns[i])
  {
    if j + 1 < k {
      SpentUntilDown(h, i, j, k - 1);
      OneReport(After(h, k - 1).btns[i], h[k - 1].raws[i], Millis(h[k - 1].at));
      assert !GoesDown(h, i, k - 1);
    }
  }

  /** A press is reported at most once, short or long: between two reports the button has gone down again. */
  lemma PressReportedOnce(h: seq<Poll>, i: nat, j: nat, k: nat)
    requires j < k < |h| && i < COUNT && Reports(h, i, j) && Reports(h, i, k)
    ensures exists m :: j < m < k && GoesDown(h, i, m)
  {
    ReportFires(h, i, j);
    ReportFires(h, i, k);
    OneReport(After(h, j).btns[i], h[j].raws[i], Millis(h[j].at));
    OneReport(After(h, k).btns[i], h[k].raws[i], Millis(h[k].at));
    if forall m | j < m < k :: !GoesDown(h, i, m) {
      SpentUntilDown(h, i, j, k);
    }
  }

  // ---------- When exactly ----------

  /** The clock difference between two polls. */
  function Since(h: seq<Poll>, j: nat, k: nat): u32
    requires j < |h| && k < |h|
  {
    (Millis(h[k].at) - Millis(h[j].at)) % 0x1_0000_0000
  }

  /** A hold begins at poll `f`: all three are down after it, and were not before, or a panic was just reported. */
  ghost predicate Begins(h: seq<Poll>, f: nat)
    requires f < |h|
  {
    AllDown(h, f + 1) && (f == 0 || !AllDown(h, f) || Event(h, f - 1) == Panic)
  }

  /** The hold begun at poll `f` lasts through poll `k`, and `j` is its first poll with a non-zero clock reading. */
  ghost predicate Holding(h: seq<Poll>, f: nat, j: nat, k: nat)
    requires k < |h|
  {
    && f <= j <= k && Begins(h, f) && (forall n | f < n <= k + 1 :: AllDown(h, n))
    && (forall m | f <= m < j :: Millis(h[m].at) == 0) && Millis(h[j].at) != 0
  }

  /** One poll with all three down. */
  lemma TimerStep(p: Pad, raws: Raws, now: u32)
    requires AllPressed(AllPolled(p.btns, raws, now))
    ensures EventAt(p, raws, now) == Panic <==>
            p.panicStart != 0 && (now - p.panicStart) % 0x1_0000_0000 >= 3000
    ensures EventAt(p, raws, now) != Panic ==>
            PadAfter(p, raws, now).panicStart == if p.panicStart == 0 then now else p.panicStart
    ensures EventAt(p, raws, now) == Panic ==> PadAfter(p, raws, now).panicStart == 0
  {
  }

  lemma TimerRests(p: Pad, raws: Raws, now: u32)
    requires !AllPressed(AllPolled(p.btns, raws, now))
    ensures PadAfter(p, raws, now).panicStart == 0
  {
  }

  lemma StepAt(h: seq<Poll>, k: nat)
    requires k < |h|
    ensures AllDown(h, k + 1) ==>
              var t, now := After(h, k).panicStart, Millis(h[k].at);
              && (Event(h, k) == Panic <==> t != 0 && (now - t) % 0x1_0000_0000 >= 3000)
              && (Event(h, k) != Panic ==> After(h, k + 1).panicStart == if t == 0 then now else t)
              && (Event(h, k) == Panic ==> After(h, k + 1).panicStart == 0)
    ensures !AllDown(h, k + 1) ==> After(h, k + 1).panicStart == 0
  {
    var p, raws, now := After(h, k), h[k].raws, Millis(h[k].at);
    var s := AllPolled(p.btns, raws, now);
    assert After(h, k + 1).btns == s;
    assert AllDown(h, k + 1) <==> s[0].pressed && s[1].pressed && s[2].pressed;
    if AllPressed(s) {
      TimerStep(p, raws, now);
    } else {
      TimerRests(p, raws, now);
    }
  }

  lemma TimerStopped(h: seq<Poll>, f: nat)
    requires f < |h| && Begins(h, f)
    ensures After(h, f).panicStart == 0
  {
    if f > 0 {
      StepAt(h, f - 1);
    }
  }

  /** The polls from `f` up to `n` are those of a hold that is not yet due. */
  ghost predicate Runs(h: seq<Poll>, f: nat, j: nat, n: nat)
    requires f <= n <= |h| && j < |h|
  {
    n == f || (Runs(h, f, j, n - 1) && NotDue(h, j, n - 1))
  }

  ghost predicate NotDue(h: seq<Poll>, j: nat, m: nat)
    requires m < |h| && j < |h|
  {
    AllDown(h, m + 1) && (m < j ==> Millis(h[m].at) == 0) && (m > j ==> Since(h, j, m) < 3000)
  }

  lemma {:induction false} HoldRuns(h: seq<Poll>, f: nat, j: nat, k: nat, n: nat)
    requires k < |h| && Holding(h, f, j, k) && f <= n <= k && forall m | j < m < k :: Since(h, j, m) < 3000
    ensures Runs(h, f, j, n)
  {
    if n > f {
      HoldRuns(h, f, j, k, n - 1);
    }
  }

  lemma {:induction false} TimerRuns(h: seq<Poll>, f: nat, j: nat, n: nat)
    requires f <= n <= |h| && f <= j < |h| && Begins(h, f) && Millis(h[j].at) != 0 && Runs(h, f, j, n)
    ensures After(h, n).panicStart == if n <= j then 0 else Millis(h[j].at)
  {
    if n == f {
      TimerStopped(h, f);
    } else {
      TimerRuns(h, f, j, n - 1);
      TimerNext(h, j, n - 1);
    }
  }

  /** The timer over one poll of a hold, before its first non-zero reading, at it, or after it. */
  lemma TimerNext(h: seq<Poll>, j: nat, n: nat)
    requires j < |h| && n < |h| && NotDue(h, j, n) && Millis(h[j].at) != 0
    requires After(h, n).panicStart == if n <= j then 0 else Millis(h[j].at)
    ensures After(h, n + 1).panicStart == if n + 1 <= j then 0 else Millis(h[j].at)
    ensures Event(h, n) != Panic
  {
    StepAt(h, n);
  }

  lemma NoPanicYet(h: seq<Poll>, f: nat, j: nat, k: nat, m: nat)
    requires k < |h| && j < k && Holding(h, f, j, k) && f <= m < k && forall n | j < n < k :: Since(h, j, n) < 3000
    ensures Event(h, m) != Panic
  {
    HoldRuns(h, f, j, k, m);
    HoldRuns(h, f, j, k, m + 1);
    TimerRuns(h, f, j, m);
    TimerNext(h, j, m);
  }

  /**
   * A panic is reported exactly when it is due: in a hold of all three buttons, the first poll whose clock is three
   * seconds or more after the hold's first non-zero reading reports it, and no earlier one does.
   */
  lemma PanicExactly(h: seq<Poll>, f: nat, j: nat, k: nat)
    requires k < |h| && j < k && Holding(h, f, j, k) && forall m | j < m < k :: Since(h, j, m) < 3000
    ensures Event(h, k) == Panic <==> Since(h, j, k) >= 3000
    ensures forall m | f <= m < k :: Event(h, m) != Panic
  {
    forall m | f <= m < k
      ensures Event(h, m) != Panic
    {
      NoPanicYet(h, f, j, k, m);
    }
    HoldRuns(h, f, j, k, k);
    TimerRuns(h, f, j, k);
    StepAt(h, k);
  }

  /** Button `i` changes, debounced, at poll `k`. */
  predicate Changes(h: seq<Poll>, i: nat, k: nat)
    requires k < |h| && i < COUNT
  {
    After(h, k).btns[i].pressed != After(h, k + 1).btns[i].pressed
  }

  /** The clock reading at the last change before poll `k`, 0 if there was none. */
  function LastChange(h: seq<Poll>, i: nat, k: nat): u32
    requires k <= |h| && i < COUNT
  {
    if k == 0 then 0 else if Changes(h, i, k - 1) then Millis(h[k - 1].at) else LastChange(h, i, k - 1)
  }

  lemma {:induction false} ChangeTime(h: seq<Poll>, i: nat, k: nat)
    requires k <= |h| && i < COUNT
    ensures After(h, k).btns[i].changeTime == LastChange(h, i, k)
  {
    if k > 0 {
      ChangeTime(h, i, k - 1);
    }
  }

  /** A button changes exactly when its pin differs from it and its last change is 30 ms or more ago on the clock. */
  lemma DebouncedExactly(h: seq<Poll>, i: nat, k: nat)
    requires k < |h| && i < COUNT
    ensures !After(h, 0).btns[i].pressed
    ensures Changes(h, i, k) <==>
            && h[k].raws[i] != After(h, k).btns[i].pressed
            && (Millis(h[k].at) - LastChange(h, i, k)) % 0x1_0000_0000 >= 30
  {
    ChangeTime(h, i, k);
  }

  /** Button `i` went down at poll `j` and has not changed since, up to poll `k`. */
  ghost predicate DownSince(h: seq<Poll>, i: nat, j: nat, k: nat)
    requires k <= |h| && i < COUNT
  {
    j < k && GoesDown(h, i, j) && forall m | j < m < k :: !Changes(h, i, m)
  }

  /** Some poll between came 800 ms or more after poll `j`. */
  ghost predicate WasLong(h: seq<Poll>, j: nat, k: nat)
    requires j < |h| && k <= |h|
  {
    exists m :: j < m < k && Since(h, j, m) >= 800
  }

  function FiredAt(h: seq<Poll>, i: nat, k: nat): Fire
    requires k < |h| && i < COUNT
  {
    Fired(After(h, k).btns[i], h[k].raws[i], Millis(h[k].at))
  }

  /** A button that is down, or goes down, and stays so over one poll. */
  lemma DownStep(b: Btn, raw: bool, now: u32)
    requires Polled(b, raw, now).pressed
    ensures var d := Polled(b, raw, now);
            if b.pressed then
              && d.pressStart == b.pressStart
              && d.longFired == (b.longFired || (now - b.pressStart) % 0x1_0000_0000 >= 800)
            else d.pressStart == now && !d.longFired
  {
  }

  ghost predicate IsDown(h: seq<Poll>, i: nat, j: nat, k: nat)
    requires j < |h| && k <= |h| && i < COUNT
  {
    var b := After(h, k).btns[i];
    b.pressed && b.pressStart == Millis(h[j].at) && (b.longFired <==> WasLong(h, j, k))
  }

  lemma {:induction false} DownState(h: seq<Poll>, i: nat, j: nat, k: nat)
    requires k <= |h| && i < COUNT && DownSince(h, i, j, k)
    ensures IsDown(h, i, j, k)
  {
    if k > j + 1 {
      DownState(h, i, j, k - 1);
      DownNext(h, i, j, k - 1);
    } else {
      PolledAt(h, i, j);
      DownStep(After(h, j).btns[i], h[j].raws[i], Millis(h[j].at));
    }
  }

  lemma DownNext(h: seq<Poll>, i: nat, j: nat, k: nat)
    requires j < k < |h| && i < COUNT && IsDown(h, i, j, k) && !Changes(h, i, k)
    ensures IsDown(h, i, j, k + 1)
  {
    LongerYet(h, j, k + 1);
    PolledAt(h, i, k);
    DownStep(After(h, k).btns[i], h[k].raws[i], Millis(h[k].at));
  }

  lemma PolledAt(h: seq<Poll>, i: nat, k: nat)
    requires k < |h| && i < COUNT
    ensures After(h, k + 1).btns[i] == Polled(After(h, k).btns[i], h[k].raws[i], Millis(h[k].at))
  {
  }

  lemma LongerYet(h: seq<Poll>, j: nat, k: nat)
    requires j + 1 < k <= |h|
    ensures WasLong(h, j, k) <==> WasLong(h, j, k - 1) || Since(h, j, k - 1) >= 800
  {
  }

  lemma FiresDown(b: Btn, raw: bool, now: u32)
    requires b.pressed
    ensures Fired(b, raw, now) ==
            if b.longFired then Nothing
            else if !Polled(b, raw, now).pressed then Short
            else if (now - b.pressStart) % 0x1_0000_0000 >= 800 then Long
            else Nothing
  {
  }

  /**
   * What a press makes of itself: while the button is down, the first poll 800 ms or more after it went down fires it
   * long; its release fires it short, unless it has fired long; nothing else fires, nor does a button that is up.
   */
  lemma PressExactly(h: seq<Poll>, i: nat, j: nat, k: nat)
    requires k < |h| && i < COUNT && DownSince(h, i, j, k)
    ensures FiredAt(h, i, k) ==
            if WasLong(h, j, k) then Nothing
            else if Changes(h, i, k) then Short
            else if Since(h, j, k) >= 800 then Long
            else Nothing
  {
    DownState(h, i, j, k);
    PressFires(h, i, j, k);
  }

  lemma PressFires(h: seq<Poll>, i: nat, j: nat, k: nat)
    requires j < k < |h| && i < COUNT && IsDown(h, i, j, k)
    ensures FiredAt(h, i, k) ==
            if WasLong(h, j, k) then Nothing
            else if Changes(h, i, k) then Short
            else if Since(h, j, k) >= 800 then Long
            else Nothing
  {
    PolledAt(h, i, k);
    FiresDown(After(h, k).btns[i], h[k].raws[i], Millis(h[k].at));
  }

  lemma UpFiresNothing(h: seq<Poll>, i: nat, k: nat)
    requires k < |h| && i < COUNT && !After(h, k).btns[i].pressed
    ensures FiredAt(h, i, k) == Nothing
  {
  }

  lemma DownOnceMore(h: seq<Poll>, i: nat, j: nat, k: nat)
    requires k < |h| && i < COUNT && DownSince(h, i, j, k) && !Changes(h, i, k)
    ensures DownSince(h, i, j, k + 1)
  {
  }

  /** Every button that is down went down at some poll. */
  lemma {:induction false} DownFrom(h: seq<Poll>, i: nat, k: nat) returns (j: nat)
    requires k <= |h| && i < COUNT && After(h, k).btns[i].pressed
    ensures DownSince(h, i, j, k)
  {
    if Changes(h, i, k - 1) {
      j := k - 1;
    } else {
      j := DownFrom(h, i, k - 1);
      DownOnceMore(h, i, j, k - 1);
    }
  }

  /** So when no other button fires and there is no panic, the poll reports just that, under the button's own name. */
  lemma PressReported(h: seq<Poll>, i: nat, j: nat, k: nat)
    requires k < |h| && i < 3 && DownSince(h, i, j, k) && Event(h, k) != Panic
    requires forall o | 0 <= o < 3 && o != i :: FiredAt(h, o, k) == Nothing
    ensures Event(h, k) ==
            if WasLong(h, j, k) then NoEvent
            else if Changes(h, i, k) then [UpShort, OkShort, DownShort][i]
            else if Since(h, j, k) >= 800 then [UpLong, OkLong, DownLong][i]
            else NoEvent
  {
    PressExactly(h, i, j, k);
    ReportedExactly(h, k);
  }

  /** Without a panic a poll reports the last button that fired, by its own name. */
  lemma ReportedExactly(h: seq<Poll>, k: nat)
    requires k < |h| && Event(h, k) != Panic
    ensures var up, ok, down := FiredAt(h, 0, k), FiredAt(h, 1, k), FiredAt(h, 2, k);
            Event(h, k) == if down == Short then DownShort else if down == Long then DownLong
                           else if ok == Short then OkShort else if ok == Long then OkLong
                           else if up == Short then UpShort else if up == Long then UpLong
                           else NoEvent
  {
    var s, raws, now := After(h, k).btns, h[k].raws, Millis(h[k].at);
    assert LastFired(s, raws, now, 0) == NoEvent;
    assert LastFired(s, raws, now, 1) == if FiredAt(h, 0, k) == Nothing then NoEvent else EventOf(0, FiredAt(h, 0, k));
    assert LastFired(s, raws, now, 2)
        == if FiredAt(h, 1, k) == Nothing then LastFired(s, raws, now, 1) else EventOf(1, FiredAt(h, 1, k));
  }
}
