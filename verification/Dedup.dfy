/**
 * The mesh duplicate cache (firmware/src/mesh.cpp): a 64-slot ring of packet keys stamped with a
 * 32-bit millisecond clock, refined by the unbounded log of everything ever added to it.
 */
module Dedup {
  import opened Words

  const SIZE := 64
  const TTL_MS := 60000

  datatype Entry = Entry(msgId: u32, sender: u32, stamp: u32)

  const EMPTY := Entry(0, 0, 0)

  type Slots = s: seq<Entry> | |s| == SIZE witness Repeat(EMPTY, SIZE)

  type Index = i: nat | i < SIZE

  datatype Ring = Ring(slots: Slots, head: Index)

  const INIT := Ring(Repeat(EMPTY, SIZE), 0)

  /** millis(): the low 32 bits of the true time. */
  function Millis(t: nat): u32 { t % U32_RANGE }

  /** The unsigned difference `now - since`. */
  function Elapsed(now: u32, since: u32): u32 { (now - since) % U32_RANGE }

  // ---------- The ring as a value ----------

  predicate Hits(e: Entry, sender: u32, msgId: u32, now: u32)
  {
    e.sender == sender && e.msgId == msgId && Elapsed(now, e.stamp) < TTL_MS
  }

  predicate IsDup(r: Ring, sender: u32, msgId: u32, now: u32)
  {
    exists i | 0 <= i < SIZE :: Hits(r.slots[i], sender, msgId, now)
  }

  function Added(r: Ring, sender: u32, msgId: u32, now: u32): Ring
  {
    Ring(r.slots[r.head := Entry(msgId, sender, now)], (r.head + 1) % SIZE)
  }

  function Purged(e: Entry, now: u32): Entry
  {
    if e.stamp != 0 && Elapsed(now, e.stamp) > TTL_MS then EMPTY else e
  }

  function PurgedAll(s: seq<Entry>, now: u32): (p: seq<Entry>)
    ensures |p| == |s| && forall i | 0 <= i < |s| :: p[i] == Purged(s[i], now)
  {
    if s == [] then [] else PurgedAll(s[..|s| - 1], now) + [Purged(s[|s| - 1], now)]
  }

  function Ticked(r: Ring, now: u32): Ring
  {
    Ring(PurgedAll(r.slots, now), r.head)
  }

  // ---------- The ring as the firmware keeps it ----------

  class DedupRing {
    var slots: array<Entry>
    var head: Index

    ghost predicate Valid()
      reads this
    {
      slots.Length == SIZE
    }

    ghost function Value(): Ring
      requires Valid()
      reads this, slots
    {
      Ring(slots[..], head)
    }

    constructor ()
      ensures Valid() && fresh(slots) && Value() == INIT
    {
      slots := new Entry[SIZE](_ => EMPTY);
      head := 0;
    }

    method IsDuplicate(sender: u32, msgId: u32, now: u32) returns (dup: bool)
      requires Valid()
      ensures dup == IsDup(Value(), sender, msgId, now)
    {
      var i := 0;
      while i < SIZE
        invariant i <= SIZE
        invariant forall k | 0 <= k < i :: !Hits(slots[k], sender, msgId, now)
      {
        if slots[i].sender == sender && slots[i].msgId == msgId && Elapsed(now, slots[i].stamp) < TTL_MS {
          assert Hits(Value().slots[i], sender, msgId, now);
          return true;
        }
        i := i + 1;
      }
      return false;
    }

    method Add(sender: u32, msgId: u32, now: u32)
      requires Valid()
      modifies this`head, slots
      ensures Valid() && Value() == Added(old(Value()), sender, msgId, now)
    {
      slots[head] := Entry(msgId, sender, now);
      head := (head + 1) % SIZE;
    }

    method Tick(now: u32)
      requires Valid()
      modifies slots
      ensures Valid() && Value() == Ticked(old(Value()), now)
    {
      var i := 0;
      while i < SIZE
        invariant i <= SIZE
        invariant forall k | 0 <= k < i :: slots[k] == Purged(old(slots[k]), now)
        invariant forall k | i <= k < SIZE :: slots[k] == old(slots[k])
      {
        if slots[i].stamp != 0 && Elapsed(now, slots[i].stamp) > TTL_MS {
          slots[i] := slots[i].(stamp := 0);
          slots[i] := slots[i].(sender := 0);
          slots[i] := slots[i].(msgId := 0);
        }
        i := i + 1;
      }
    }
  }

  // ---------- The log the ring stands for ----------

  /** One addition to the cache, at its true time. */
  datatype Seen = Seen(sender: u32, msgId: u32, at: nat)

  function Stamped(s: Seen): Entry { Entry(s.msgId, s.sender, Millis(s.at)) }

  /** Position `j` of the log is one of the last 64 additions. */
  ghost predicate InWindow(log: seq<Seen>, j: int)
  {
    0 <= j < |log| && |log| - 64 <= j
  }

  /** Slot contents for a logged addition: the stamped entry, or nothing once it is over a minute old. */
  ghost predicate Keeps(e: Entry, s: Seen, t: nat)
  {
    e == Stamped(s) || (e == EMPTY && t - s.at > TTL_MS)
  }

  ghost predicate Tracks(r: Ring, log: seq<Seen>, t: nat)
  {
    && r.head == |log| % SIZE
    && (forall j | 0 <= j < |log| :: log[j].at <= t)
    && (forall i | |log| <= i < SIZE :: r.slots[i] == EMPTY)
    && (forall j | InWindow(log, j) :: Keeps(r.slots[j % SIZE], log[j], t))
  }

  ghost predicate SeenAt(s: Seen, sender: u32, msgId: u32, t: nat)
  {
    s.sender == sender && s.msgId == msgId && t - s.at < 60000
  }

  /** What the cache is for: one of the last 64 additions had this key less than a minute ago. */
  ghost predicate RecentlySeen(log: seq<Seen>, sender: u32, msgId: u32, t: nat)
  {
    exists j | InWindow(log, j) :: SeenAt(log[j], sender, msgId, t)
  }

  /** No entry still in the ring is a whole lap of the clock old. */
  ghost predicate Young(r: Ring, log: seq<Seen>, t: nat)
  {
    forall j | InWindow(log, j) && r.slots[j % SIZE] == Stamped(log[j]) :: t - log[j].at < 0x1_0000_0000
  }

  // ---------- Every operation keeps the refinement ----------

  lemma AddTracks(r: Ring, log: seq<Seen>, t: nat, sender: u32, msgId: u32)
    requires Tracks(r, log, t)
    ensures Tracks(Added(r, sender, msgId, Millis(t)), log + [Seen(sender, msgId, t)], t)
  {
    var r', log' := Added(r, sender, msgId, Millis(t)), log + [Seen(sender, msgId, t)];
    forall j | InWindow(log', j)
      ensures Keeps(r'.slots[j % SIZE], log'[j], t)
    {
      if j < |log| {
        OldKept(r, log, t, sender, msgId, j);
      }
    }
  }

  lemma OldKept(r: Ring, log: seq<Seen>, t: nat, sender: u32, msgId: u32, j: nat)
    requires Tracks(r, log, t) && j < |log| < j + SIZE
    ensures Keeps(Added(r, sender, msgId, Millis(t)).slots[j % SIZE], log[j], t)
  {
    assert InWindow(log, j);
    WindowSlotsDiffer(j, |log|);
  }

  lemma WindowSlotsDiffer(j: nat, n: nat)
    requires j < n < j + SIZE
    ensures j % SIZE != n % SIZE
  {
  }

  lemma TickTracks(r: Ring, log: seq<Seen>, t: nat)
    requires Tracks(r, log, t)
    ensures Tracks(Ticked(r, Millis(t)), log, t)
  {
    forall j | InWindow(log, j)
      ensures Keeps(Ticked(r, Millis(t)).slots[j % SIZE], log[j], t)
    {
      ElapsedIsAge(log[j].at, t);
    }
  }

  lemma WaitTracks(r: Ring, log: seq<Seen>, t: nat, t': nat)
    requires Tracks(r, log, t) && t <= t'
    ensures Tracks(r, log, t')
  {
    forall j | InWindow(log, j)
      ensures Keeps(r.slots[j % SIZE], log[j], t')
    {
      assert Keeps(r.slots[j % SIZE], log[j], t);
    }
  }

  /** The wrapping difference of two stamps is the true age up to whole laps of the clock. */
  lemma ElapsedIsAge(at: nat, t: nat)
    requires at <= t
    ensures Elapsed(Millis(t), Millis(at)) == (t - at) % U32_RANGE <= t - at
  {
    var q, p := t / U32_RANGE, at / U32_RANGE;
    var d := Millis(t) - Millis(at);
    assert t - at == U32_RANGE * (q - p) + d;
    ModShift(d, q - p);
  }

  lemma ModShift(d: int, k: int)
    ensures (U32_RANGE * k + d) % U32_RANGE == d % U32_RANGE
  {
    var m := d / U32_RANGE;
    assert U32_RANGE * k + d == U32_RANGE * (k + m) + d % U32_RANGE;
  }

  // ---------- What the cache answers ----------

  /**
   * A key added within the last minute and the last 64 additions is always reported, for every key and across clock
   * wrap.
   */
  lemma FreshIsDuplicate(r: Ring, log: seq<Seen>, t: nat, sender: u32, msgId: u32)
    requires Tracks(r, log, t) && RecentlySeen(log, sender, msgId, t)
    ensures IsDup(r, sender, msgId, Millis(t))
  {
    var j :| InWindow(log, j) && SeenAt(log[j], sender, msgId, t);
    ElapsedIsAge(log[j].at, t);
    assert Keeps(r.slots[j % SIZE], log[j], t);
    assert Hits(r.slots[j % SIZE], sender, msgId, Millis(t));
  }

  /** An entry that outlived a whole lap of the clock and looks fresh again. */
  ghost predicate AliasAt(r: Ring, log: seq<Seen>, j: int, sender: u32, msgId: u32, t: nat)
    requires InWindow(log, j)
  {
    && r.slots[j % SIZE] == Stamped(log[j])
    && log[j].sender == sender && log[j].msgId == msgId
    && t - log[j].at >= 0x1_0000_0000 && (t - log[j].at) % 0x1_0000_0000 < 60000
  }

  ghost predicate Aliased(r: Ring, log: seq<Seen>, sender: u32, msgId: u32, t: nat)
  {
    exists j | InWindow(log, j) :: AliasAt(r, log, j, sender, msgId, t)
  }

  /** A zeroed slot answers for the all-zero key during the first minute of each lap of the clock. */
  ghost predicate ZeroSlotHit(r: Ring, sender: u32, msgId: u32, t: nat)
  {
    sender == 0 && msgId == 0 && Millis(t) < TTL_MS && EMPTY in r.slots
  }

  /** The exact answer of the cache for every key at every time. */
  lemma DuplicateExactly(r: Ring, log: seq<Seen>, t: nat, sender: u32, msgId: u32)
    requires Tracks(r, log, t)
    ensures IsDup(r, sender, msgId, Millis(t)) <==>
            RecentlySeen(log, sender, msgId, t) || Aliased(r, log, sender, msgId, t) || ZeroSlotHit(r, sender, msgId, t)
  {
    if RecentlySeen(log, sender, msgId, t) {
      FreshIsDuplicate(r, log, t, sender, msgId);
    }
    if Aliased(r, log, sender, msgId, t) {
      var j :| InWindow(log, j) && AliasAt(r, log, j, sender, msgId, t);
      ElapsedIsAge(log[j].at, t);
      assert Hits(r.slots[j % SIZE], sender, msgId, Millis(t));
    }
    if ZeroSlotHit(r, sender, msgId, t) {
      var i :| 0 <= i < SIZE && r.slots[i] == EMPTY;
      assert Hits(r.slots[i], sender, msgId, Millis(t));
    }
    if IsDup(r, sender, msgId, Millis(t)) {
      DuplicateExplained(r, log, t, sender, msgId);
    }
  }

  lemma DuplicateExplained(r: Ring, log: seq<Seen>, t: nat, sender: u32, msgId: u32)
    requires Tracks(r, log, t) && IsDup(r, sender, msgId, Millis(t))
    ensures RecentlySeen(log, sender, msgId, t) || Aliased(r, log, sender, msgId, t) || ZeroSlotHit(r, sender, msgId, t)
  {
    var i :| 0 <= i < SIZE && Hits(r.slots[i], sender, msgId, Millis(t));
    if r.slots[i] == EMPTY {
      assert ZeroSlotHit(r, sender, msgId, t);
    } else {
      var j := SlotPosition(log, i);
      assert Keeps(r.slots[j % SIZE], log[j], t);
      ElapsedIsAge(log[j].at, t);
      assert SeenAt(log[j], sender, msgId, t) || AliasAt(r, log, j, sender, msgId, t);
    }
  }

  lemma SlotPosition(log: seq<Seen>, i: nat) returns (j: nat)
    requires i < SIZE && i < |log|
    ensures InWindow(log, j) && j % SIZE == i
  {
    var last := |log| - 1;
    j := last - (last - i) % SIZE;
    var k := (last - i) / SIZE;
    assert j == i + SIZE * k;
  }

  /**
   * The cache answers exactly "one of the last 64 additions had this key less than a minute ago",
   * for every key but (0,0), as long as no entry in it has survived a whole lap of the clock.
   */
  lemma DuplicateIffRecentlySeen(r: Ring, log: seq<Seen>, t: nat, sender: u32, msgId: u32)
    requires Tracks(r, log, t) && Young(r, log, t) && (sender, msgId) != (0, 0)
    ensures IsDup(r, sender, msgId, Millis(t)) <==> RecentlySeen(log, sender, msgId, t)
  {
    DuplicateExactly(r, log, t, sender, msgId);
  }

  /** One purge changes no answer, now or later. */
  lemma TickInvisible(r: Ring, log: seq<Seen>, t: nat, t': nat, sender: u32, msgId: u32)
    requires Tracks(r, log, t) && t <= t' && Young(r, log, t') && (sender, msgId) != (0, 0)
    ensures IsDup(Ticked(r, Millis(t)), sender, msgId, Millis(t')) <==> IsDup(r, sender, msgId, Millis(t'))
  {
    var r' := Ticked(r, Millis(t));
    TickTracks(r, log, t);
    WaitTracks(r, log, t, t');
    WaitTracks(r', log, t, t');
    forall j | InWindow(log, j) && r'.slots[j % SIZE] == Stamped(log[j])
      ensures t' - log[j].at < U32_RANGE
    {
      assert Keeps(r.slots[j % SIZE], log[j], t');
      ElapsedIsAge(log[j].at, t);
    }
    DuplicateIffRecentlySeen(r, log, t', sender, msgId);
    DuplicateIffRecentlySeen(r', log, t', sender, msgId);
  }

  /**
   * One tick keeps the ring young for almost a whole lap, unless some addition was stamped 0: the
   * purge takes stamp 0 for "free" and never clears it.
   */
  lemma TickKeepsYoung(r: Ring, log: seq<Seen>, t: nat, t': nat)
    requires Tracks(r, log, t) && Young(r, log, t)
    requires t <= t' < t + U32_RANGE - TTL_MS
    requires forall j | InWindow(log, j) :: Millis(log[j].at) != 0
    ensures Young(Ticked(r, Millis(t)), log, t')
  {
    forall j | InWindow(log, j) && Ticked(r, Millis(t)).slots[j % SIZE] == Stamped(log[j])
      ensures t' - log[j].at < U32_RANGE
    {
      var e := r.slots[j % SIZE];
      assert Keeps(e, log[j], t) && Ticked(r, Millis(t)).slots[j % SIZE] == Purged(e, Millis(t));
      ElapsedIsAge(log[j].at, t);
    }
  }

  // ---------- Whole runs ----------

  datatype Op = Add(sender: u32, msgId: u32) | Tick | Wait(ms: nat)

  datatype History = History(ring: Ring, log: seq<Seen>, now: nat)

  function Apply(h: History, op: Op): History
  {
    match op
    case Add(s, m) => History(Added(h.ring, s, m, Millis(h.now)), h.log + [Seen(s, m, h.now)], h.now)
    case Tick => h.(ring := Ticked(h.ring, Millis(h.now)))
    case Wait(ms) => h.(now := h.now + ms)
  }

  function Run(t0: nat, ops: seq<Op>): History
  {
    if ops == [] then History(INIT, [], t0) else Apply(Run(t0, ops[..|ops| - 1]), ops[|ops| - 1])
  }

  /** After any interleaving of additions, purges and waiting, the ring stands for its log. */
  lemma {:induction false} RunTracks(t0: nat, ops: seq<Op>)
    ensures var h := Run(t0, ops); Tracks(h.ring, h.log, h.now)
  {
    if ops != [] {
      RunTracks(t0, ops[..|ops| - 1]);
      var h := Run(t0, ops[..|ops| - 1]);
      match ops[|ops| - 1]
      case Add(s, m) => AddTracks(h.ring, h.log, h.now, s, m);
      case Tick => TickTracks(h.ring, h.log, h.now);
      case Wait(ms) => WaitTracks(h.ring, h.log, h.now, h.now + ms);
    }
  }

  // ---------- Purging over whole runs ----------

  function WithoutTicks(ops: seq<Op>): seq<Op>
  {
    if ops == [] then []
    else WithoutTicks(ops[..|ops| - 1]) + if ops[|ops| - 1].Tick? then [] else [ops[|ops| - 1]]
  }

  lemma RunNext(t0: nat, ops: seq<Op>, op: Op)
    ensures Run(t0, ops + [op]) == Apply(Run(t0, ops), op)
  {
    assert (ops + [op])[..|ops|] == ops;
  }

  lemma {:induction false} SameLog(t0: nat, ops: seq<Op>)
    ensures var h, g := Run(t0, ops), Run(t0, WithoutTicks(ops)); h.log == g.log && h.now == g.now
  {
    if ops != [] {
      var r, op := ops[..|ops| - 1], ops[|ops| - 1];
      SameLog(t0, r);
      if op.Tick? {
        assert WithoutTicks(ops) == WithoutTicks(r);
      } else {
        RunNext(t0, WithoutTicks(r), op);
      }
    }
  }

  /** None of the last 64 additions is a whole lap of the clock old. */
  ghost predicate Recent(log: seq<Seen>, t: nat) { forall j | InWindow(log, j) :: t - log[j].at < 0x1_0000_0000 }

  /**
   * Leaving all ticks out of a run changes no answer at its end, and so at any moment of it, as long as none of the
   * last 64 additions is a whole lap old.
   */
  lemma TicksInvisible(t0: nat, ops: seq<Op>, sender: u32, msgId: u32)
    requires (sender, msgId) != (0, 0) && Recent(Run(t0, ops).log, Run(t0, ops).now)
    ensures var h, g := Run(t0, ops), Run(t0, WithoutTicks(ops));
            IsDup(h.ring, sender, msgId, Millis(h.now)) <==> IsDup(g.ring, sender, msgId, Millis(g.now))
  {
    var h, g := Run(t0, ops), Run(t0, WithoutTicks(ops));
    SameLog(t0, ops);
    RunTracks(t0, ops);
    RunTracks(t0, WithoutTicks(ops));
    DuplicateIffRecentlySeen(h.ring, h.log, h.now, sender, msgId);
    DuplicateIffRecentlySeen(g.ring, g.log, g.now, sender, msgId);
  }

  /** Milliseconds since the last tick, or since the start. */
  function SinceTick(ops: seq<Op>): nat
  {
    if ops == [] then 0
    else
      match ops[|ops| - 1]
      case Add(_, _) => SinceTick(ops[..|ops| - 1])
      case Tick => 0
      case Wait(ms) => SinceTick(ops[..|ops| - 1]) + ms
  }

  /** A tick at least once in a lap less a minute. */
  predicate Ticking(ops: seq<Op>)
  {
    ops == [] || (Ticking(ops[..|ops| - 1]) && SinceTick(ops) < U32_RANGE - TTL_MS)
  }

  /** No addition while the clock reads 0. */
  predicate NoneAtZero(t0: nat, ops: seq<Op>)
  {
    ops == [] ||
    (NoneAtZero(t0, ops[..|ops| - 1]) && (ops[|ops| - 1].Add? ==> Millis(Run(t0, ops[..|ops| - 1]).now) != 0))
  }

  /** Entries still in the ring are at most so old, except those stamped 0, which are never purged. */
  ghost predicate Aged(r: Ring, log: seq<Seen>, t: nat, age: nat)
  {
    forall j | InWindow(log, j) :: AgedAt(r.slots[j % SIZE], log[j], t, age)
  }

  ghost predicate AgedAt(e: Entry, s: Seen, t: nat, age: nat)
  {
    if Millis(s.at) == 0 then e == Stamped(s) else e == Stamped(s) ==> t - s.at <= age
  }

  lemma AddAged(r: Ring, log: seq<Seen>, t: nat, age: nat, sender: u32, msgId: u32)
    requires Tracks(r, log, t) && Aged(r, log, t, age)
    ensures Aged(Added(r, sender, msgId, Millis(t)), log + [Seen(sender, msgId, t)], t, age)
  {
    var log' := log + [Seen(sender, msgId, t)];
    forall j | InWindow(log', j)
      ensures AgedAt(Added(r, sender, msgId, Millis(t)).slots[j % SIZE], log'[j], t, age)
    {
      if j < |log| {
        assert InWindow(log, j) && AgedAt(r.slots[j % SIZE], log[j], t, age);
        WindowSlotsDiffer(j, |log|);
      }
    }
  }

  lemma TickAged(r: Ring, log: seq<Seen>, t: nat, age: nat)
    requires Tracks(r, log, t) && Aged(r, log, t, age) && age < U32_RANGE
    ensures Aged(Ticked(r, Millis(t)), log, t, TTL_MS)
  {
    forall j | InWindow(log, j)
      ensures AgedAt(Ticked(r, Millis(t)).slots[j % SIZE], log[j], t, TTL_MS)
    {
      var e := r.slots[j % SIZE];
      assert Keeps(e, log[j], t) && AgedAt(e, log[j], t, age);
      assert Ticked(r, Millis(t)).slots[j % SIZE] == Purged(e, Millis(t));
      ElapsedIsAge(log[j].at, t);
    }
  }

  lemma WaitAged(r: Ring, log: seq<Seen>, t: nat, age: nat, ms: nat)
    requires Aged(r, log, t, age)
    ensures Aged(r, log, t + ms, age + ms)
  {
    forall j | InWindow(log, j)
      ensures AgedAt(r.slots[j % SIZE], log[j], t + ms, age + ms)
    {
      assert AgedAt(r.slots[j % SIZE], log[j], t, age);
    }
  }

  lemma {:induction false} TicksKeepAged(t0: nat, ops: seq<Op>)
    requires Ticking(ops)
    ensures var h := Run(t0, ops); Aged(h.ring, h.log, h.now, TTL_MS + SinceTick(ops))
  {
    if ops != [] {
      var r, op := ops[..|ops| - 1], ops[|ops| - 1];
      TicksKeepAged(t0, r);
      RunTracks(t0, r);
      var h := Run(t0, r);
      match op
      case Add(s, m) => AddAged(h.ring, h.log, h.now, TTL_MS + SinceTick(r), s, m);
      case Tick =>
        assert r == [] || SinceTick(r) < U32_RANGE - TTL_MS;
        TickAged(h.ring, h.log, h.now, TTL_MS + SinceTick(r));
      case Wait(ms) => WaitAged(h.ring, h.log, h.now, TTL_MS + SinceTick(r), ms);
    }
  }

  /** An addition of the key while the clock read 0, in the first minute of a lap since. */
  ghost predicate ReturnsAt(s: Seen, sender: u32, msgId: u32, t: nat)
  {
    s.sender == sender && s.msgId == msgId && Millis(s.at) == 0 && (t - s.at) % 0x1_0000_0000 < 60000
  }

  ghost predicate Returns(log: seq<Seen>, sender: u32, msgId: u32, t: nat)
  {
    exists j | InWindow(log, j) :: ReturnsAt(log[j], sender, msgId, t)
  }

  /** A slot that has outlived a lap holds an addition made at reading 0, and such additions are never purged. */
  lemma OnlyZeroReturns(r: Ring, log: seq<Seen>, t: nat, sender: u32, msgId: u32, age: nat)
    requires Tracks(r, log, t) && Aged(r, log, t, age) && age < U32_RANGE
    ensures Aliased(r, log, sender, msgId, t) ==> Returns(log, sender, msgId, t)
    ensures Returns(log, sender, msgId, t) ==> RecentlySeen(log, sender, msgId, t) || Aliased(r, log, sender, msgId, t)
  {
    if Aliased(r, log, sender, msgId, t) {
      var j :| InWindow(log, j) && AliasAt(r, log, j, sender, msgId, t);
      assert AgedAt(r.slots[j % SIZE], log[j], t, age) && ReturnsAt(log[j], sender, msgId, t);
    }
    if Returns(log, sender, msgId, t) {
      var j :| InWindow(log, j) && ReturnsAt(log[j], sender, msgId, t);
      assert AgedAt(r.slots[j % SIZE], log[j], t, age);
      if t - log[j].at < U32_RANGE {
        assert SeenAt(log[j], sender, msgId, t);
      } else {
        assert AliasAt(r, log, j, sender, msgId, t);
      }
    }
  }

  /**
   * The exact answer over every history that ticks at least once in a lap less a minute: for keys other than (0,0)
   * reported if and only if recently seen, or one of the last 64 additions had the key, was made while the clock
   * read 0, and some lap since is in its first minute.
   */
  lemma TicksExactly(t0: nat, ops: seq<Op>, sender: u32, msgId: u32)
    requires Ticking(ops) && (sender, msgId) != (0, 0)
    ensures var h := Run(t0, ops);
            IsDup(h.ring, sender, msgId, Millis(h.now)) <==>
            RecentlySeen(h.log, sender, msgId, h.now) || Returns(h.log, sender, msgId, h.now)
  {
    var h := Run(t0, ops);
    TicksKeepAged(t0, ops);
    RunTracks(t0, ops);
    assert TTL_MS + SinceTick(ops) < U32_RANGE;
    DuplicateExactly(h.ring, h.log, h.now, sender, msgId);
    OnlyZeroReturns(h.ring, h.log, h.now, sender, msgId, TTL_MS + SinceTick(ops));
  }

  ghost predicate NonzeroStamps(log: seq<Seen>) { forall j | 0 <= j < |log| :: Millis(log[j].at) != 0 }

  lemma {:induction false} NoneAtZeroLogged(t0: nat, ops: seq<Op>)
    requires NoneAtZero(t0, ops)
    ensures NonzeroStamps(Run(t0, ops).log)
  {
    if ops != [] {
      var r := ops[..|ops| - 1];
      NoneAtZeroLogged(t0, r);
      var h := Run(t0, r);
      assert ops[|ops| - 1].Add? ==> Millis(h.now) != 0;
      assert forall s: Seen | Millis(s.at) != 0 :: NonzeroStamps(h.log + [s]);
    }
  }

  /** So with no addition while the clock reads 0 the cache is exact in every such history, however long. */
  lemma TicksKeepExact(t0: nat, ops: seq<Op>, sender: u32, msgId: u32)
    requires Ticking(ops) && NoneAtZero(t0, ops)
    ensures var h := Run(t0, ops);
            && Young(h.ring, h.log, h.now)
            && ((sender, msgId) != (0, 0) ==>
                  (IsDup(h.ring, sender, msgId, Millis(h.now)) <==> RecentlySeen(h.log, sender, msgId, h.now)))
  {
    var h := Run(t0, ops);
    TicksKeepAged(t0, ops);
    NoneAtZeroLogged(t0, ops);
    forall j | InWindow(h.log, j) && h.ring.slots[j % SIZE] == Stamped(h.log[j])
      ensures h.now - h.log[j].at < U32_RANGE
    {
      assert AgedAt(h.ring.slots[j % SIZE], h.log[j], h.now, TTL_MS + SinceTick(ops));
    }
    if (sender, msgId) != (0, 0) {
      TicksExactly(t0, ops, sender, msgId);
    }
  }

  // ---------- A stamp of zero ----------

  predicate Idle(ops: seq<Op>) { forall i | 0 <= i < |ops| :: !ops[i].Add? }

  function Waited(ops: seq<Op>): nat
  {
    if ops == [] then 0
    else Waited(ops[..|ops| - 1]) + if ops[|ops| - 1].Wait? then ops[|ops| - 1].ms else 0
  }

  lemma {:induction false} ZeroStampStays(t0: nat, sender: u32, msgId: u32, ops: seq<Op>)
    requires Millis(t0) == 0 && Idle(ops)
    ensures Run(t0, [Add(sender, msgId)] + ops) ==
            History(Added(INIT, sender, msgId, 0), [Seen(sender, msgId, t0)], t0 + Waited(ops))
  {
    var all := [Add(sender, msgId)] + ops;
    if ops == [] {
      assert all[..0] == [] && all[0] == Add(sender, msgId);
      assert Run(t0, []) == History(INIT, [], t0);
    } else {
      var r := ops[..|ops| - 1];
      ZeroStampStays(t0, sender, msgId, r);
      assert all[..|all| - 1] == [Add(sender, msgId)] + r && all[|all| - 1] == ops[|ops| - 1];
      ZeroStampTicked(sender, msgId, Millis(t0 + Waited(r)));
    }
  }

  lemma ZeroStampTicked(sender: u32, msgId: u32, now: u32)
    ensures Ticked(Added(INIT, sender, msgId, 0), now) == Added(INIT, sender, msgId, 0)
  {
    var r := Added(INIT, sender, msgId, 0);
    assert PurgedAll(r.slots, now) == r.slots;
  }

  /**
   * A packet cached while the clock reads 0 is never purged, by any number of ticks: from then on its key is
   * reported during the first minute of every lap, though it was added only once.
   */
  lemma ZeroStampReturns(t0: nat, sender: u32, msgId: u32, ops: seq<Op>)
    requires Millis(t0) == 0 && Idle(ops) && (sender, msgId) != (0, 0)
    ensures var h := Run(t0, [Add(sender, msgId)] + ops);
            && (IsDup(h.ring, sender, msgId, Millis(h.now)) <==> Waited(ops) % U32_RANGE < TTL_MS)
            && (RecentlySeen(h.log, sender, msgId, h.now) <==> Waited(ops) < TTL_MS)
  {
    ZeroStampStays(t0, sender, msgId, ops);
    ZeroStampAnswer(t0, sender, msgId, Waited(ops));
  }

  lemma ZeroStampAnswer(t0: nat, sender: u32, msgId: u32, waited: nat)
    requires Millis(t0) == 0 && (sender, msgId) != (0, 0)
    ensures IsDup(Added(INIT, sender, msgId, 0), sender, msgId, Millis(t0 + waited)) <==> waited % U32_RANGE < TTL_MS
    ensures RecentlySeen([Seen(sender, msgId, t0)], sender, msgId, t0 + waited) <==> waited < TTL_MS
  {
    var r, log, now := Added(INIT, sender, msgId, 0), [Seen(sender, msgId, t0)], t0 + waited;
    ElapsedIsAge(t0, now);
    assert r.slots[0] == Entry(msgId, sender, 0) && forall i | 0 < i < SIZE :: r.slots[i] == EMPTY;
    assert Hits(r.slots[0], sender, msgId, Millis(now)) <==> waited % U32_RANGE < TTL_MS;
    if waited < TTL_MS {
      assert InWindow(log, 0) && SeenAt(log[0], sender, msgId, now);
    }
  }

  /** So one lap after such an addition the key is reported though nothing was added for 49 days. */
  lemma LapFalseDuplicate(sender: u32, msgId: u32, ops: seq<Op>)
    requires Idle(ops) && Waited(ops) == U32_RANGE && (sender, msgId) != (0, 0)
    ensures var h := Run(U32_RANGE, [Add(sender, msgId)] + ops);
            IsDup(h.ring, sender, msgId, Millis(h.now)) && !RecentlySeen(h.log, sender, msgId, h.now)
  {
    ZeroStampReturns(U32_RANGE, sender, msgId, ops);
  }
}
