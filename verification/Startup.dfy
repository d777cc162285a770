/**
 * How a device comes into use (firmware/src/state_machine.cpp, firmware/src/ui.cpp): from power-up over the splash
 * screen, and from the welcome screen over a typed PIN.
 */
module Startup {
  import opened Words
  import opened TextMessages
  import I = Identity
  import opened Ui
  import opened DeviceLife

  /** Passes of the loop without a panic, and redraws. */
  predicate Calm(acts: seq<Act>)
  {
    forall a | a in acts :: !a.PowerCycle? && (a.Pass? ==> a.evt != Panic)
  }

  /** A pass more than a second and a half after `t0`, as the 32-bit clock counts. */
  predicate Late(a: Act, t0: u32) { a.Pass? && (a.now - t0) % 0x1_0000_0000 > 1500 }

  predicate AnyLate(acts: seq<Act>, t0: u32) { exists a :: a in acts && Late(a, t0) }

  /** The EEPROM bytes that mark a provisioned device. */
  predicate Marked(c: I.Cells) { c[0..4] == [0x48, 0x43, 0x4D, 0x50] }

  lemma MarkedIsProvisioned(c: I.Cells)
    ensures Marked(c) <==> I.Provisioned(c)
  {
    var magic: seq<byte> := [0x48, 0x43, 0x4D, 0x50];
    U32RoundTrip(0, c[0..4]);
    U32RoundTrip(0, magic);
    assert GetU32(magic) == 0x504D4348;
  }

  // ---------- From power-up ----------

  /** On the splash screen, nothing loaded. */
  ghost predicate Booting(d: Device, c: I.Cells, t0: u32)
  {
    && UiOk(d.ui) && d.ui.screen == Splash && d.sys == BootState && d.since == t0
    && d.ident == I.Booted(c) && d.key == I.NO_KEY
  }

  /** The pass that ends the splash screen. */
  ghost predicate CameUp(d: Device, c: I.Cells, now: u32)
  {
    && d.ident.cells == c && d.since == now
    && if Marked(c) then d.sys == IdleState && d.ui.screen == Inbox && d.key == c[8..40]
       else d.sys == SetupState && d.ui.screen == SetupWelcome && d.key == I.NO_KEY
  }

  lemma StillBooting(derive: Derive, d: Device, c: I.Cells, t0: u32, a: Act)
    requires Booting(d, c, t0) && !a.PowerCycle? && (a.Pass? ==> a.evt != Panic)
    ensures !Late(a, t0) ==> Booting(Apply(derive, d, a), c, t0)
    ensures Late(a, t0) ==> CameUp(Apply(derive, d, a), c, a.now)
  {
    MarkedIsProvisioned(c);
  }

  lemma {:induction false} BootingUntilLate(derive: Derive, c: I.Cells, t0: u32, acts: seq<Act>)
    requires Calm(acts) && !AnyLate(acts, t0)
    ensures Booting(Run(derive, Powered(c, t0, true), acts), c, t0)
  {
    if acts != [] {
      var r, a := acts[..|acts| - 1], acts[|acts| - 1];
      BootingUntilLate(derive, c, t0, r);
      assert a in acts;
      StillBooting(derive, Run(derive, Powered(c, t0, true), r), c, t0, a);
    }
  }

  /**
   * From power-up with a working radio, whatever is pressed short of a panic and however often the screen is drawn: the
   * device shows the splash screen until the first pass more than 1,500 ms after power-up. That pass brings a
   * provisioned device to the inbox, in use and with the stored key, and any other to the welcome screen.
   */
  lemma ComesUp(derive: Derive, c: I.Cells, t0: u32, acts: seq<Act>, a: Act)
    requires Calm(acts + [a]) && !AnyLate(acts, t0)
    ensures var d := Run(derive, Powered(c, t0, true), acts); d.sys == BootState && d.ui.screen == Splash
    ensures Late(a, t0) ==> CameUp(Run(derive, Powered(c, t0, true), acts + [a]), c, a.now)
    ensures !Late(a, t0) ==> Run(derive, Powered(c, t0, true), acts + [a]).sys == BootState
  {
    assert forall x | x in acts :: x in acts + [a];
    assert a in acts + [a] && (acts + [a])[..|acts|] == acts;
    BootingUntilLate(derive, c, t0, acts);
    StillBooting(derive, Run(derive, Powered(c, t0, true), acts), c, t0, a);
  }

  /** In use, with these stored bytes and this key. */
  ghost predicate Serving(d: Device, c: I.Cells, key: Key)
  {
    UiOk(d.ui) && d.sys == IdleState && InUse(d.ui.screen) && d.ident.cells == c && d.key == key
  }

  lemma StillServing(derive: Derive, d: Device, c: I.Cells, key: Key, a: Act)
    requires Serving(d, c, key) && !a.PowerCycle? && (a.Pass? ==> a.evt != Panic)
    ensures Serving(Apply(derive, d, a), c, key)
  {
    ApplyUiOk(derive, d, a);
    if a.Pass? && a.evt != NoEvent {
      UseStaysInUse(d.ui, a.evt);
    }
  }

  lemma {:induction false} KeepsServing(derive: Derive, d: Device, c: I.Cells, key: Key, acts: seq<Act>)
    requires Serving(d, c, key) && Calm(acts)
    ensures Serving(Run(derive, d, acts), c, key)
  {
    if acts != [] {
      var r, a := acts[..|acts| - 1], acts[|acts| - 1];
      KeepsServing(derive, d, c, key, r);
      assert a in acts;
      StillServing(derive, Run(derive, d, r), c, key, a);
    }
  }

  lemma {:induction false} RunConcat(derive: Derive, d: Device, x: seq<Act>, y: seq<Act>)
    requires UiOk(d.ui)
    ensures Run(derive, d, x + y) == Run(derive, Run(derive, d, x), y)
  {
    if y == [] {
      assert x + y == x;
    } else {
      assert (x + y)[..|x + y| - 1] == x + y[..|y| - 1];
      RunConcat(derive, d, x, y[..|y| - 1]);
    }
  }

  lemma ServesAfter(derive: Derive, c: I.Cells, t0: u32, x: seq<Act>, a: Act, y: seq<Act>)
    requires Calm(x + [a] + y) && Marked(c) && !AnyLate(x, t0) && Late(a, t0)
    ensures Serving(Run(derive, Powered(c, t0, true), x + [a] + y), c, c[8..40])
  {
    CalmParts(x + [a], y);
    ComesUp(derive, c, t0, x, a);
    RunConcat(derive, Powered(c, t0, true), x + [a], y);
    KeepsServing(derive, Run(derive, Powered(c, t0, true), x + [a]), c, c[8..40], y);
  }

  lemma CalmParts(x: seq<Act>, y: seq<Act>)
    requires Calm(x + y)
    ensures Calm(x) && Calm(y)
  {
    assert forall a | a in x :: a in x + y;
    assert forall a | a in y :: a in x + y;
  }

  /**
   * So a provisioned device that starts with a working radio is in use with its stored key at every boundary from the
   * first late pass on, and before it is not, in every run without a panic or another power-up.
   */
  lemma InUseIffLate(derive: Derive, c: I.Cells, t0: u32, acts: seq<Act>)
    requires Calm(acts) && Marked(c)
    ensures var d := Run(derive, Powered(c, t0, true), acts);
            if AnyLate(acts, t0) then Serving(d, c, c[8..40]) else d.sys == BootState && d.key == I.NO_KEY
  {
    if AnyLate(acts, t0) {
      var i := FirstLate(acts, t0);
      var x, a, y := acts[..i], acts[i], acts[i + 1..];
      assert acts == x + [a] + y;
      ServesAfter(derive, c, t0, x, a, y);
    } else {
      BootingUntilLate(derive, c, t0, acts);
    }
  }

  lemma FirstLate(acts: seq<Act>, t0: u32) returns (i: nat)
    requires AnyLate(acts, t0)
    ensures i < |acts| && Late(acts[i], t0) && !AnyLate(acts[..i], t0)
  {
    i := 0;
    while !Late(acts[i], t0)
      invariant i < |acts| && !AnyLate(acts[..i], t0) && exists k :: i <= k < |acts| && Late(acts[k], t0)
      decreases |acts| - i
    {
      assert acts[..i + 1] == acts[..i] + [acts[i]];
      i := i + 1;
    }
  }

  /** The pass that confirms a composed text goes on at the inbox. */
  lemma ConfirmingReturns(derive: Derive, d: Device, a: Act)
    requires UiOk(d.ui) && d.sys == IdleState && d.ui.screen == Compose && d.ui.composeLen > 0
    requires a.Pass? && a.evt == OkLong
    ensures Apply(derive, d, a).ui == d.ui.(screen := Inbox) && Apply(derive, d, a).sys == IdleState
  {
  }

  // ---------- From the welcome screen ----------

  /** The PIN buffer while typing: which digit is being set, and the digits. */
  datatype Dial = Dial(cursor: nat, digits: seq<nat>)

  const DIAL_INIT := Dial(0, [0, 0, 0, 0])

  /** Up turns the digit one further, down one back, round the ten; a short press goes to the next, a long up back. */
  function Turned(x: Dial, evt: BtnEvent): (y: Dial)
    requires x.cursor < 4 == |x.digits|
    ensures y.cursor < 4 == |y.digits|
  {
    match evt
    case UpShort => x.(digits := x.digits[x.cursor := (x.digits[x.cursor] + 1) % 10])
    case DownShort => x.(digits := x.digits[x.cursor := (x.digits[x.cursor] + 9) % 10])
    case OkShort => if x.cursor < 3 then x.(cursor := x.cursor + 1) else x
    case UpLong => if x.cursor > 0 then x.(cursor := x.cursor - 1) else x
    case _ => x
  }

  function Dialled(evts: seq<BtnEvent>): (x: Dial)
    ensures x.cursor < 4 == |x.digits|
  {
    if evts == [] then DIAL_INIT else Turned(Dialled(evts[..|evts| - 1]), evts[|evts| - 1])
  }

  /** The digits as characters. */
  ghost predicate Spells(pin: seq<byte>, digits: seq<nat>)
  {
    |digits| == 4 <= |pin| && forall i | 0 <= i < 4 :: digits[i] < 10 && pin[i] as int == 48 + digits[i]
  }

  ghost predicate Typing(u: UiState, x: Dial)
  {
    UiOk(u) && u.screen == SetupPin && u.pinPos == x.cursor && Spells(u.pin, x.digits)
  }

  lemma TypingNext(u: UiState, x: Dial, evt: BtnEvent)
    requires x.cursor < 4 == |x.digits| && Typing(u, x) && evt != OkLong
    ensures Typing(Handled(u, evt), Turned(x, evt))
  {
    HandledOk(u, evt);
  }

  /** Passes that each press one button, at any times, with any random numbers. */
  ghost predicate Presses(acts: seq<Act>, evts: seq<BtnEvent>)
  {
    |acts| == |evts| && forall i | 0 <= i < |acts| :: acts[i].Pass? && acts[i].evt == evts[i]
  }

  /** In set-up on the PIN screen of an unprovisioned device. */
  ghost predicate SettingUp(d: Device, x: Dial)
  {
    Typing(d.ui, x) && d.sys == SetupState && !I.Provisioned(d.ident.cells)
  }

  lemma {:induction false} TypesPin(derive: Derive, d: Device, acts: seq<Act>, evts: seq<BtnEvent>)
    requires SettingUp(d, DIAL_INIT) && Presses(acts, evts) && OkLong !in evts && Panic !in evts
    ensures SettingUp(Run(derive, d, acts), Dialled(evts))
  {
    if acts != [] {
      var r, e := acts[..|acts| - 1], evts[..|evts| - 1];
      TypesPin(derive, d, r, e);
      TypingNext(Run(derive, d, r).ui, Dialled(e), evts[|evts| - 1]);
      assert evts[|evts| - 1] in evts;
    }
  }

  /** Nothing that leaves the identifier screen. */
  predicate Waits(acts: seq<Act>)
  {
    forall a | a in acts :: !a.PowerCycle? && (a.Pass? ==> a.evt !in {OkShort, OkLong, Panic})
  }

  /** On the identifier screen after confirming a PIN. */
  ghost predicate Confirmed(d: Device, key: Key, pin: seq<byte>)
  {
    && UiOk(d.ui) && d.sys == SetupState && d.ui.screen == DeviceInfo && I.Coherent(d.ident)
    && Marked(d.ident.cells) && d.ident.cells[8..40] == key && d.ident.cells[50..54] == pin
  }

  lemma ConfirmPin(derive: Derive, d: Device, a: Act)
    requires UiOk(d.ui) && d.sys == SetupState && d.ui.screen == SetupPin && I.Coherent(d.ident)
    requires a.Pass? && a.evt == OkLong
    ensures Confirmed(Apply(derive, d, a), derive(d.ui.pin[..4]), d.ui.pin[..4])
  {
    var pin := d.ui.pin[..4];
    HandledOk(d.ui, OkLong);
    assert I.FourOf(pin) == pin;
    I.ProvisionedFields(d.ident.cells, I.CleanId(a.random), derive(pin), pin);
    I.StepCoherent(d.ident, I.Op.Provision(pin, a.random, derive(pin)));
    var e := Pressed(derive, d, OkLong, a.random);
    MarkedIsProvisioned(e.ident.cells);
    assert Apply(derive, d, a) == e;
  }

  lemma StillConfirmed(derive: Derive, d: Device, key: Key, pin: seq<byte>, a: Act)
    requires Confirmed(d, key, pin) && !a.PowerCycle? && (a.Pass? ==> a.evt !in {OkShort, OkLong, Panic})
    ensures Confirmed(Apply(derive, d, a), key, pin)
  {
    ApplyUiOk(derive, d, a);
  }

  lemma {:induction false} WaitsConfirmed(derive: Derive, d: Device, key: Key, pin: seq<byte>, acts: seq<Act>)
    requires Confirmed(d, key, pin) && Waits(acts)
    ensures Confirmed(Run(derive, d, acts), key, pin)
  {
    if acts != [] {
      var r := acts[..|acts| - 1];
      assert acts[|acts| - 1] in acts;
      WaitsConfirmed(derive, d, key, pin, r);
      StillConfirmed(derive, Run(derive, d, r), key, pin, acts[|acts| - 1]);
    }
  }

  lemma LeavesSetup(derive: Derive, d: Device, key: Key, pin: seq<byte>, a: Act)
    requires Confirmed(d, key, pin) && a.Pass? && a.evt in {OkShort, OkLong}
    ensures var e := Apply(derive, d, a); Serving(e, d.ident.cells, key) && e.ui.screen == Inbox
  {
    MarkedIsProvisioned(d.ident.cells);
    HandledOk(d.ui, a.evt);
  }

  /** Confirming the PIN and then, however much later, one press on the identifier screen put the device to use. */
  lemma SetUpEnds(derive: Derive, d: Device, confirm: Act, wait: seq<Act>, leave: Act)
    requires UiOk(d.ui) && d.sys == SetupState && d.ui.screen == SetupPin && I.Coherent(d.ident) && Waits(wait)
    requires confirm.Pass? && confirm.evt == OkLong && leave.Pass? && leave.evt in {OkShort, OkLong}
    ensures var e := Run(derive, d, [confirm] + wait + [leave]); var pin := d.ui.pin[..4];
            && Serving(e, e.ident.cells, derive(pin)) && e.ui.screen == Inbox
            && Marked(e.ident.cells) && e.ident.cells[8..40] == derive(pin) && e.ident.cells[50..54] == pin
  {
    var none: seq<Act> := [];
    var pin, x := d.ui.pin[..4], [confirm] + wait;
    assert [confirm][..0] == none && (x + [leave])[..|x|] == x;
    assert Run(derive, d, none) == d;
    ConfirmPin(derive, d, confirm);
    RunConcat(derive, d, [confirm], wait);
    WaitsConfirmed(derive, Run(derive, d, [confirm]), derive(pin), pin, wait);
    LeavesSetup(derive, Run(derive, d, x), derive(pin), pin, leave);
  }

  /** The welcome screen of an unprovisioned device leads to the PIN screen, all digits 0. */
  lemma BeginsTyping(derive: Derive, d: Device, a: Act)
    requires Sound(derive, d) && d.sys == SetupState && d.ui.screen == SetupWelcome && a.Pass? && a.evt == OkShort
    ensures SettingUp(Apply(derive, d, a), DIAL_INIT) && I.Coherent(Apply(derive, d, a).ident)
  {
    HandledOk(d.ui, OkShort);
  }

  /**
   * Set-up from beginning to end: from the welcome screen, a press, any presses that set the digits, the long press
   * that confirms them and a press on the identifier screen bring the device into use, at the inbox, with the key
   * derived from exactly the digits dialled.
   */
  lemma SetUpByButtons(
      derive: Derive, d: Device, begin: Act, typing: seq<Act>, evts: seq<BtnEvent>, confirm: Act, wait: seq<Act>,
      leave: Act)
    returns (pin: seq<byte>)
    requires Sound(derive, d) && d.sys == SetupState && d.ui.screen == SetupWelcome
    requires begin.Pass? && begin.evt == OkShort && Presses(typing, evts) && OkLong !in evts && Panic !in evts
    requires confirm.Pass? && confirm.evt == OkLong && Waits(wait) && leave.Pass? && leave.evt in {OkShort, OkLong}
    ensures Spells(pin, Dialled(evts).digits) && |pin| == 4
    ensures var e := Run(derive, d, [begin] + typing + ([confirm] + wait + [leave]));
            && Serving(e, e.ident.cells, derive(pin)) && e.ui.screen == Inbox
            && Marked(e.ident.cells) && e.ident.cells[8..40] == derive(pin) && e.ident.cells[50..54] == pin
  {
    var none: seq<Act> := [];
    assert [begin][..0] == none && Run(derive, d, none) == d;
    BeginsTyping(derive, d, begin);
    var f := Run(derive, d, [begin]);
    RunConcat(derive, d, [begin], typing);
    TypesPin(derive, f, typing, evts);
    TypingCoherent(derive, f, typing, evts);
    var g := Run(derive, d, [begin] + typing);
    pin := g.ui.pin[..4];
    SetUpEnds(derive, g, confirm, wait, leave);
    RunConcat(derive, d, [begin] + typing, [confirm] + wait + [leave]);
  }

  lemma {:induction false} TypingCoherent(derive: Derive, d: Device, acts: seq<Act>, evts: seq<BtnEvent>)
    requires SettingUp(d, DIAL_INIT) && Presses(acts, evts) && OkLong !in evts && Panic !in evts
    requires I.Coherent(d.ident)
    ensures I.Coherent(Run(derive, d, acts).ident)
  {
    if acts != [] {
      var r, e := acts[..|acts| - 1], evts[..|evts| - 1];
      TypingCoherent(derive, d, r, e);
      TypesPin(derive, d, r, e);
      assert evts[|evts| - 1] in evts;
    }
  }
}
