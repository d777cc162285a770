/**
 * The device's life as a state machine (firmware/src/state_machine.cpp, firmware/src/main.cpp): boot, set-up,
 * idle and panic over the identity and the user interface, across any inputs, panics and power cycles.
 */
module DeviceLife {
  import opened Words
  import opened TextMessages
  import opened Identity
  import opened Ui

  const SPLASH_MS := 1500
  const SEND_MS := 5000

  datatype Sys =
    | BootState | SetupState | PinEntryState | IdleState | ReceivingState | SendingState | TestState | ErrorState

  /** Identity, interface, machine state and its start time, and the key in the machine's own memory. */
  datatype Device = Device(ident: Ident, ui: UiState, sys: Sys, since: u32, key: Key)

  /** Key derivation from a PIN. */
  type Derive = seq<byte> -> Key

  /** After setup() over the given EEPROM. A radio that fails to start leads to the error screen. */
  function Powered(c: Cells, now: u32, radioOk: bool): Device
  {
    if radioOk then Device(Booted(c), UI_INIT, BootState, now, NO_KEY)
    else Device(Booted(c), UI_INIT.(screen := ErrorView), ErrorState, now, NO_KEY)
  }

  function Wiped(d: Device, now: u32): Device
  {
    Device(WIPED, d.ui.(screen := SetupWelcome), SetupState, now, NO_KEY)
  }

  /** The device enters normal use with the stored key. */
  function KeyLoaded(d: Device, now: u32): Device
  {
    var v := WithKeyLoaded(d.ident);
    d.(ident := v, key := v.key, sys := IdleState, since := now)
  }

  function Over(now: u32, since: u32, ms: nat): bool { (now - since) % U32_RANGE > ms }

  /** Whether messaging asked for the device identifier, which caches it. */
  function Asked(d: Device, asked: bool): Device { if asked then d.(ident := WithIdLoaded(d.ident)) else d }

  /** The machine's tick as far as identity, key and screens go. */
  function Ticked(d: Device, now: u32, asked: bool): Device
  {
    match d.sys
    case BootState =>
      var e := d.(ui := d.ui.(screen := Splash));
      if !Over(now, d.since, SPLASH_MS) then e
      else if Provisioned(d.ident.cells) then
        var k := KeyLoaded(e, now);
        k.(ui := k.ui.(screen := Inbox))
      else e.(sys := SetupState, since := now, ui := e.ui.(screen := SetupWelcome))
    case SetupState => if Provisioned(d.ident.cells) && d.ui.screen == Inbox then KeyLoaded(d, now) else d
    case IdleState => Asked(if d.ui.screen == SendingView then d.(ui := d.ui.(screen := Inbox)) else d, asked)
    case SendingState =>
      var e := Asked(d, asked);
      if Over(now, d.since, SEND_MS) then e.(sys := IdleState, since := now) else e
    case ReceivingState => Asked(d, asked).(sys := IdleState, since := now)
    case TestState => Asked(d, asked)
    case ErrorState => if d.ui.screen != ErrorView then d.(sys := IdleState, since := now) else d
    case PinEntryState => d
  }

  function Pressed(derive: Derive, d: Device, evt: BtnEvent, random: u32): Device
    requires UiOk(d.ui)
  {
    var v :=
      if Provisions(d.ui, evt) then ProvisionedIdent(d.ident, random, derive(d.ui.pin[..4]), d.ui.pin[..4])
        else d.ident;
    d.(ident := v, ui := Handled(d.ui, evt))
  }

  /** One pass of the main loop: panic, then input, then the machine's tick. */
  function Looped(derive: Derive, d: Device, evt: BtnEvent, now: u32, random: u32, asked: bool): Device
    requires UiOk(d.ui)
  {
    if evt == Panic then Ticked(Wiped(d, now), now, asked)
    else if evt == NoEvent then Ticked(d, now, asked)
    else Ticked(Pressed(derive, d, evt, random), now, asked)
  }

  /**
   * Drawing refreshes the lists of the inbox and of a conversation; showing the identifier or the PIN loads its cache.
   */
  function Drawn(d: Device, peerCount: nat, peerList: PeerList, convCount: nat): Device
  {
    match d.ui.screen
    case Inbox =>
      var shown := if peerCount <= MAX_PEERS then peerCount else MAX_PEERS;
      d.(ui := d.ui.(peerCount := shown, peerList := peerList))
    case ConversationView => d.(ui := d.ui.(convCount := convCount))
    case DeviceInfo => Asked(d, true)
    case Network => Asked(d, true)
    case Settings => d.(ident := WithPinLoaded(d.ident))
    case _ => d
  }

  datatype Act =
    | Pass(evt: BtnEvent, now: u32, random: u32, asked: bool)
    | Draw(peerCount: nat, peerList: PeerList, convCount: nat)
    | PowerCycle(now: u32, radioOk: bool)

  function Apply(derive: Derive, d: Device, a: Act): Device
    requires UiOk(d.ui)
  {
    match a
    case Pass(evt, now, random, asked) => Looped(derive, d, evt, now, random, asked)
    case Draw(n, list, conv) => Drawn(d, n, list, conv)
    case PowerCycle(now, radioOk) => Powered(d.ident.cells, now, radioOk)
  }

  lemma TickedUiOk(d: Device, now: u32, asked: bool)
    requires UiOk(d.ui)
    ensures UiOk(Ticked(d, now, asked).ui)
  {
    assert forall s: Screen :: UiOk(d.ui.(screen := s));
  }

  lemma ApplyUiOk(derive: Derive, d: Device, a: Act)
    requires UiOk(d.ui)
    ensures UiOk(Apply(derive, d, a).ui)
  {
    match a
    case Pass(evt, now, random, asked) =>
      HandledOk(d.ui, evt);
      var e := if evt == Panic then Wiped(d, now) else if evt == NoEvent then d else Pressed(derive, d, evt, random);
      TickedUiOk(e, now, asked);
    case Draw(n, list, conv) => DrawnUiOk(d, n, list, conv);
    case PowerCycle(_, _) =>
  }

  lemma DrawnUiOk(d: Device, peerCount: nat, peerList: PeerList, convCount: nat)
    requires UiOk(d.ui)
    ensures UiOk(Drawn(d, peerCount, peerList, convCount).ui)
  {
  }

  function Run(derive: Derive, d: Device, acts: seq<Act>): (r: Device)
    requires UiOk(d.ui)
    ensures UiOk(r.ui)
  {
    if acts == [] then d
    else
      var e := Run(derive, d, acts[..|acts| - 1]);
      ApplyUiOk(derive, e, acts[|acts| - 1]);
      Apply(derive, e, acts[|acts| - 1])
  }

  // ---------- The whole-run invariant ----------

  predicate IsPin(pin: seq<byte>) { |pin| == 4 && forall i | 0 <= i < 4 :: DIGIT_0 <= pin[i] <= DIGIT_9 }

  /** If the EEPROM says provisioned, its key is the one derived from its four-digit PIN. */
  ghost predicate Genuine(derive: Derive, c: Cells)
  {
    Provisioned(c) ==> IsPin(StoredPin(c)) && StoredKey(c) == derive(StoredPin(c))
  }

  ghost predicate Sound(derive: Derive, d: Device)
  {
    && UiOk(d.ui) && Coherent(d.ident) && Genuine(derive, d.ident.cells)
    && (match d.sys
        case BootState => d.ui.screen == Splash
        case SetupState =>
          if Provisioned(d.ident.cells) then d.ui.screen == DeviceInfo else d.ui.screen in {SetupWelcome, SetupPin}
        case IdleState => Provisioned(d.ident.cells) && InUse(d.ui.screen) && d.ident.loaded && d.key == d.ident.key
        case _ => false)
  }

  lemma WipedFacts()
    ensures !Provisioned(WIPED.cells) && Coherent(WIPED)
  {
    assert WIPED.cells[0..4] == [0xFF, 0xFF, 0xFF, 0xFF];
  }

  /** The same inside a pass of the loop, after input and before the tick. */
  ghost predicate Midway(derive: Derive, d: Device)
  {
    && UiOk(d.ui) && Coherent(d.ident) && Genuine(derive, d.ident.cells)
    && (match d.sys
        case BootState => d.ui.screen == Splash
        case SetupState =>
          d.ui.screen in if Provisioned(d.ident.cells) then {DeviceInfo, Inbox} else {SetupWelcome, SetupPin}
        case IdleState =>
          && Provisioned(d.ident.cells) && d.ident.loaded && d.key == d.ident.key
          && (InUse(d.ui.screen) || d.ui.screen == SendingView)
        case _ => false)
  }

  lemma ProvisioningGenuine(derive: Derive, v: Ident, random: u32, pin: seq<byte>)
    requires Coherent(v) && IsPin(pin)
    ensures var w := ProvisionedIdent(v, random, derive(pin), pin);
            Coherent(w) && Provisioned(w.cells) && Genuine(derive, w.cells)
  {
    assert FourOf(pin) == pin;
    ProvisionedFields(v.cells, CleanId(random), derive(pin), pin);
    StepCoherent(v, Identity.Op.Provision(pin, random, derive(pin)));
  }

  lemma PressedMidway(derive: Derive, d: Device, evt: BtnEvent, random: u32)
    requires Sound(derive, d)
    ensures Midway(derive, Pressed(derive, d, evt, random))
    ensures d.sys == IdleState ==> Pressed(derive, d, evt, random).ident == d.ident
  {
    HandledOk(d.ui, evt);
    if d.sys == IdleState {
      UseStaysInUse(d.ui, evt);
    } else if Provisions(d.ui, evt) {
      ProvisioningGenuine(derive, d.ident, random, d.ui.pin[..4]);
      assert Handled(d.ui, evt).screen == DeviceInfo;
    } else {
      SetupScreens(d.ui, evt);
    }
  }

  /** Where input leads before the device is in use. */
  lemma SetupScreens(u: UiState, evt: BtnEvent)
    requires UiOk(u) && !Provisions(u, evt)
    ensures u.screen == Splash ==> Handled(u, evt) == u
    ensures u.screen in {SetupWelcome, SetupPin} ==> Handled(u, evt).screen in {SetupWelcome, SetupPin}
    ensures u.screen == DeviceInfo ==> Handled(u, evt).screen in {DeviceInfo, Inbox}
  {
  }

  lemma TickedSound(derive: Derive, d: Device, now: u32, asked: bool)
    requires Midway(derive, d)
    ensures Sound(derive, Ticked(d, now, asked))
  {
    TickedUiOk(d, now, asked);
  }

  /**
   * What a radio that failed at power-up leads to, until the next power-up or panic: the error screen, and from it
   * idle without a key.
   */
  ghost predicate Keyless(derive: Derive, d: Device)
  {
    && UiOk(d.ui) && Coherent(d.ident) && Genuine(derive, d.ident.cells) && !d.ident.loaded && d.key == NO_KEY
    && ((d.sys == ErrorState && d.ui.screen == ErrorView) || (d.sys == IdleState && InUse(d.ui.screen)))
  }

  /** Whether the device has its order after an action, given whether it had it before. */
  predicate Orderly(before: bool, a: Act)
  {
    match a
    case Pass(evt, _, _, _) => before || evt == Panic
    case Draw(_, _, _) => before
    case PowerCycle(_, radioOk) => radioOk
  }

  /** The radio started at the last power-up, or there was a panic since. */
  predicate Healthy(radioOk: bool, acts: seq<Act>)
  {
    if acts == [] then radioOk else Orderly(Healthy(radioOk, acts[..|acts| - 1]), acts[|acts| - 1])
  }

  ghost predicate InOrder(derive: Derive, d: Device, healthy: bool)
  {
    if healthy then Sound(derive, d) else Keyless(derive, d)
  }

  /** Every pass of the loop, every redraw and every power cycle, also with a failing radio, keeps the invariant. */
  lemma ApplySound(derive: Derive, d: Device, a: Act, healthy: bool)
    requires InOrder(derive, d, healthy)
    ensures InOrder(derive, Apply(derive, d, a), Orderly(healthy, a))
  {
    match a
    case Pass(evt, now, random, asked) =>
      if evt == Panic {
        PanicSound(derive, d, now, random, asked);
      } else if healthy {
        PassSound(derive, d, evt, now, random, asked);
      } else {
        PassKeyless(derive, d, evt, now, random, asked);
      }
    case Draw(n, list, conv) =>
      if healthy {
        DrawnSound(derive, d, n, list, conv);
      } else {
        DrawnKeyless(derive, d, n, list, conv);
      }
    case PowerCycle(now, radioOk) => PoweredSound(derive, d, now, radioOk);
  }

  lemma PanicSound(derive: Derive, d: Device, now: u32, random: u32, asked: bool)
    requires UiOk(d.ui)
    ensures Sound(derive, Looped(derive, d, Panic, now, random, asked))
  {
    WipedFacts();
    assert UiOk(d.ui.(screen := SetupWelcome));
    TickedSound(derive, Wiped(d, now), now, asked);
  }

  lemma PassSound(derive: Derive, d: Device, evt: BtnEvent, now: u32, random: u32, asked: bool)
    requires Sound(derive, d) && evt != Panic
    ensures Sound(derive, Looped(derive, d, evt, now, random, asked))
  {
    if evt == NoEvent {
      TickedSound(derive, d, now, asked);
    } else {
      PressedMidway(derive, d, evt, random);
      TickedSound(derive, Pressed(derive, d, evt, random), now, asked);
    }
  }

  lemma PoweredSound(derive: Derive, d: Device, now: u32, radioOk: bool)
    requires Genuine(derive, d.ident.cells)
    ensures InOrder(derive, Powered(d.ident.cells, now, radioOk), radioOk)
  {
  }

  /** The same inside a pass, after input. */
  ghost predicate KeylessMidway(derive: Derive, d: Device)
  {
    && UiOk(d.ui) && Coherent(d.ident) && Genuine(derive, d.ident.cells) && !d.ident.loaded && d.key == NO_KEY
    && (|| (d.sys == ErrorState && d.ui.screen in {ErrorView, Inbox})
        || (d.sys == IdleState && (InUse(d.ui.screen) || d.ui.screen == SendingView)))
  }

  lemma PressedKeyless(derive: Derive, d: Device, evt: BtnEvent, random: u32)
    requires Keyless(derive, d)
    ensures KeylessMidway(derive, Pressed(derive, d, evt, random)) && Pressed(derive, d, evt, random).ident == d.ident
  {
    HandledOk(d.ui, evt);
    if d.sys == IdleState {
      UseStaysInUse(d.ui, evt);
    }
  }

  lemma TickedKeyless(derive: Derive, d: Device, now: u32, asked: bool)
    requires KeylessMidway(derive, d)
    ensures Keyless(derive, Ticked(d, now, asked)) && Ticked(d, now, asked).ident.cells == d.ident.cells
    ensures Ticked(d, now, asked).sys == if d.ui.screen == ErrorView then ErrorState else IdleState
  {
    TickedUiOk(d, now, asked);
  }

  lemma PassKeyless(derive: Derive, d: Device, evt: BtnEvent, now: u32, random: u32, asked: bool)
    requires Keyless(derive, d) && evt != Panic
    ensures Keyless(derive, Looped(derive, d, evt, now, random, asked))
    ensures Looped(derive, d, evt, now, random, asked).ident.cells == d.ident.cells
  {
    if evt == NoEvent {
      TickedKeyless(derive, d, now, asked);
    } else {
      PressedKeyless(derive, d, evt, random);
      TickedKeyless(derive, Pressed(derive, d, evt, random), now, asked);
    }
  }

  lemma DrawnKeyless(derive: Derive, d: Device, peerCount: nat, peerList: PeerList, convCount: nat)
    requires Keyless(derive, d)
    ensures Keyless(derive, Drawn(d, peerCount, peerList, convCount))
  {
    DrawnUiOk(d, peerCount, peerList, convCount);
  }

  lemma DrawnSound(derive: Derive, d: Device, peerCount: nat, peerList: PeerList, convCount: nat)
    requires Sound(derive, d)
    ensures Sound(derive, Drawn(d, peerCount, peerList, convCount))
  {
    DrawnUiOk(d, peerCount, peerList, convCount);
  }

  /**
   * From an EEPROM that is unprovisioned or genuinely provisioned, at every loop boundary of every run, with any
   * number of power-ups whose radio starts or fails: if the radio started at the last power-up or there was a panic
   * since, idle implies provisioned and the machine's key equals the cached key, the EEPROM key and the key derived
   * from a four-digit PIN; set-up is either unprovisioned on the welcome or PIN screen, or provisioned on the
   * identifier screen; no other state than boot, set-up and idle occurs. Otherwise the device shows the error or is
   * idle without a key.
   */
  lemma {:induction false} WholeRun(derive: Derive, c: Cells, now: u32, radioOk: bool, acts: seq<Act>)
    requires Genuine(derive, c)
    ensures InOrder(derive, Run(derive, Powered(c, now, radioOk), acts), Healthy(radioOk, acts))
  {
    if acts != [] {
      var r := acts[..|acts| - 1];
      WholeRun(derive, c, now, radioOk, r);
      ApplySound(derive, Run(derive, Powered(c, now, radioOk), r), acts[|acts| - 1], Healthy(radioOk, r));
    }
  }

  /** In idle all four keys agree, exactly when the run is healthy; otherwise no key was loaded and it is zero. */
  lemma IdleKeys(derive: Derive, c: Cells, now: u32, radioOk: bool, acts: seq<Act>)
    requires Genuine(derive, c) && Run(derive, Powered(c, now, radioOk), acts).sys == IdleState
    ensures var d := Run(derive, Powered(c, now, radioOk), acts); var pin := StoredPin(d.ident.cells);
            if Healthy(radioOk, acts) then
              && d.ident.loaded && Provisioned(d.ident.cells) && IsPin(pin)
              && d.key == d.ident.key == StoredKey(d.ident.cells) == derive(pin)
            else !d.ident.loaded && d.key == NO_KEY
  {
    WholeRun(derive, c, now, radioOk, acts);
  }

  // ---------- Panic ----------

  /** Nothing is left of the old identity in the EEPROM, its caches and the machine's key; the device is not in use. */
  ghost predicate Blank(d: Device)
  {
    && UiOk(d.ui) && d.ident.cells == WIPED.cells && d.ident.key == NO_KEY && d.key == NO_KEY && d.ident.pin == NO_PIN
    && !d.ident.loaded && (d.sys == BootState || (d.sys == SetupState && d.ui.screen in {SetupWelcome, SetupPin}))
    && (d.sys == BootState ==> d.ui.screen == Splash)
  }

  /** No PIN is confirmed in the run. */
  predicate Unconfirmed(derive: Derive, d: Device, acts: seq<Act>)
    requires UiOk(d.ui)
  {
    acts == [] ||
    var r, a := acts[..|acts| - 1], acts[|acts| - 1];
    Unconfirmed(derive, d, r) && !(a.Pass? && Provisions(Run(derive, d, r).ui, a.evt))
  }

  /**
   * Nothing is left of the old identity, whatever state the device is in: showing the PIN of an erased device loads
   * erased bytes into its cache.
   */
  ghost predicate Erased(d: Device)
  {
    && UiOk(d.ui) && d.ident.cells == WIPED.cells && d.ident.key == NO_KEY && d.key == NO_KEY && !d.ident.loaded
    && d.ident.pin in {NO_PIN, StoredPin(WIPED.cells) + [0]}
  }

  /** The error screen or idle, reached by a power-up with a failing radio. */
  ghost predicate ErasedIdle(d: Device)
  {
    Erased(d) && ((d.sys == ErrorState && d.ui.screen == ErrorView) || (d.sys == IdleState && InUse(d.ui.screen)))
  }

  ghost predicate After(d: Device, healthy: bool) { if healthy then Blank(d) else ErasedIdle(d) }

  lemma {:induction false} ErasedRun(derive: Derive, p: Device, acts: seq<Act>)
    requires Blank(p) && Unconfirmed(derive, p, acts)
    ensures After(Run(derive, p, acts), Healthy(true, acts))
  {
    if acts != [] {
      var r := acts[..|acts| - 1];
      ErasedRun(derive, p, r);
      ErasedStays(derive, Run(derive, p, r), acts[|acts| - 1], Healthy(true, r));
    }
  }

  lemma ErasedStays(derive: Derive, d: Device, a: Act, healthy: bool)
    requires After(d, healthy) && !(a.Pass? && Provisions(d.ui, a.evt))
    ensures After(Apply(derive, d, a), Orderly(healthy, a))
  {
    match a
    case Pass(evt, now, random, asked) =>
      if evt == Panic {
        PanicBlank(derive, d, now, random, asked);
      } else if healthy {
        BlankStays(derive, d, a);
      } else {
        PassErased(derive, d, evt, now, random, asked);
      }
    case Draw(n, list, conv) =>
      if healthy {
        BlankStays(derive, d, a);
      } else {
        DrawnErased(d, n, list, conv);
      }
    case PowerCycle(_, _) =>
  }

  lemma DrawnErased(d: Device, peerCount: nat, peerList: PeerList, convCount: nat)
    requires ErasedIdle(d)
    ensures ErasedIdle(Drawn(d, peerCount, peerList, convCount))
  {
    DrawnUiOk(d, peerCount, peerList, convCount);
    DrawnIdent(d, peerCount, peerList, convCount);
  }

  /** A redraw changes nothing of the identity but the caches it loads. */
  lemma DrawnIdent(d: Device, peerCount: nat, peerList: PeerList, convCount: nat)
    ensures var v, w := d.ident, Drawn(d, peerCount, peerList, convCount).ident;
            && w.cells == v.cells && w.key == v.key && w.loaded == v.loaded
            && w.pin in {v.pin, StoredPin(v.cells) + [0]}
  {
  }

  lemma PassErased(derive: Derive, d: Device, evt: BtnEvent, now: u32, random: u32, asked: bool)
    requires ErasedIdle(d) && evt != Panic && !Provisions(d.ui, evt)
    ensures ErasedIdle(Looped(derive, d, evt, now, random, asked))
  {
    if evt == NoEvent {
      TickedErased(d, now, asked);
    } else {
      HandledOk(d.ui, evt);
      if d.sys == IdleState {
        UseStaysInUse(d.ui, evt);
      }
      TickedErased(Pressed(derive, d, evt, random), now, asked);
    }
  }

  lemma TickedErased(d: Device, now: u32, asked: bool)
    requires Erased(d)
    requires || (d.sys == ErrorState && d.ui.screen in {ErrorView, Inbox})
             || (d.sys == IdleState && (InUse(d.ui.screen) || d.ui.screen == SendingView))
    ensures ErasedIdle(Ticked(d, now, asked))
  {
    TickedUiOk(d, now, asked);
  }

  /**
   * A panic erases every EEPROM byte and zeroes both keys and the cached PIN, and until a PIN is confirmed nothing of
   * the old identity comes back. The device stays blank and out of use if and only if the radio started at the last
   * power-up since the panic, if there was one, or there was another panic after it.
   */
  lemma PanicIsFinal(derive: Derive, d: Device, now: u32, random: u32, asked: bool, acts: seq<Act>)
    requires UiOk(d.ui)
    requires var p := Looped(derive, d, Panic, now, random, asked); UiOk(p.ui) && Unconfirmed(derive, p, acts)
    ensures var e := Run(derive, Looped(derive, d, Panic, now, random, asked), acts);
            && Erased(e) && (Blank(e) <==> Healthy(true, acts)) && (e.sys == IdleState ==> !Healthy(true, acts))
  {
    PanicBlank(derive, d, now, random, asked);
    ErasedRun(derive, Looped(derive, d, Panic, now, random, asked), acts);
  }

  /** The other case occurs: switch on with a failing radio and press once, and the erased device is in use. */
  lemma FailingRadioAfterPanic(derive: Derive, p: Device, t: u32, random: u32)
    requires Blank(p)
    ensures var acts := [PowerCycle(t, false), Pass(OkShort, t, random, false)];
            && Unconfirmed(derive, p, acts) && !Healthy(true, acts)
            && var e := Run(derive, p, acts);
               e.sys == IdleState && e.ui.screen == Inbox && !Provisioned(e.ident.cells) && e.key == NO_KEY
  {
    var acts, one := [PowerCycle(t, false), Pass(OkShort, t, random, false)], [PowerCycle(t, false)];
    WipedFacts();
    assert acts[..1] == one && one[..0] == [];
    assert Run(derive, p, one) == Powered(p.ident.cells, t, false);
    PressAfterFailure(derive, p.ident.cells, t, random);
  }

  lemma PressAfterFailure(derive: Derive, c: Cells, t: u32, random: u32)
    ensures var e := Looped(derive, Powered(c, t, false), OkShort, t, random, false);
            e.sys == IdleState && e.ui.screen == Inbox && e.ident.cells == c && e.key == NO_KEY
  {
    assert Handled(Powered(c, t, false).ui, OkShort).screen == Inbox;
  }

  lemma PanicBlank(derive: Derive, d: Device, now: u32, random: u32, asked: bool)
    requires UiOk(d.ui)
    ensures Blank(Looped(derive, d, Panic, now, random, asked))
  {
    WipedFacts();
    assert UiOk(d.ui.(screen := SetupWelcome));
  }

  lemma BlankStays(derive: Derive, d: Device, a: Act)
    requires Blank(d) && !(a.Pass? && Provisions(d.ui, a.evt)) && Orderly(true, a)
    ensures Blank(Apply(derive, d, a))
  {
    match a
    case Pass(evt, now, random, asked) =>
      if evt == Panic {
        PanicBlank(derive, d, now, random, asked);
      } else {
        PassBlank(derive, d, evt, now, random, asked);
      }
    case Draw(n, list, conv) => DrawnUiOk(d, n, list, conv);
    case PowerCycle(_, _) =>
  }

  lemma PassBlank(derive: Derive, d: Device, evt: BtnEvent, now: u32, random: u32, asked: bool)
    requires Blank(d) && evt != Panic && !Provisions(d.ui, evt)
    ensures Blank(Looped(derive, d, evt, now, random, asked))
  {
    if evt == NoEvent {
      TickedBlank(d, now, asked);
    } else {
      HandledOk(d.ui, evt);
      SetupScreens(d.ui, evt);
      TickedBlank(Pressed(derive, d, evt, random), now, asked);
    }
  }

  lemma TickedBlank(d: Device, now: u32, asked: bool)
    requires Blank(d)
    ensures Blank(Ticked(d, now, asked))
  {
    WipedFacts();
    TickedUiOk(d, now, asked);
  }

  // ---------- What a panic leaves behind ----------

  /** A panic clears nothing of the interface: the typed PIN and the composed text stay in their buffers. */
  lemma PanicKeepsUi(derive: Derive, d: Device, now: u32, random: u32, asked: bool)
    requires UiOk(d.ui)
    ensures Looped(derive, d, Panic, now, random, asked).ui == d.ui.(screen := SetupWelcome)
  {
    WipedFacts();
  }

  /**
   * Confirm a PIN, then panic: the device is blank, yet the buffer holds the erased PIN and so gives the erased key.
   */
  lemma PinLeftByPanic(derive: Derive, d: Device, now: u32, random: u32, asked: bool)
    requires UiOk(d.ui) && d.sys == SetupState && d.ui.screen == SetupPin
    ensures var e := Looped(derive, d, OkLong, now, random, asked);
            && UiOk(e.ui)
            && var p := Looped(derive, e, Panic, now, random, asked);
               && Blank(p) && p.ui.pin[..4] == StoredPin(e.ident.cells)
               && derive(p.ui.pin[..4]) == StoredKey(e.ident.cells)
  {
    var e := Looped(derive, d, OkLong, now, random, asked);
    Confirmed(derive, d, now, random, asked);
    PanicBlank(derive, e, now, random, asked);
    PanicKeepsUi(derive, e, now, random, asked);
  }

  /** Confirming stores the PIN and its key, and leaves the digits in the buffer. */
  lemma Confirmed(derive: Derive, d: Device, now: u32, random: u32, asked: bool)
    requires UiOk(d.ui) && d.sys == SetupState && d.ui.screen == SetupPin
    ensures var e := Looped(derive, d, OkLong, now, random, asked);
            UiOk(e.ui) && e.ui.pin[..4] == StoredPin(e.ident.cells) && StoredKey(e.ident.cells) == derive(e.ui.pin[..4])
  {
    HandledOk(d.ui, OkLong);
    var pin, f := d.ui.pin[..4], Pressed(derive, d, OkLong, random);
    assert FourOf(pin) == pin;
    ProvisionedFields(d.ident.cells, CleanId(random), derive(pin), pin);
    assert f.ui.pin[..4] == pin;
    TickedUiOk(f, now, asked);
    PinKept(f, now, asked);
  }

  /** A PIN was confirmed since the last power-up and panic. */
  predicate Typed(derive: Derive, d: Device, acts: seq<Act>)
    requires UiOk(d.ui)
  {
    acts != [] &&
    var r := acts[..|acts| - 1];
    match acts[|acts| - 1]
    case Pass(evt, _, _, _) => evt != Panic && (Provisions(Run(derive, d, r).ui, evt) || Typed(derive, d, r))
    case Draw(_, _, _) => Typed(derive, d, r)
    case PowerCycle(_, _) => false
  }

  const ZEROS: seq<byte> := ZERO_PINS[..4]

  /** The PIN buffer of a provisioned device. */
  ghost predicate Buffered(d: Device, typed: bool)
  {
    Provisioned(d.ident.cells) ==> d.ui.pin[..4] == if typed then StoredPin(d.ident.cells) else ZEROS
  }

  lemma BufferedStep(derive: Derive, d: Device, a: Act, healthy: bool, typed: bool)
    requires InOrder(derive, d, healthy) && Buffered(d, typed)
    ensures var confirms := a.Pass? && a.evt != Panic && Provisions(d.ui, a.evt);
            Buffered(Apply(derive, d, a), confirms || (typed && !a.PowerCycle? && !(a.Pass? && a.evt == Panic)))
  {
    match a
    case Pass(evt, now, random, asked) =>
      if evt == Panic {
        WipedFacts();
        PinKept(Wiped(d, now), now, asked);
      } else {
        PassBuffered(derive, d, evt, now, random, asked, healthy, typed);
      }
    case _ =>
  }

  lemma PassBuffered(
      derive: Derive, d: Device, evt: BtnEvent, now: u32, random: u32, asked: bool, healthy: bool, typed: bool)
    requires InOrder(derive, d, healthy) && Buffered(d, typed) && evt != Panic
    ensures Buffered(Looped(derive, d, evt, now, random, asked), Provisions(d.ui, evt) || typed)
  {
    if evt == NoEvent {
      PinKept(d, now, asked);
    } else {
      PressedBuffered(derive, d, evt, random, healthy, typed);
      PinKept(Pressed(derive, d, evt, random), now, asked);
    }
  }

  /** The machine's tick changes neither the PIN buffer nor the EEPROM. */
  lemma PinKept(d: Device, now: u32, asked: bool)
    ensures Ticked(d, now, asked).ui.pin == d.ui.pin && Ticked(d, now, asked).ident.cells == d.ident.cells
  {
  }

  lemma PressedBuffered(derive: Derive, d: Device, evt: BtnEvent, random: u32, healthy: bool, typed: bool)
    requires InOrder(derive, d, healthy) && Buffered(d, typed)
    ensures Buffered(Pressed(derive, d, evt, random), Provisions(d.ui, evt) || typed)
  {
    if Provisions(d.ui, evt) {
      ConfirmedBuffered(derive, d, evt, random);
    } else {
      UsedKeepsPin(derive, d, evt, healthy);
    }
  }

  lemma ConfirmedBuffered(derive: Derive, d: Device, evt: BtnEvent, random: u32)
    requires UiOk(d.ui) && Provisions(d.ui, evt)
    ensures Buffered(Pressed(derive, d, evt, random), true)
  {
    var pin := d.ui.pin[..4];
    assert FourOf(pin) == pin;
    ProvisionedFields(d.ident.cells, CleanId(random), derive(pin), pin);
    assert Handled(d.ui, evt).pin[..4] == pin;
  }

  /** A provisioned device in order has no screen on which a button changes the PIN buffer. */
  lemma UsedKeepsPin(derive: Derive, d: Device, evt: BtnEvent, healthy: bool)
    requires InOrder(derive, d, healthy)
    ensures Provisioned(d.ident.cells) ==> Handled(d.ui, evt).pin == d.ui.pin
  {
  }

  lemma {:induction false} TypedPin(derive: Derive, c: Cells, now: u32, radioOk: bool, acts: seq<Act>)
    requires Genuine(derive, c)
    ensures Buffered(Run(derive, Powered(c, now, radioOk), acts), Typed(derive, Powered(c, now, radioOk), acts))
  {
    if acts != [] {
      var r := acts[..|acts| - 1];
      TypedPin(derive, c, now, radioOk, r);
      WholeRun(derive, c, now, radioOk, r);
      TypedNext(derive, Powered(c, now, radioOk), acts, Healthy(radioOk, r));
    }
  }

  lemma TypedNext(derive: Derive, p: Device, acts: seq<Act>, healthy: bool)
    requires UiOk(p.ui) && acts != []
    requires var r := acts[..|acts| - 1];
             InOrder(derive, Run(derive, p, r), healthy) && Buffered(Run(derive, p, r), Typed(derive, p, r))
    ensures Buffered(Run(derive, p, acts), Typed(derive, p, acts))
  {
    var r := acts[..|acts| - 1];
    BufferedStep(derive, Run(derive, p, r), acts[|acts| - 1], healthy, Typed(derive, p, r));
  }

  /**
   * After a panic at the end of any run of a provisioned device the buffer still equals the erased PIN, which gives
   * the erased key, if and only if that PIN was typed since the last power-up or is 0000.
   */
  lemma PanicLeavesPinIff(
      derive: Derive, c: Cells, boot: u32, radioOk: bool, acts: seq<Act>, now: u32, random: u32, asked: bool)
    requires Genuine(derive, c) && Provisioned(Run(derive, Powered(c, boot, radioOk), acts).ident.cells)
    ensures var d := Run(derive, Powered(c, boot, radioOk), acts);
            var p := Looped(derive, d, Panic, now, random, asked);
            && Blank(p)
            && (p.ui.pin[..4] == StoredPin(d.ident.cells) <==>
                  Typed(derive, Powered(c, boot, radioOk), acts) || StoredPin(d.ident.cells) == ZEROS)
            && (p.ui.pin[..4] == StoredPin(d.ident.cells) ==> derive(p.ui.pin[..4]) == StoredKey(d.ident.cells))
  {
    var d := Run(derive, Powered(c, boot, radioOk), acts);
    TypedPin(derive, c, boot, radioOk, acts);
    WholeRun(derive, c, boot, radioOk, acts);
    PanicBlank(derive, d, now, random, asked);
    PanicKeepsUi(derive, d, now, random, asked);
  }

  /**
   * What ends the stay in the buffer: switching off, or the press on the welcome screen, which keeps the composed text.
   */
  predicate Resets(a: Act) { a.PowerCycle? || (a.Pass? && a.evt == OkShort) }

  lemma ResetIff(derive: Derive, d: Device, a: Act)
    requires Blank(d) && d.sys == SetupState && d.ui.screen == SetupWelcome
    ensures Apply(derive, d, a).ui == d.ui <==> !Resets(a)
    ensures !Resets(a) ==> Apply(derive, d, a).sys == SetupState
    ensures Resets(a) ==> Apply(derive, d, a).ui.pin[..4] == ZEROS
    ensures a.Pass? ==> Apply(derive, d, a).ui.composeBuf == d.ui.composeBuf
  {
    WipedFacts();
  }

  predicate Unreset(acts: seq<Act>) { acts == [] || (Unreset(acts[..|acts| - 1]) && !Resets(acts[|acts| - 1])) }

  /** The welcome screen after a panic. */
  ghost predicate Welcoming(d: Device, u: UiState)
  {
    Blank(d) && d.sys == SetupState && d.ui == u && u.screen == SetupWelcome
  }

  lemma WelcomeStays(derive: Derive, d: Device, u: UiState, a: Act)
    requires Welcoming(d, u) && !Resets(a)
    ensures Welcoming(Apply(derive, d, a), u)
  {
    BlankStays(derive, d, a);
    ResetIff(derive, d, a);
  }

  /** The welcome screen after a panic keeps both buffers through everything else. */
  lemma {:induction false} KeptUntilReset(derive: Derive, p: Device, acts: seq<Act>)
    requires Welcoming(p, p.ui) && Unreset(acts)
    ensures Welcoming(Run(derive, p, acts), p.ui)
  {
    if acts != [] {
      var r := acts[..|acts| - 1];
      KeptUntilReset(derive, p, r);
      WelcomeStays(derive, Run(derive, p, r), p.ui, acts[|acts| - 1]);
    }
  }

  // ---------- Where code and documentation part ----------

  /** The factory-reset screen wipes nothing: in use, no input but a panic changes a stored byte or leaves use. */
  lemma WipeMenuNeverWipes(derive: Derive, d: Device, evt: BtnEvent, now: u32, random: u32, asked: bool)
    requires Sound(derive, d) && d.sys == IdleState && evt != Panic
    ensures var e := Looped(derive, d, evt, now, random, asked);
            e.ident.cells == d.ident.cells && e.key == d.key && e.sys == IdleState
  {
    PressedMidway(derive, d, evt, random);
  }

  ghost predicate IdleHasKey(d: Device)
  {
    d.sys == IdleState ==> Provisioned(d.ident.cells) && d.ident.loaded && d.key == StoredKey(d.ident.cells)
  }

  /** At an idle boundary of any run the device has its key if and only if the run is healthy. */
  lemma IdleHasKeyIffRadio(derive: Derive, c: Cells, boot: u32, radioOk: bool, acts: seq<Act>)
    requires Genuine(derive, c) && Run(derive, Powered(c, boot, radioOk), acts).sys == IdleState
    ensures IdleHasKey(Run(derive, Powered(c, boot, radioOk), acts)) <==> Healthy(radioOk, acts)
  {
    WholeRun(derive, c, boot, radioOk, acts);
  }

  predicate NoPowerUp(acts: seq<Act>) { forall a | a in acts :: !a.PowerCycle? }

  ghost predicate ReachesKeyless(derive: Derive, p: Device, acts: seq<Act>, tail: seq<Act>)
    requires UiOk(p.ui)
  {
    NoPowerUp(tail) && !IdleHasKey(Run(derive, p, acts + tail))
  }

  /** The case occurs: after a power-up with a failing radio at most one press leads to idle without the key. */
  lemma RadioFailureSkipsKey(derive: Derive, c: Cells, boot: u32, radioOk: bool, acts: seq<Act>)
    returns (tail: seq<Act>)
    requires Genuine(derive, c) && !Healthy(radioOk, acts)
    ensures |tail| == 1 && ReachesKeyless(derive, Powered(c, boot, radioOk), acts, tail)
    ensures var e := Run(derive, Powered(c, boot, radioOk), acts + tail); e.sys == IdleState && !IdleHasKey(e)
  {
    var d := Run(derive, Powered(c, boot, radioOk), acts);
    WholeRun(derive, c, boot, radioOk, acts);
    var a := Pass(if d.sys == IdleState then NoEvent else OkShort, boot, 1, false);
    tail := [a];
    assert (acts + tail)[..|acts|] == acts;
    OnePress(derive, d, a);
  }

  lemma OnePress(derive: Derive, d: Device, a: Act)
    requires Keyless(derive, d) && a.Pass? && a.evt == if d.sys == IdleState then NoEvent else OkShort
    ensures var e := Apply(derive, d, a); e.sys == IdleState && !IdleHasKey(e)
  {
    PassKeyless(derive, d, a.evt, a.now, a.random, a.asked);
    if d.sys == ErrorState {
      PressedKeyless(derive, d, OkShort, a.random);
      assert Pressed(derive, d, OkShort, a.random).ui.screen == Inbox;
      TickedKeyless(derive, Pressed(derive, d, OkShort, a.random), a.now, a.asked);
    }
  }

  lemma {:induction false} HealthyTail(radioOk: bool, acts: seq<Act>, tail: seq<Act>)
    requires Healthy(radioOk, acts) && NoPowerUp(tail)
    ensures Healthy(radioOk, acts + tail)
  {
    if tail == [] {
      assert acts + tail == acts;
    } else {
      var t := tail[..|tail| - 1];
      HealthyTail(radioOk, acts, t);
      assert (acts + tail)[..|acts + tail| - 1] == acts + t && tail[|tail| - 1] in tail;
    }
  }

  lemma HealthyKeepsKey(derive: Derive, c: Cells, boot: u32, radioOk: bool, acts: seq<Act>, tail: seq<Act>)
    requires Genuine(derive, c) && Healthy(radioOk, acts)
    ensures !ReachesKeyless(derive, Powered(c, boot, radioOk), acts, tail)
  {
    if NoPowerUp(tail) {
      HealthyTail(radioOk, acts, tail);
      WholeRun(derive, c, boot, radioOk, acts + tail);
    }
  }

  /**
   * So, without switching the device off again, idle without the key can be reached after a run if and only if the
   * run is not healthy.
   */
  lemma KeylessReachableIff(derive: Derive, c: Cells, boot: u32, radioOk: bool, acts: seq<Act>)
    requires Genuine(derive, c)
    ensures (exists tail :: ReachesKeyless(derive, Powered(c, boot, radioOk), acts, tail)) <==> !Healthy(radioOk, acts)
  {
    if Healthy(radioOk, acts) {
      forall tail
        ensures !ReachesKeyless(derive, Powered(c, boot, radioOk), acts, tail)
      {
        HealthyKeepsKey(derive, c, boot, radioOk, acts, tail);
      }
    } else {
      var tail := RadioFailureSkipsKey(derive, c, boot, radioOk, acts);
    }
  }
}
