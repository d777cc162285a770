/**
 * Screens and input of the device (firmware/src/ui.cpp): which button leads where, the PIN and compose buffers,
 * the selections. Drawing is left out; what it refreshes is part of the device model.
 */
module Ui {
  import opened Words
  import opened TextMessages
  import opened Identity
  import opened MessageStore

  const MAX_PEERS := 8
  const PUNCTUATION: seq<byte> := [32, 46, 44, 33, 63, 45, 58, 59, 39, 64, 35, 38, 43, 61]
  const CHARSET_LEN := 50
  const SETTINGS_COUNT := 5
  const DIGIT_0: byte := 48
  const DIGIT_9: byte := 57

  datatype Screen =
    | Splash | SetupWelcome | SetupPin | DeviceInfo | Inbox | ConversationView | Compose | SendingView
    | Settings | Network | WipeConfirm | PinEntryView | TestView | ErrorView

  datatype BtnEvent = NoEvent | UpShort | UpLong | OkShort | OkLong | DownShort | DownLong | Panic

  type ComposeBuf = s: seq<byte> | |s| == MAX_TEXT + 1 witness Repeat(0, MAX_TEXT + 1)
  type PeerList = s: seq<u32> | |s| == MAX_PEERS witness Repeat(0, MAX_PEERS)

  datatype UiState = UiState(
    screen: Screen, pin: PinBuf, pinPos: nat,
    inboxSel: nat, peerCount: nat, peerList: PeerList,
    convPeer: u32, convScroll: nat, convCount: nat,
    composeDest: u32, composeBuf: ComposeBuf, composeLen: nat, composeChar: nat,
    settingsSel: nat, wipeSel: nat, brightness: byte)

  const ZERO_PINS: PinBuf := [DIGIT_0, DIGIT_0, DIGIT_0, DIGIT_0, 0]

  const UI_INIT := UiState(Splash, ZERO_PINS, 0, 0, 0, Repeat(0, MAX_PEERS), 0, 0, 0,
                           0, Repeat(0, MAX_TEXT + 1), 0, 0, 0, 0, 200)

  /** The input charset: letters, digits, then space and `.,!?-:;'@#&+=`. */
  function CharAt(i: nat): (b: byte)
    requires i < CHARSET_LEN
    ensures b != 0
  {
    if i < 26 then 65 + i else if i < 36 then DIGIT_0 + (i - 26) else PUNCTUATION[i - 36]
  }

  /** Everything the buffers rely on. */
  predicate UiOk(u: UiState)
  {
    && u.pinPos <= 3 && (forall i | 0 <= i < 4 :: DIGIT_0 <= u.pin[i] <= DIGIT_9)
    && u.inboxSel < MAX_PEERS && u.peerCount <= MAX_PEERS
    && u.composeLen <= MAX_TEXT && u.composeBuf[u.composeLen] == 0
    && (forall i | 0 <= i < u.composeLen :: u.composeBuf[i] != 0)
    && u.composeChar < CHARSET_LEN && u.settingsSel < SETTINGS_COUNT && u.wipeSel <= 1
  }

  /** The text a C string in the compose buffer denotes. */
  function StrLen(s: seq<byte>): (n: nat)
    ensures n <= |s| && (n < |s| ==> s[n] == 0) && forall i | 0 <= i < n :: s[i] != 0
  {
    if s == [] || s[0] == 0 then 0 else 1 + StrLen(s[1..])
  }

  function DigitUp(b: byte): byte { if b >= DIGIT_9 then DIGIT_0 else b + 1 }
  function DigitDown(b: byte): byte { if b <= DIGIT_0 then DIGIT_9 else b - 1 }

  /** A press that confirms the PIN and so provisions the device. */
  predicate Provisions(u: UiState, evt: BtnEvent) { u.screen == SetupPin && evt == OkLong }

  /** A press that opens a conversation and so marks its messages read. */
  predicate Opens(u: UiState, evt: BtnEvent) { u.screen == Inbox && evt == OkShort && u.peerCount > 0 }

  function Composing(u: UiState, dest: u32): UiState
  {
    u.(composeDest := dest, composeLen := 0, composeBuf := u.composeBuf[0 := 0], composeChar := 0, screen := Compose)
  }

  function EditedPin(u: UiState, evt: BtnEvent): UiState
    requires UiOk(u)
  {
    match evt
    case UpShort => u.(pin := u.pin[u.pinPos := DigitUp(u.pin[u.pinPos])])
    case DownShort => u.(pin := u.pin[u.pinPos := DigitDown(u.pin[u.pinPos])])
    case OkShort => if u.pinPos < 3 then u.(pinPos := u.pinPos + 1) else u
    case _ => u
  }

  function Composed(u: UiState, evt: BtnEvent): UiState
    requires UiOk(u)
  {
    match evt
    case UpShort => u.(composeChar := (u.composeChar + 1) % CHARSET_LEN)
    case DownShort => u.(composeChar := if u.composeChar == 0 then CHARSET_LEN - 1 else u.composeChar - 1)
    case OkShort =>
      if u.composeLen < MAX_TEXT then
        u.(composeBuf := u.composeBuf[u.composeLen := CharAt(u.composeChar)][u.composeLen + 1 := 0],
           composeLen := u.composeLen + 1)
      else u
    case OkLong => if u.composeLen > 0 then u.(screen := SendingView) else u
    case DownLong =>
      if u.composeLen > 0 then u.(composeLen := u.composeLen - 1, composeBuf := u.composeBuf[u.composeLen - 1 := 0])
      else u
    case UpLong => u.(screen := Inbox)
    case _ => u
  }

  function FromInbox(u: UiState, evt: BtnEvent): UiState
    requires UiOk(u)
  {
    match evt
    case UpShort => if u.inboxSel > 0 then u.(inboxSel := u.inboxSel - 1) else u
    case DownShort => if u.inboxSel + 1 < u.peerCount then u.(inboxSel := u.inboxSel + 1) else u
    case OkShort =>
      if u.peerCount > 0 then u.(convPeer := u.peerList[u.inboxSel], convScroll := 0, screen := ConversationView) else u
    case OkLong => Composing(u, BROADCAST_ID)
    case UpLong => u.(screen := Settings, settingsSel := 0)
    case DownLong => u.(screen := Network)
    case _ => u
  }

  function FromSettings(u: UiState, evt: BtnEvent): UiState
  {
    match evt
    case UpShort => if u.settingsSel > 0 then u.(settingsSel := u.settingsSel - 1) else u
    case DownShort => if u.settingsSel < SETTINGS_COUNT - 1 then u.(settingsSel := u.settingsSel + 1) else u
    case OkShort =>
      if u.settingsSel == 0 then u.(screen := Network)
      else if u.settingsSel == 2 then u.(brightness := if u.brightness >= 250 then 50 else (u.brightness + 50) % 0x100)
      else if u.settingsSel == 3 then u.(screen := TestView)
      else if u.settingsSel == 4 then u.(wipeSel := 0, screen := WipeConfirm)
      else u
    case UpLong => u.(screen := Inbox)
    case _ => u
  }

  /** The interface after a button event, apart from provisioning and marking messages read. */
  function Handled(u: UiState, evt: BtnEvent): UiState
    requires UiOk(u)
  {
    match u.screen
    case SetupWelcome =>
      if evt == OkShort then u.(pinPos := 0, pin := ZERO_PINS[..4] + u.pin[4..], screen := SetupPin) else u
    case SetupPin =>
      if evt == OkLong then u.(pin := u.pin[4 := 0], screen := DeviceInfo)
      else if evt == UpLong then (if u.pinPos > 0 then u.(pinPos := u.pinPos - 1) else u)
      else EditedPin(u, evt)
    case DeviceInfo => if evt == OkShort || evt == OkLong then u.(screen := Inbox) else u
    case Inbox => FromInbox(u, evt)
    case ConversationView =>
      (match evt
       case UpShort => if u.convScroll > 0 then u.(convScroll := u.convScroll - 1) else u
       case DownShort => if u.convScroll + 1 < u.convCount then u.(convScroll := u.convScroll + 1) else u
       case OkShort => Composing(u, u.convPeer)
       case UpLong => u.(screen := Inbox)
       case _ => u)
    case Compose => Composed(u, evt)
    case Settings => FromSettings(u, evt)
    case Network => if evt == UpLong then u.(screen := Inbox) else u
    case WipeConfirm =>
      (match evt
       case UpShort => u.(wipeSel := 1 - u.wipeSel)
       case DownShort => u.(wipeSel := 1 - u.wipeSel)
       case OkShort => if u.wipeSel == 1 then u else u.(screen := Settings)
       case UpLong => u.(screen := Settings)
       case _ => u)
    case PinEntryView => EditedPin(u, evt)
    case TestView => if evt == UpLong then u.(screen := Settings) else u
    case ErrorView => if evt == OkShort then u.(screen := Inbox) else u
    case _ => u
  }

  /** No input spoils the buffers or the selections. */
  lemma HandledOk(u: UiState, evt: BtnEvent)
    requires UiOk(u)
    ensures UiOk(Handled(u, evt))
  {
    match u.screen
    case SetupPin => EditedPinOk(u, evt);
    case PinEntryView => EditedPinOk(u, evt);
    case Compose => ComposedOk(u, evt);
    case Inbox => FromInboxOk(u, evt);
    case _ =>
  }

  lemma EditedPinOk(u: UiState, evt: BtnEvent)
    requires UiOk(u)
    ensures UiOk(EditedPin(u, evt))
  {
  }

  lemma ComposedOk(u: UiState, evt: BtnEvent)
    requires UiOk(u)
    ensures UiOk(Composed(u, evt))
  {
  }

  lemma FromInboxOk(u: UiState, evt: BtnEvent)
    requires UiOk(u)
    ensures UiOk(FromInbox(u, evt))
  {
  }

  /** The compose buffer read as a C string has the length that is kept beside it. */
  lemma ComposedLength(u: UiState)
    requires UiOk(u)
    ensures StrLen(u.composeBuf) == u.composeLen
  {
  }

  // ---------- What is typed ----------

  function HandledAll(u: UiState, evts: seq<BtnEvent>): (r: UiState)
    requires UiOk(u)
    ensures UiOk(r)
  {
    if evts == [] then u
    else
      var v := HandledAll(u, evts[..|evts| - 1]);
      HandledOk(v, evts[|evts| - 1]);
      Handled(v, evts[|evts| - 1])
  }

  function Count(evts: seq<BtnEvent>, e: BtnEvent): nat { multiset(evts)[e] }

  /** The character offered: one further for each press up, one back for each press down, round the charset. */
  function Offered(evts: seq<BtnEvent>): (i: nat)
    ensures i < CHARSET_LEN
  {
    (Count(evts, UpShort) - Count(evts, DownShort)) % CHARSET_LEN
  }

  /** The characters chosen and not deleted; the buffer takes 160. */
  function TypedText(evts: seq<BtnEvent>): (t: seq<byte>)
    ensures |t| <= MAX_TEXT
  {
    if evts == [] then []
    else
      var r, t := evts[..|evts| - 1], TypedText(evts[..|evts| - 1]);
      match evts[|evts| - 1]
      case OkShort => if |t| < MAX_TEXT then t + [CharAt(Offered(r))] else t
      case DownLong => if t == [] then t else t[..|t| - 1]
      case _ => t
  }

  /** No event cancels, and none confirms unless there is nothing to send. */
  predicate StaysComposing(evts: seq<BtnEvent>)
  {
    evts == [] ||
    var r, e := evts[..|evts| - 1], evts[|evts| - 1];
    StaysComposing(r) && e != UpLong && (e == OkLong ==> TypedText(r) == [])
  }

  lemma OfferedNext(evts: seq<BtnEvent>)
    requires evts != []
    ensures var i, e := Offered(evts[..|evts| - 1]), evts[|evts| - 1];
            Offered(evts) == if e == UpShort then (i + 1) % CHARSET_LEN
                             else if e == DownShort then (if i == 0 then CHARSET_LEN - 1 else i - 1)
                             else i
  {
    var r, e := evts[..|evts| - 1], evts[|evts| - 1];
    assert evts == r + [e];
  }

  ghost predicate Holds(v: UiState, dest: u32, text: seq<byte>, i: nat)
  {
    && v.screen == Compose && v.composeDest == dest && v.composeChar == i
    && v.composeLen == |text| <= MAX_TEXT && v.composeBuf[..v.composeLen] == text
  }

  /** After any button events on the compose screen the buffer is exactly the text typed. */
  lemma {:induction false} ComposedText(u: UiState, dest: u32, evts: seq<BtnEvent>)
    requires UiOk(u) && UiOk(Composing(u, dest)) && StaysComposing(evts)
    ensures Holds(HandledAll(Composing(u, dest), evts), dest, TypedText(evts), Offered(evts))
  {
    if evts != [] {
      var r, e := evts[..|evts| - 1], evts[|evts| - 1];
      ComposedText(u, dest, r);
      OfferedNext(evts);
      ComposedStep(HandledAll(Composing(u, dest), r), dest, r, e);
      assert r + [e] == evts;
    }
  }

  lemma TypedNext(r: seq<BtnEvent>, e: BtnEvent)
    ensures var t := TypedText(r);
            TypedText(r + [e]) ==
            if e == OkShort && |t| < MAX_TEXT then t + [CharAt(Offered(r))]
            else if e == DownLong && t != [] then t[..|t| - 1]
            else t
  {
    assert (r + [e])[..|r|] == r;
  }

  lemma ChosenHeld(v: UiState, dest: u32, t: seq<byte>, i: nat)
    requires UiOk(v) && Holds(v, dest, t, i) && |t| < MAX_TEXT && i < CHARSET_LEN
    ensures Holds(Composed(v, OkShort), dest, t + [CharAt(i)], i)
  {
    var w := Composed(v, OkShort);
    assert w.composeBuf[..w.composeLen] == v.composeBuf[..v.composeLen] + [CharAt(i)];
  }

  lemma DeletedHeld(v: UiState, dest: u32, t: seq<byte>, i: nat)
    requires UiOk(v) && Holds(v, dest, t, i) && t != []
    ensures Holds(Composed(v, DownLong), dest, t[..|t| - 1], i)
  {
    var w := Composed(v, DownLong);
    assert w.composeBuf[..w.composeLen] == v.composeBuf[..v.composeLen][..|t| - 1];
  }

  lemma OtherHeld(v: UiState, dest: u32, t: seq<byte>, i: nat, e: BtnEvent)
    requires UiOk(v) && Holds(v, dest, t, i) && e != UpLong && (e == OkLong ==> t == [])
    requires (e == OkShort ==> |t| == MAX_TEXT) && (e == DownLong ==> t == [])
    ensures Holds(Composed(v, e), dest, t, if e == UpShort then (i + 1) % CHARSET_LEN
                                           else if e == DownShort then (if i == 0 then CHARSET_LEN - 1 else i - 1)
                                           else i)
  {
  }

  lemma HeldNext(v: UiState, dest: u32, t: seq<byte>, i: nat, e: BtnEvent)
    requires UiOk(v) && Holds(v, dest, t, i) && i < CHARSET_LEN && e != UpLong && (e == OkLong ==> t == [])
    ensures Holds(Composed(v, e), dest,
                  if e == OkShort && |t| < MAX_TEXT then t + [CharAt(i)]
                  else if e == DownLong && t != [] then t[..|t| - 1]
                  else t,
                  if e == UpShort then (i + 1) % CHARSET_LEN
                  else if e == DownShort then (if i == 0 then CHARSET_LEN - 1 else i - 1)
                  else i)
  {
    if e == OkShort && |t| < MAX_TEXT {
      ChosenHeld(v, dest, t, i);
    } else if e == DownLong && t != [] {
      DeletedHeld(v, dest, t, i);
    } else {
      OtherHeld(v, dest, t, i, e);
    }
  }

  lemma ComposedStep(v: UiState, dest: u32, r: seq<BtnEvent>, e: BtnEvent)
    requires UiOk(v) && Holds(v, dest, TypedText(r), Offered(r)) && StaysComposing(r + [e])
    ensures Holds(Handled(v, e), dest, TypedText(r + [e]), Offered(r + [e]))
  {
    assert (r + [e])[..|r|] == r;
    OfferedNext(r + [e]);
    TypedNext(r, e);
    HeldNext(v, dest, TypedText(r), Offered(r), e);
  }

  /** Screens of a device in normal use. */
  predicate InUse(s: Screen) { s in {Inbox, ConversationView, Compose, Settings, Network, WipeConfirm, TestView} }

  /** From normal use input leads only to normal use or to sending; set-up is never re-entered. */
  lemma UseStaysInUse(u: UiState, evt: BtnEvent)
    requires UiOk(u) && InUse(u.screen)
    ensures InUse(Handled(u, evt).screen) || Handled(u, evt).screen == SendingView
  {
  }

  class UserInterface {
    var screen: Screen
    var pin: PinBuf
    var pinPos: nat
    var inboxSel: nat
    var peerCount: nat
    var peerList: PeerList
    var convPeer: u32
    var convScroll: nat
    var convCount: nat
    var composeDest: u32
    var composeBuf: ComposeBuf
    var composeLen: nat
    var composeChar: nat
    var settingsSel: nat
    var wipeSel: nat
    var brightness: byte

    ghost function Value(): UiState
      reads this
    {
      UiState(screen, pin, pinPos, inboxSel, peerCount, peerList, convPeer, convScroll, convCount,
              composeDest, composeBuf, composeLen, composeChar, settingsSel, wipeSel, brightness)
    }

    constructor ()
      ensures Value() == UI_INIT && UiOk(Value())
    {
      screen, pin, pinPos := Splash, ZERO_PINS, 0;
      inboxSel, peerCount, peerList := 0, 0, Repeat(0, MAX_PEERS);
      convPeer, convScroll, convCount := 0, 0, 0;
      composeDest, composeBuf, composeLen, composeChar := 0, Repeat(0, MAX_TEXT + 1), 0, 0;
      settingsSel, wipeSel, brightness := 0, 0, 200;
    }

    method SetScreen(s: Screen)
      modifies this`screen
      ensures screen == s
    {
      screen := s;
    }

    method ComposeBegin(dest: u32)
      modifies this
      ensures Value() == Composing(old(Value()), dest).(screen := old(screen))
    {
      composeDest := dest;
      composeLen := 0;
      composeBuf := composeBuf[0 := 0];
      composeChar := 0;
    }

    method HandleSetupWelcome(evt: BtnEvent)
      requires UiOk(Value()) && screen == SetupWelcome
      modifies this
      ensures Value() == Handled(old(Value()), evt)
    {
      if evt == OkShort {
        pinPos := 0;
        pin := ZERO_PINS[..4] + pin[4..];
        screen := SetupPin;
      }
    }

    method HandleSetupPin(evt: BtnEvent, ident: DeviceIdentity, random: u32, derived: Key)
      requires UiOk(Value()) && screen == SetupPin && ident.Valid()
      modifies this, ident, ident.storage.cells, ident.netKey, ident.meshPin
      ensures Value() == Handled(old(Value()), evt)
      ensures ident.Value() == if evt == OkLong
              then ProvisionedIdent(old(ident.Value()), random, derived, old(pin[..4])) else old(ident.Value())
    {
      match evt
      case UpShort =>
        pin := pin[pinPos := pin[pinPos] + 1];
        if pin[pinPos] > DIGIT_9 {
          pin := pin[pinPos := DIGIT_0];
        }
      case DownShort =>
        pin := pin[pinPos := pin[pinPos] - 1];
        if pin[pinPos] < DIGIT_0 {
          pin := pin[pinPos := DIGIT_9];
        }
      case OkShort =>
        if pinPos < 3 {
          pinPos := pinPos + 1;
        }
      case OkLong =>
        pin := pin[4 := 0];
        ident.Provision(pin[..4], random, derived);
        screen := DeviceInfo;
      case UpLong =>
        if pinPos > 0 {
          pinPos := pinPos - 1;
        }
      case _ =>
    }

    method HandleDeviceInfo(evt: BtnEvent)
      requires UiOk(Value()) && screen == DeviceInfo
      modifies this
      ensures Value() == Handled(old(Value()), evt)
    {
      if evt == OkShort || evt == OkLong {
        screen := Inbox;
      }
    }

    method HandleInbox(evt: BtnEvent, store: MsgStore)
      requires UiOk(Value()) && screen == Inbox && store.Valid()
      modifies this, store.msgs
      ensures Value() == Handled(old(Value()), evt) && store.Valid()
      ensures old(Opens(Value(), evt)) ==> store.Value() == MarkedConversation(old(store.Value()), convPeer)
      ensures !old(Opens(Value(), evt)) ==> store.Value() == old(store.Value())
    {
      match evt
      case UpShort =>
        if inboxSel > 0 {
          inboxSel := inboxSel - 1;
        }
      case DownShort =>
        if inboxSel < peerCount - 1 {
          inboxSel := inboxSel + 1;
        }
      case OkShort =>
        if peerCount > 0 {
          convPeer := peerList[inboxSel];
          convScroll := 0;
          ReadConversation(store, convPeer);
          screen := ConversationView;
        }
      case OkLong =>
        ComposeBegin(BROADCAST_ID);
        screen := Compose;
      case UpLong =>
        screen := Settings;
        settingsSel := 0;
      case DownLong =>
        screen := Network;
      case _ =>
    }

    method ReadConversation(store: MsgStore, peer: u32)
      requires store.Valid()
      modifies store.msgs
      ensures store.Valid() && store.Value() == MarkedConversation(old(store.Value()), peer)
    {
      var indices := new nat[MAX_MESSAGES];
      var n := store.GetConversation(peer, indices, MAX_MESSAGES);
      MarkConversation(store, indices, n);
    }

    method MarkConversation(store: MsgStore, indices: array<nat>, n: nat)
      requires store.Valid() && n <= indices.Length && (forall k | 0 <= k < n :: indices[k] < store.count)
      modifies store.msgs
      ensures store.Valid()
              && store.Value() == old(store.Value()).(slots := MarkedAt(old(store.Value()).slots, indices[..n]))
    {
      var i := 0;
      while i < n
        invariant i <= n
        invariant store.msgs[..] == MarkedAt(old(store.msgs[..]), indices[..i])
      {
        assert indices[..i + 1][..i] == indices[..i];
        store.MarkRead(indices[i]);
        assert store.Value().slots == store.msgs[..];
        i := i + 1;
      }
    }

    method HandleConversation(evt: BtnEvent)
      requires UiOk(Value()) && screen == ConversationView
      modifies this
      ensures Value() == Handled(old(Value()), evt)
    {
      match evt
      case UpShort =>
        if convScroll > 0 {
          convScroll := convScroll - 1;
        }
      case DownShort =>
        if convScroll < convCount - 1 {
          convScroll := convScroll + 1;
        }
      case OkShort =>
        ComposeBegin(convPeer);
        screen := Compose;
      case UpLong =>
        screen := Inbox;
      case _ =>
    }

    method HandleCompose(evt: BtnEvent)
      requires UiOk(Value()) && screen == Compose
      modifies this
      ensures Value() == Handled(old(Value()), evt)
    {
      match evt
      case UpShort =>
        composeChar := (composeChar + 1) % CHARSET_LEN;
      case DownShort =>
        composeChar := if composeChar == 0 then CHARSET_LEN - 1 else composeChar - 1;
      case OkShort =>
        if composeLen < MAX_TEXT {
          composeBuf := composeBuf[composeLen := CharAt(composeChar)];
          composeLen := composeLen + 1;
          composeBuf := composeBuf[composeLen := 0];
        }
      case OkLong =>
        if composeLen > 0 {
          screen := SendingView;
        }
      case DownLong =>
        if composeLen > 0 {
          composeLen := composeLen - 1;
          composeBuf := composeBuf[composeLen := 0];
        }
      case UpLong =>
        screen := Inbox;
      case _ =>
    }

    method HandleSettings(evt: BtnEvent)
      requires UiOk(Value()) && screen == Settings
      modifies this
      ensures Value() == Handled(old(Value()), evt)
    {
      match evt
      case UpShort =>
        if settingsSel > 0 {
          settingsSel := settingsSel - 1;
        }
      case DownShort =>
        if settingsSel < SETTINGS_COUNT - 1 {
          settingsSel := settingsSel + 1;
        }
      case OkShort =>
        if settingsSel == 0 {
          screen := Network;
        } else if settingsSel == 2 {
          brightness := if brightness >= 250 then 50 else (brightness + 50) % 0x100;
        } else if settingsSel == 3 {
          screen := TestView;
        } else if settingsSel == 4 {
          wipeSel := 0;
          screen := WipeConfirm;
        }
      case UpLong =>
        screen := Inbox;
      case _ =>
    }

    method HandleWipeConfirm(evt: BtnEvent)
      requires UiOk(Value()) && screen == WipeConfirm
      modifies this
      ensures Value() == Handled(old(Value()), evt)
    {
      if evt == UpShort || evt == DownShort {
        wipeSel := 1 - wipeSel;
      } else if evt == OkShort {
        if wipeSel == 1 {
          return;
        }
        screen := Settings;
      } else if evt == UpLong {
        screen := Settings;
      }
    }

    method HandlePinEntry(evt: BtnEvent)
      requires UiOk(Value()) && screen == PinEntryView
      modifies this
      ensures Value() == Handled(old(Value()), evt)
    {
      match evt
      case UpShort =>
        pin := pin[pinPos := pin[pinPos] + 1];
        if pin[pinPos] > DIGIT_9 {
          pin := pin[pinPos := DIGIT_0];
        }
      case DownShort =>
        pin := pin[pinPos := pin[pinPos] - 1];
        if pin[pinPos] < DIGIT_0 {
          pin := pin[pinPos := DIGIT_9];
        }
      case OkShort =>
        if pinPos < 3 {
          pinPos := pinPos + 1;
        }
      case _ =>
    }

    /** The screens whose input concerns only the interface. */
    method HandleScreen(evt: BtnEvent)
      requires UiOk(Value()) && screen != SetupPin && screen != Inbox
      modifies this
      ensures Value() == Handled(old(Value()), evt)
    {
      match screen
      case SetupWelcome => HandleSetupWelcome(evt);
      case DeviceInfo => HandleDeviceInfo(evt);
      case ConversationView => HandleConversation(evt);
      case Compose => HandleCompose(evt);
      case Settings => HandleSettings(evt);
      case WipeConfirm => HandleWipeConfirm(evt);
      case PinEntryView => HandlePinEntry(evt);
      case TestView =>
        if evt == UpLong {
          screen := Settings;
        }
      case ErrorView =>
        if evt == OkShort {
          screen := Inbox;
        }
      case Network =>
        if evt == UpLong {
          screen := Inbox;
        }
      case _ =>
    }

    /** Waking clears the display-off flag first, so no event is swallowed by a dark display. */
    method HandleInput(evt: BtnEvent, ident: DeviceIdentity, store: MsgStore, random: u32, derived: Key)
      requires UiOk(Value()) && ident.Valid() && store.Valid()
      modifies this, ident, ident.storage.cells, ident.netKey, ident.meshPin, store.msgs
      ensures Value() == if evt == NoEvent then old(Value()) else Handled(old(Value()), evt)
      ensures store.Valid()
      ensures ident.Value() == if old(Provisions(Value(), evt))
              then ProvisionedIdent(old(ident.Value()), random, derived, old(pin[..4])) else old(ident.Value())
      ensures store.Value() == if old(Opens(Value(), evt)) then MarkedConversation(old(store.Value()), convPeer)
              else old(store.Value())
    {
      if evt == NoEvent {
        return;
      }
      if screen == SetupPin {
        HandleSetupPin(evt, ident, random, derived);
      } else if screen == Inbox {
        HandleInbox(evt, store);
      } else {
        HandleScreen(evt);
      }
    }
  }

  // ---------- Opening a conversation marks it read ----------

  function MarkedAt(s: Slots, idx: seq<nat>): Slots
    requires forall k | 0 <= k < |idx| :: idx[k] < MAX_MESSAGES
  {
    if idx == [] then s
    else
      var r := MarkedAt(s, idx[..|idx| - 1]);
      r[idx[|idx| - 1] := r[idx[|idx| - 1]].(read := true)]
  }

  lemma {:induction false} MarkedEach(s: Slots, idx: seq<nat>, i: nat)
    requires (forall k | 0 <= k < |idx| :: idx[k] < MAX_MESSAGES) && i < MAX_MESSAGES
    ensures MarkedAt(s, idx)[i] == if i in idx then s[i].(read := true) else s[i]
  {
    if idx != [] {
      MarkedEach(s, idx[..|idx| - 1], i);
    }
  }

  ghost function MarkedConversation(st: Store, peer: u32): Store
    requires InBounds(st)
  {
    st.(slots := MarkedAt(st.slots, Conversation(Used(st), peer, MAX_MESSAGES)))
  }
}
