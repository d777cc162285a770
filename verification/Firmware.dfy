/**
 * The firmware's main loop over its real parts (firmware/src/state_machine.cpp, firmware/src/main.cpp): messaging
 * through the mesh engine and the message store, and the state machine over identity and interface.
 *
 * Clock readings, random values, received frames and the radio's answers are inputs; frames handed to the radio
 * are outputs. One clock reading serves a whole pass.
 */
module Firmware {
  import opened Words
  import opened Packets
  import opened Dedup
  import opened Mesh
  import opened TextMessages
  import opened MessageStore
  import opened Identity
  import opened Ui
  import opened DeviceLife
  import StoreLaws

  const FLAG_ACK_REQ: byte := 2

  /** A cipher that keeps its law; the witness adds nothing and accepts everything. */
  type Cipher = a: Aead | Lawful(a)
    ghost witness Aead((k, n, a, m) => (m, Repeat(0, TAG_SIZE)), (k, n, a, c, t) => Some(c))

  /** What one pass of the loop takes from outside. */
  datatype Input = Input(
    evt: BtnEvent, now: u32, frame: Option<seq<byte>>, scratch: Packet,
    random: u32, msgIds: (u32, u32), nonces: (Nonce, Nonce), radioOk: (bool, bool, bool))

  /** The index of the first outgoing message with this identifier. */
  function FirstOutgoing(s: seq<Message>, msgId: u32): Option<nat>
  {
    if s == [] then None
    else if !s[0].incoming && s[0].msgId == msgId then Some(0)
    else
      match FirstOutgoing(s[1..], msgId)
      case None => None
      case Some(i) => Some(i + 1)
  }

  /** The store after an acknowledgement: the first outgoing message with that identifier is delivered. */
  function Acknowledged(st: Store, msgId: u32): Store
    requires st.count <= MAX_MESSAGES
  {
    match FirstOutgoing(Used(st), msgId)
    case Some(i) => if i < st.count then st.(slots := st.slots[i := st.slots[i].(state := Delivered)]) else st
    case None => st
  }

  /** What handing a packet up does to the store. */
  ghost predicate Stored(a: Store, aead: Aead, key: Key, p: Packet, now: u32, b: Store)
    requires InBounds(a)
  {
    if p.kind == KIND_TEXT then
      match OpenText(aead, key, p)
      case None => b == a
      case Some(text) => StoreLaws.Step(a, StoreLaws.Add(p.sender, p.msgId, p.flags, text, now), b)
    else if p.kind == KIND_ACK then b == Acknowledged(a, p.msgId)
    else b == a
  }

  /** `frame` is the text as the device `me` puts it on the air. */
  ghost predicate SealedFrame(
      aead: Aead, key: Key, me: u32, dest: u32, msgId: u32, nonce: Nonce, flags: byte, text: seq<byte>,
      frame: seq<byte>)
  {
    var s := SealText(aead, key, Draft(me, dest, msgId, nonce, flags), text);
    s.Some? && s.value.payloadLen <= MAX_PAYLOAD && frame == Wire(Addressed(s.value, me))
  }

  /** Cache and store after a step of the pass, and the frames that step handed to the radio. */
  datatype Traffic = Traffic(ring: Ring, store: Store, sent: seq<seq<byte>>)

  /** Reading the radio: the mesh outcome of the frame heard, its effect on the store and its acknowledgement. */
  ghost predicate RadioDone(aead: Aead, key: Key, me: u32, inp: Input, a: Traffic, b: Traffic)
    requires InBounds(a.store)
  {
    InBounds(b.store) &&
    if !Heard(inp) then b == a.(sent := [])
    else
      var o := Handle(a.ring, inp.frame.value, me, inp.now, inp.scratch);
      var ack := if o.delivered.Some? then Reply(aead, key, o.delivered.value) else None;
      && b.sent == (if o.relay.Some? then [o.relay.value] else []) +
                   (if ack.Some? then [Wire(Addressed(ack.value, me))] else [])
      && b.ring == (if ack.Some? then Added(o.ring, me, ack.value.msgId, inp.now) else o.ring)
      && (if o.delivered.Some? then Stored(a.store, aead, key, o.delivered.value, inp.now, b.store)
          else b.store == a.store)
  }

  ghost predicate NonePending(st: Store)
    requires InBounds(st)
  {
    forall i | 0 <= i < st.count :: !IsPending(st.slots[i])
  }

  ghost predicate PendingAt(st: Store, idx: int)
    requires InBounds(st)
  {
    0 <= idx < st.count && IsPending(st.slots[idx]) && forall i | 0 <= i < idx :: !IsPending(st.slots[i])
  }

  /** Sending the waiting message at `idx`. */
  ghost predicate OutgoingAt(aead: Aead, key: Key, me: u32, inp: Input, a: Traffic, idx: int, b: Traffic)
    requires InBounds(a.store)
  {
    PendingAt(a.store, idx) &&
    var m := a.store.slots[idx];
    && |b.sent| == 1 && m.textLen <= MAX_TEXT
    && SealedFrame(aead, key, me, m.dest, inp.msgIds.0, inp.nonces.0, m.flags, m.text[..m.textLen], b.sent[0])
    && b.ring == Added(a.ring, me, inp.msgIds.0, inp.now)
    && b.store == a.store.(slots := a.store.slots[idx := m.(state := if inp.radioOk.1 then Sent else Queued)])
  }

  /** The first waiting message is sent, or queued again if the radio fails; without one nothing happens. */
  ghost predicate OutgoingDone(aead: Aead, key: Key, me: u32, inp: Input, a: Traffic, b: Traffic)
    requires InBounds(a.store)
  {
    InBounds(b.store) &&
    if NonePending(a.store) then b == a.(sent := []) else exists idx: int :: OutgoingAt(aead, key, me, inp, a, idx, b)
  }

  /** Housekeeping of both modules. */
  function Housekept(a: Traffic, now: u32): Traffic
    requires a.store.count <= MAX_MESSAGES
  {
    Traffic(Dedup.Ticked(a.ring, now),
            a.store.(slots := TickedAll(Used(a.store), now) + a.store.slots[a.store.count..]), [])
  }

  /** The composed text, if any, is stored and sent. */
  ghost predicate ComposeDone(
      aead: Aead, key: Key, me: u32, inp: Input, dest: u32, text: seq<byte>, a: Traffic, b: Traffic)
    requires InBounds(a.store)
  {
    if text == [] then b == a.(sent := [])
    else
      && |b.sent| == 1
      && SealedFrame(aead, key, me, dest, inp.msgIds.1, inp.nonces.1, FLAG_ACK_REQ, text, b.sent[0])
      && QueuedThenSent(a.store, dest, text, inp.now, inp.radioOk.2, b.store)
      && b.ring == Added(a.ring, me, inp.msgIds.1, inp.now)
  }

  /** Radio, then the outgoing queue, then housekeeping. */
  ghost predicate MessagingDone(aead: Aead, key: Key, me: u32, inp: Input, a: Traffic, z: Traffic)
    requires InBounds(a.store)
  {
    exists b: Traffic, c: Traffic ::
      RadioDone(aead, key, me, inp, a, b) && OutgoingDone(aead, key, me, inp, b, c) &&
      z == Housekept(c, inp.now).(sent := b.sent + c.sent)
  }

  lemma MessagingSteps(aead: Aead, key: Key, me: u32, inp: Input, a: Traffic, b: Traffic, c: Traffic)
    requires InBounds(a.store) && RadioDone(aead, key, me, inp, a, b)
             && OutgoingDone(aead, key, me, inp, b.(sent := []), c)
    ensures InBounds(c.store) && MessagingDone(aead, key, me, inp, a, Housekept(c, inp.now).(sent := b.sent + c.sent))
  {
    assert OutgoingDone(aead, key, me, inp, b, c) by {
      if !NonePending(b.store) {
        var idx :| OutgoingAt(aead, key, me, inp, b.(sent := []), idx, c);
        assert OutgoingAt(aead, key, me, inp, b, idx, c);
      }
    }
  }

  /** A whole idle pass; `text` is what the sending screen holds, empty on any other screen. */
  ghost predicate IdleDone(
      aead: Aead, key: Key, me: u32, inp: Input, dest: u32, text: seq<byte>, a: Traffic, z: Traffic)
    requires InBounds(a.store)
  {
    exists b: Traffic, c: Traffic ::
      InBounds(b.store) && MessagingDone(aead, key, me, inp, a, b)
        && ComposeDone(aead, key, me, inp, dest, text, b, c) &&
      z == c.(sent := b.sent + c.sent)
  }

  /** A pass's traffic, given the device and the store after input. */
  ghost predicate PassDone(aead: Aead, e: Device, inp: Input, a: Traffic, z: Traffic)
    requires InBounds(a.store) && UiOk(e.ui)
  {
    var me := WithIdLoaded(e.ident).id;
    match e.sys
    case IdleState => IdleDone(aead, e.key, me, inp, e.ui.composeDest, ToSend(e.ui), a, z)
    case SendingState => RadioDone(aead, e.key, me, inp, a, z)
    case ReceivingState => RadioDone(aead, e.key, me, inp, a, z)
    case TestState => RadioDone(aead, e.key, me, inp, a, z)
    case _ => z == a
  }

  /** The device after a pass's panic or input, before the machine's tick. */
  function AfterInput(derive: Derive, d: Device, inp: Input): Device
    requires UiOk(d.ui)
  {
    if inp.evt == Panic then Wiped(d, inp.now)
    else if inp.evt == NoEvent then d
    else Pressed(derive, d, inp.evt, inp.random)
  }

  /** The store then: emptied by a panic, a conversation marked read when it is opened. */
  ghost function StoreAfterInput(st: Store, u: UiState, evt: BtnEvent): Store
    requires InBounds(st) && UiOk(u)
  {
    if evt == Panic then MessageStore.INIT.(counter := st.counter)
    else if evt != NoEvent && Opens(u, evt) then MarkedConversation(st, Handled(u, evt).convPeer)
    else st
  }

  lemma IdleSteps(
      aead: Aead, key: Key, me: u32, inp: Input, dest: u32, text: seq<byte>, a: Traffic, b: Traffic, c: Traffic)
    requires InBounds(a.store) && InBounds(b.store) && MessagingDone(aead, key, me, inp, a, b)
    requires ComposeDone(aead, key, me, inp, dest, text, b.(sent := []), c)
    ensures IdleDone(aead, key, me, inp, dest, text, a, c.(sent := b.sent + c.sent))
  {
    assert ComposeDone(aead, key, me, inp, dest, text, b, c);
  }

  lemma IdleDevice(d: Device, v: Ident, u: UiState, now: u32)
    requires d.sys == IdleState && v in {d.ident, WithIdLoaded(d.ident)}
    requires u == if d.ui.screen == SendingView then d.ui.(screen := Inbox) else d.ui
    ensures d.(ident := v, ui := u) in {DeviceLife.Ticked(d, now, false), DeviceLife.Ticked(d, now, true)}
  {
  }

  lemma RadioDevice(d: Device, v: Ident, now: u32)
    requires d.sys in {SendingState, ReceivingState, TestState} && v in {d.ident, WithIdLoaded(d.ident)}
    ensures var leaves := d.sys == ReceivingState || (d.sys == SendingState && Over(now, d.since, SEND_MS));
            var e := if leaves then d.(ident := v, sys := IdleState, since := now) else d.(ident := v);
            e in {DeviceLife.Ticked(d, now, false), DeviceLife.Ticked(d, now, true)}
  {
  }

  class Firmware {
    const ident: DeviceIdentity
    const store: MsgStore
    const mesh: MeshEngine
    const ui: UserInterface
    const netKey: array<byte>
    const aead: Cipher
    var sys: Sys
    var since: u32

    ghost predicate Valid()
      reads store, mesh, mesh.cache
    {
      && ident.Valid() && store.Valid() && mesh.Valid()
      && netKey.Length == KEY_SIZE && netKey != ident.netKey && netKey != ident.meshPin && netKey != ident.storage.cells
    }

    /** The part of the state that identity, key and screens make up. */
    ghost function Value(): Device
      requires ident.Valid() && netKey.Length == KEY_SIZE
      reads this, ident, ident.storage.cells, ident.netKey, ident.meshPin, netKey, ui
    {
      Device(ident.Value(), ui.Value(), sys, since, netKey[..])
    }

    /** Cache, store and the frames just sent. */
    ghost function Flow(sent: seq<seq<byte>>): Traffic
      requires Valid()
      reads store, store.msgs, mesh, mesh.cache, mesh.cache.slots
    {
      Traffic(mesh.cache.Value(), store.Value(), sent)
    }

    /** The identifier this device uses, loaded or not. */
    ghost function Me(): u32
      requires ident.Valid()
      reads ident, ident.storage.cells, ident.netKey, ident.meshPin
    {
      WithIdLoaded(ident.Value()).id
    }

    constructor (
        ident: DeviceIdentity, store: MsgStore, mesh: MeshEngine, ui: UserInterface, netKey: array<byte>,
        cipher: Cipher, now: u32)
      ensures this.ident == ident && this.store == store && this.mesh == mesh && this.ui == ui && this.netKey == netKey
      ensures aead == cipher && sys == BootState && since == now
    {
      this.ident, this.store, this.mesh, this.ui, this.netKey := ident, store, mesh, ui, netKey;
      aead := cipher;
      sys, since := BootState, now;
    }

    /** The error screen, as after a radio that fails to start. */
    method OnError(now: u32)
      requires ident.Valid() && netKey.Length == KEY_SIZE
      modifies ui`screen, this`sys, this`since
      ensures Value() == old(Value()).(ui := old(Value().ui).(screen := ErrorView), sys := ErrorState, since := now)
    {
      ui.SetScreen(ErrorView);
      sys, since := ErrorState, now;
    }

    // ---------- Messaging ----------

    /** Seal a text and send it: the same frame and cache update as the network model's launch. */
    method SendTextMessage(dest: u32, text: seq<byte>, flags: byte, msgId: u32, nonce: Nonce, now: u32, radioOk: bool)
      returns (ok: bool, sent: Option<seq<byte>>)
      requires Valid()
      modifies ident`deviceId, mesh.cache, mesh.cache.slots
      ensures Valid() && mesh.cache.slots == old(mesh.cache.slots) && ident.Value() == WithIdLoaded(old(ident.Value()))
      ensures |text| > MAX_PAYLOAD ==> !ok && sent == None && mesh.cache.Value() == old(mesh.cache.Value())
      ensures |text| <= MAX_PAYLOAD ==>
                && sent.Some?
                && SealedFrame(aead, netKey[..], ident.deviceId, dest, msgId, nonce, flags, text, sent.value)
                && ok == radioOk && mesh.cache.Value() == Added(old(mesh.cache.Value()), ident.deviceId, msgId, now)
    {
      var p := ZERO_PACKET;
      p := p.(version := PROTOCOL_VERSION);
      p := p.(kind := KIND_TEXT);
      p := p.(dest := dest);
      p := p.(msgId := msgId);
      p := p.(flags := WithEncrypted(flags));
      p := p.(nonce := nonce);
      var aad := new byte[AAD_SIZE](_ => 0);
      var me := ident.GetDeviceId();
      p := p.(sender := me);
      BuildAad(p, aad);
      assert aad[..] == aad[..AAD_SIZE];
      assert p == Draft(me, dest, msgId, nonce, flags);
      SealedExactly(aead, netKey[..], p, text);
      if |text| > MAX_PAYLOAD {
        return false, None;
      }
      var sealed := aead.seal(netKey[..], p.nonce, aad[..], text);
      p := p.(payload := sealed.0 + p.payload[|sealed.0|..], tag := sealed.1);
      p := p.(payloadLen := |text|);
      var q;
      q, ok, sent := mesh.SendPacket(p, me, now, radioOk);
    }

    /** Open, store and acknowledge a delivered text. */
    method HandleTextPacket(p: Packet, now: u32, radioOk: bool) returns (sent: Option<seq<byte>>)
      requires Valid() && p.kind == KIND_TEXT && StoreLaws.Safe(store.Value())
      modifies ident`deviceId, mesh.cache, mesh.cache.slots, store`count, store.msgs
      ensures Valid() && mesh.cache.slots == old(mesh.cache.slots) && StoreLaws.Safe(store.Value())
      ensures Stored(old(store.Value()), aead, netKey[..], p, now, store.Value())
      ensures Reply(aead, netKey[..], p) == None ==>
                sent == None && mesh.cache.Value() == old(mesh.cache.Value()) && ident.Value() == old(ident.Value())
      ensures Reply(aead, netKey[..], p).Some? ==>
                var me := ident.deviceId;
                && sent == Some(Wire(Addressed(AckFor(p), me))) && ident.Value() == WithIdLoaded(old(ident.Value()))
                && mesh.cache.Value() == Added(old(mesh.cache.Value()), me, p.msgId, now)
    {
      sent := None;
      var text := OpenPacket(p);
      if text == None {
        return;
      }
      StoreText(p, text.value, now);
      if HasAckReq(p.flags) {
        sent := SendAck(p, now, radioOk);
      }
    }

    /** The text of a packet, unless it is too long or fails to authenticate. */
    method OpenPacket(p: Packet) returns (text: Option<seq<byte>>)
      requires Valid()
      ensures text == OpenText(aead, netKey[..], p)
    {
      var aad := new byte[AAD_SIZE](_ => 0);
      BuildAad(p, aad);
      assert aad[..] == aad[..AAD_SIZE];
      if p.payloadLen > MAX_TEXT {
        return None;
      }
      if !HasEncrypted(p.flags) {
        return Some(p.payload[..p.payloadLen]);
      }
      text := aead.open(netKey[..], p.nonce, aad[..], p.payload[..p.payloadLen], p.tag);
    }

    method StoreText(p: Packet, text: seq<byte>, now: u32)
      requires store.Valid() && StoreLaws.Safe(store.Value())
      modifies store`count, store.msgs
      ensures store.Valid() && StoreLaws.Safe(store.Value())
      ensures StoreLaws.Step(old(store.Value()), StoreLaws.Add(p.sender, p.msgId, p.flags, text, now), store.Value())
    {
      ghost var a := store.Value();
      var idx := store.AddIncoming(p.sender, p.msgId, p.flags, text, now);
      assert idx != -1 ==> StoreLaws.Inserts(a, idx, Incoming(p.sender, p.msgId, p.flags, text, now), store.Value());
      StoreLaws.StepSafe(a, StoreLaws.Add(p.sender, p.msgId, p.flags, text, now), store.Value());
    }

    method SendAck(p: Packet, now: u32, radioOk: bool) returns (sent: Option<seq<byte>>)
      requires Valid()
      modifies ident`deviceId, mesh.cache, mesh.cache.slots
      ensures Valid() && mesh.cache.slots == old(mesh.cache.slots) && ident.Value() == WithIdLoaded(old(ident.Value()))
      ensures sent == Some(Wire(Addressed(AckFor(p), ident.deviceId)))
      ensures mesh.cache.Value() == Added(old(mesh.cache.Value()), ident.deviceId, p.msgId, now)
    {
      var ack := ZERO_PACKET;
      ack := ack.(kind := KIND_ACK);
      ack := ack.(dest := p.sender);
      ack := ack.(msgId := p.msgId);
      var me := ident.GetDeviceId();
      var q, ok;
      q, ok, sent := mesh.SendPacket(ack, me, now, radioOk);
    }

    /** Mark the first outgoing message with the acknowledged identifier delivered. */
    method HandleAck(msgId: u32)
      requires Valid() && StoreLaws.Safe(store.Value())
      modifies store.msgs
      ensures Valid() && store.Value() == Acknowledged(old(store.Value()), msgId) && StoreLaws.Safe(store.Value())
    {
      ghost var a := store.Value();
      var i := 0;
      while i < store.count
        invariant i <= store.count && store.Value() == a
        invariant FirstOutgoing(Used(a), msgId) == Shifted(FirstOutgoing(Used(a)[i..], msgId), i)
      {
        if !store.msgs[i].incoming && store.msgs[i].msgId == msgId {
          store.SetState(i, Delivered);
          StoreLaws.StepSafe(a, StoreLaws.Move(i, Delivered), store.Value());
          return;
        }
        assert Used(a)[i..][1..] == Used(a)[i + 1..];
        i := i + 1;
      }
    }

    /** Read one frame from the radio, if there is one, and act on it. */
    method ProcessRadio(inp: Input) returns (sent: seq<seq<byte>>)
      requires Valid() && StoreLaws.Safe(store.Value())
      modifies ident`deviceId, mesh`relayed, mesh`dropped, mesh.cache, mesh.cache.slots, store`count, store.msgs
      ensures Valid() && mesh.cache.slots == old(mesh.cache.slots) && StoreLaws.Safe(store.Value())
      ensures ident.Value() == old(ident.Value()) || ident.Value() == WithIdLoaded(old(ident.Value()))
      ensures RadioDone(aead, netKey[..], old(Me()), inp, old(Flow([])), Flow(sent))
    {
      sent := [];
      if inp.frame == None || |inp.frame.value| == 0 || |inp.frame.value| > MAX_FRAME {
        return;
      }
      var forUs, p, relay := Receive(inp.frame.value, inp.now, inp.scratch);
      if relay.Some? {
        sent := [relay.value];
      }
      if forUs {
        var ack := Dispatch(p, inp.now, inp.radioOk.0);
        sent := sent + ack;
      }
    }

    /** Copy a frame into the receive buffer and pass it to the mesh. */
    method Receive(frame: seq<byte>, now: u32, scratch: Packet)
      returns (forUs: bool, p: Packet, relay: Option<seq<byte>>)
      requires Valid() && |frame| <= MAX_FRAME
      modifies ident`deviceId, mesh`relayed, mesh`dropped, mesh.cache, mesh.cache.slots
      ensures Valid() && mesh.cache.slots == old(mesh.cache.slots) && ident.Value() == WithIdLoaded(old(ident.Value()))
      ensures var o := Handle(old(mesh.cache.Value()), frame, WithIdLoaded(old(ident.Value())).id, now, scratch);
              && mesh.cache.Value() == o.ring && relay == o.relay && forUs == o.delivered.Some?
              && (forUs ==> o.delivered == Some(p))
    {
      var buf := new byte[MAX_FRAME](_ => 0);
      CopyInto(buf, 0, frame);
      assert buf[..|frame|] == frame;
      var me := ident.GetDeviceId();
      forUs, p, relay := mesh.ProcessIncoming(buf, |frame|, me, now, scratch);
    }

    /** Act on a packet by its type; pings and unknown types change nothing here. */
    method Dispatch(p: Packet, now: u32, radioOk: bool) returns (sent: seq<seq<byte>>)
      requires Valid() && StoreLaws.Safe(store.Value())
      modifies ident`deviceId, mesh.cache, mesh.cache.slots, store`count, store.msgs
      ensures Valid() && mesh.cache.slots == old(mesh.cache.slots) && StoreLaws.Safe(store.Value())
      ensures Stored(old(store.Value()), aead, netKey[..], p, now, store.Value())
      ensures var ack := Reply(aead, netKey[..], p); var me := WithIdLoaded(old(ident.Value())).id;
              && ident.Value() == (if ack.Some? then WithIdLoaded(old(ident.Value())) else old(ident.Value()))
              && sent == (if ack.Some? then [Wire(Addressed(ack.value, me))] else [])
              && mesh.cache.Value()
                 == (if ack.Some? then Added(old(mesh.cache.Value()), me, p.msgId, now) else old(mesh.cache.Value()))
    {
      sent := [];
      if p.kind == KIND_TEXT {
        var ack := HandleTextPacket(p, now, radioOk);
        if ack.Some? {
          sent := [ack.value];
        }
      } else if p.kind == KIND_ACK {
        HandleAck(p.msgId);
      }
    }

    /** Send the next message waiting; on failure it is queued again. */
    method ProcessOutgoing(inp: Input) returns (sent: seq<seq<byte>>)
      requires Valid() && StoreLaws.Safe(store.Value())
      modifies ident`deviceId, mesh.cache, mesh.cache.slots, store.msgs
      ensures Valid() && mesh.cache.slots == old(mesh.cache.slots) && StoreLaws.Safe(store.Value())
      ensures ident.Value() == old(ident.Value()) || ident.Value() == WithIdLoaded(old(ident.Value()))
      ensures OutgoingDone(aead, netKey[..], old(Me()), inp, old(Flow([])), Flow(sent))
    {
      sent := [];
      ghost var a := store.Value();
      var idx := store.NextPending();
      if idx < 0 {
        assert NonePending(a);
        return;
      }
      sent := SendWaiting(idx, inp);
    }

    /** Send the waiting message at `idx` and record how it went. */
    method SendWaiting(idx: int, inp: Input) returns (sent: seq<seq<byte>>)
      requires Valid() && StoreLaws.Safe(store.Value()) && PendingAt(store.Value(), idx)
      modifies ident`deviceId, mesh.cache, mesh.cache.slots, store.msgs
      ensures Valid() && mesh.cache.slots == old(mesh.cache.slots) && StoreLaws.Safe(store.Value())
      ensures ident.Value() == WithIdLoaded(old(ident.Value()))
      ensures OutgoingAt(aead, netKey[..], old(Me()), inp, old(Flow([])), idx, Flow(sent))
    {
      ghost var a := store.Value();
      var m := store.msgs[idx];
      assert m == a.slots[idx] && StoreLaws.TextOk(m);
      var ok, frame :=
        SendTextMessage(m.dest, m.text[..m.textLen], m.flags, inp.msgIds.0, inp.nonces.0, inp.now, inp.radioOk.1);
      sent := [frame.value];
      var s := if ok then Sent else Queued;
      store.SetState(idx, s);
      StoreLaws.StepSafe(a, StoreLaws.Move(idx, s), store.Value());
    }

    /** The user's composed text, if any. */
    method SendComposed(inp: Input) returns (sent: seq<seq<byte>>)
      requires Valid() && StoreLaws.Safe(store.Value()) && UiOk(ui.Value())
      modifies ident`deviceId, mesh.cache, mesh.cache.slots, store, store.msgs
      ensures Valid() && mesh.cache.slots == old(mesh.cache.slots) && StoreLaws.Safe(store.Value())
      ensures ident.Value() == old(ident.Value()) || ident.Value() == WithIdLoaded(old(ident.Value()))
      ensures ComposeDone(aead, netKey[..], old(Me()), inp, ui.composeDest, ui.composeBuf[..ui.composeLen],
                          old(Flow([])), Flow(sent))
    {
      sent := [];
      ComposedLength(ui.Value());
      var len := StrLen(ui.composeBuf);
      if len > 0 {
        var frame := SendUserText(ui.composeDest, ui.composeBuf[..len], inp);
        sent := [frame];
      }
    }

    /** Store a text as outgoing and send it at once; it is left queued if the radio fails. */
    method SendUserText(dest: u32, text: seq<byte>, inp: Input) returns (frame: seq<byte>)
      requires Valid() && StoreLaws.Safe(store.Value()) && |text| <= MAX_TEXT
      modifies ident`deviceId, mesh.cache, mesh.cache.slots, store, store.msgs
      ensures Valid() && mesh.cache.slots == old(mesh.cache.slots) && StoreLaws.Safe(store.Value())
      ensures ident.Value() == WithIdLoaded(old(ident.Value()))
      ensures SealedFrame(aead, netKey[..], ident.deviceId, dest, inp.msgIds.1, inp.nonces.1, FLAG_ACK_REQ, text, frame)
      ensures QueuedThenSent(old(store.Value()), dest, text, inp.now, inp.radioOk.2, store.Value())
      ensures mesh.cache.Value() == Added(old(mesh.cache.Value()), ident.deviceId, inp.msgIds.1, inp.now)
    {
      ghost var a, i, c := store.Value(), ident.Value(), mesh.cache.Value();
      var idx := QueueSending(dest, text, inp.now);
      assert ident.Value() == i && mesh.cache.Value() == c;
      ghost var b := store.Value();
      var ok, f := SendTextMessage(dest, text, FLAG_ACK_REQ, inp.msgIds.1, inp.nonces.1, inp.now, inp.radioOk.2);
      frame := f.value;
      assert store.Value() == b;
      Settle(a, idx, dest, text, inp.now, ok);
    }

    /** Record how the transmission of a just queued message went. */
    method Settle(ghost a: Store, idx: nat, ghost dest: u32, ghost text: seq<byte>, ghost now: u32, ok: bool)
      requires store.Valid() && StoreLaws.Safe(store.Value()) && InBounds(a)
               && store.counter == (a.counter + 1) % U32_RANGE
      requires idx < store.count
               && StoreLaws.Inserts(a, idx, Outgoing(store.counter, dest, text, FLAG_ACK_REQ, now).(state := Sending),
                                    store.Value())
      modifies store.msgs
      ensures store.Valid() && StoreLaws.Safe(store.Value()) && QueuedThenSent(a, dest, text, now, ok, store.Value())
    {
      ghost var c := store.Value();
      var s := if ok then Sent else Queued;
      store.SetState(idx, s);
      StoreLaws.StepSafe(c, StoreLaws.Move(idx, s), store.Value());
      ghost var m := Outgoing(c.counter, dest, text, FLAG_ACK_REQ, now);
      assert c.slots[idx] == m.(state := Sending);
      assert store.Value().slots == a.slots[idx := m.(state := s)];
      assert StoreLaws.Inserts(a, idx, m.(state := s), store.Value());
    }

    method QueueSending(dest: u32, text: seq<byte>, now: u32) returns (idx: nat)
      requires Valid() && StoreLaws.Safe(store.Value())
      modifies store, store.msgs
      ensures Valid() && StoreLaws.Safe(store.Value()) && store.counter == (old(store.counter) + 1) % U32_RANGE
      ensures idx < store.count
              && StoreLaws.Inserts(old(store.Value()), idx,
                                   Outgoing(store.counter, dest, text, FLAG_ACK_REQ, now).(state := Sending),
                                   store.Value())
    {
      ghost var a := store.Value();
      idx := store.QueueOutgoing(dest, text, FLAG_ACK_REQ, now);
      ghost var b := store.Value();
      assert StoreLaws.Inserts(a, idx, Outgoing(b.counter, dest, text, FLAG_ACK_REQ, now), b);
      StoreLaws.StepSafe(a, StoreLaws.Queue(dest, text, FLAG_ACK_REQ, now), b);
      store.SetState(idx, Sending);
      StoreLaws.StepSafe(b, StoreLaws.Move(idx, Sending), store.Value());
    }

    // ---------- The state machine and the main loop ----------

    method EnterState(s: Sys, now: u32)
      modifies this`sys, this`since
      ensures sys == s && since == now
    {
      sys := s;
      since := now;
    }

    /** Radio, outgoing queue and housekeeping, in this order. */
    method Messaging(inp: Input) returns (sent: seq<seq<byte>>)
      requires Valid() && StoreLaws.Safe(store.Value())
      modifies ident`deviceId, mesh`relayed, mesh`dropped, mesh.cache, mesh.cache.slots, store`count, store.msgs
      ensures Valid() && mesh.cache.slots == old(mesh.cache.slots) && StoreLaws.Safe(store.Value())
      ensures ident.Value() == old(ident.Value()) || ident.Value() == WithIdLoaded(old(ident.Value()))
      ensures MessagingDone(aead, netKey[..], old(Me()), inp, old(Flow([])), Flow(sent))
    {
      ghost var key, me, a := netKey[..], Me(), Flow([]);
      sent := ProcessRadio(inp);
      ghost var b := Flow(sent);
      var more := ProcessOutgoing(inp);
      ghost var c := Flow(more);
      Housekeep(inp.now);
      MessagingSteps(aead, key, me, inp, a, b, c);
      sent := sent + more;
    }

    /** Expiry and burning in the store, purging in the mesh. */
    method Housekeep(now: u32)
      requires Valid() && StoreLaws.Safe(store.Value())
      modifies mesh.cache.slots, store.msgs
      ensures Valid() && StoreLaws.Safe(store.Value()) && Flow([]) == Housekept(old(Flow([])), now)
    {
      ghost var a := store.Value();
      store.Tick(now);
      StoreLaws.StepSafe(a, StoreLaws.Tick(now), store.Value());
      mesh.Tick(now);
    }

    /** The operational loop of the idle state. */
    method IdleTick(inp: Input) returns (sent: seq<seq<byte>>)
      requires Valid() && StoreLaws.Safe(store.Value()) && UiOk(ui.Value()) && sys == IdleState
      modifies ident`deviceId, ui`screen, mesh`relayed, mesh`dropped, mesh.cache, mesh.cache.slots, store, store.msgs
      ensures Valid() && StoreLaws.Safe(store.Value())
      ensures Value() == DeviceLife.Ticked(old(Value()), inp.now, false)
              || Value() == DeviceLife.Ticked(old(Value()), inp.now, true)
      ensures IdleDone(aead, netKey[..], old(Me()), inp, ui.composeDest, old(ToSend(ui.Value())), old(Flow([])),
                       Flow(sent))
    {
      ghost var d := Value();
      sent := IdleWork(inp);
      IdleDevice(d, ident.Value(), ui.Value(), inp.now);
    }

    method IdleWork(inp: Input) returns (sent: seq<seq<byte>>)
      requires Valid() && StoreLaws.Safe(store.Value()) && UiOk(ui.Value())
      modifies ident`deviceId, ui`screen, mesh`relayed, mesh`dropped, mesh.cache, mesh.cache.slots, store, store.msgs
      ensures Valid() && StoreLaws.Safe(store.Value())
      ensures ui.Value() == if old(ui.screen) == SendingView then old(ui.Value()).(screen := Inbox) else old(ui.Value())
      ensures ident.Value() == old(ident.Value()) || ident.Value() == WithIdLoaded(old(ident.Value()))
      ensures IdleDone(aead, netKey[..], old(Me()), inp, ui.composeDest, old(ToSend(ui.Value())), old(Flow([])),
                       Flow(sent))
    {
      ghost var key, me, a, text := netKey[..], Me(), Flow([]), ToSend(ui.Value());
      sent := Messaging(inp);
      ghost var b := Flow(sent);
      var more := Composing(inp);
      IdleSteps(aead, key, me, inp, ui.composeDest, text, a, b, Flow(more));
      sent := sent + more;
    }

    method LeaveSending(ghost sent: seq<seq<byte>>)
      requires Valid()
      modifies ui`screen
      ensures ui.Value() == old(ui.Value()).(screen := Inbox) && ident.Value() == old(ident.Value())
      ensures Valid() && Flow(sent) == old(Flow(sent)) && netKey[..] == old(netKey[..])
    {
      ui.SetScreen(Inbox);
    }

    /** Send what the user composed and leave the sending screen. */
    method Composing(inp: Input) returns (sent: seq<seq<byte>>)
      requires Valid() && StoreLaws.Safe(store.Value()) && UiOk(ui.Value())
      modifies ident`deviceId, ui`screen, mesh.cache, mesh.cache.slots, store, store.msgs
      ensures Valid() && StoreLaws.Safe(store.Value())
      ensures ui.Value() == if old(ui.screen) == SendingView then old(ui.Value()).(screen := Inbox) else old(ui.Value())
      ensures ident.Value() == old(ident.Value()) || ident.Value() == WithIdLoaded(old(ident.Value()))
      ensures ComposeDone(aead, netKey[..], old(Me()), inp, ui.composeDest, old(ToSend(ui.Value())), old(Flow([])),
                          Flow(sent))
    {
      sent := [];
      if ui.screen == SendingView {
        sent := SendComposed(inp);
        LeaveSending(sent);
      }
    }

    method LoadKey(now: u32)
      requires ident.Valid() && Valid()
      modifies ident`keyLoaded, ident.netKey, netKey, this`sys, this`since
      ensures Value() == KeyLoaded(old(Value()), now)
    {
      ident.GetNetKey(netKey);
      EnterState(IdleState, now);
    }

    method BootTick(now: u32)
      requires Valid() && sys == BootState
      modifies this`sys, this`since, netKey, ui`screen, ident`keyLoaded, ident.netKey
      ensures Value() == DeviceLife.Ticked(old(Value()), now, false)
    {
      ui.SetScreen(Splash);
      if Over(now, since, SPLASH_MS) {
        var prov := ident.IsProvisioned();
        if prov {
          LoadKey(now);
          ui.SetScreen(Inbox);
        } else {
          EnterState(SetupState, now);
          ui.SetScreen(SetupWelcome);
        }
      }
    }

    /** The other states that read the radio; none of them occurs in a run with a working radio. */
    method RadioTick(inp: Input) returns (sent: seq<seq<byte>>)
      requires Valid() && StoreLaws.Safe(store.Value()) && UiOk(ui.Value())
               && sys in {SendingState, ReceivingState, TestState}
      modifies this`sys, this`since, ident`deviceId, mesh`relayed, mesh`dropped, mesh.cache, mesh.cache.slots,
               store`count, store.msgs
      ensures Valid() && StoreLaws.Safe(store.Value())
      ensures RadioDone(aead, netKey[..], old(Me()), inp, old(Flow([])), Flow(sent))
      ensures Value() == DeviceLife.Ticked(old(Value()), inp.now, false)
              || Value() == DeviceLife.Ticked(old(Value()), inp.now, true)
    {
      ghost var d := Value();
      sent := ProcessRadio(inp);
      assert Value() == d.(ident := ident.Value());
      RadioDevice(d, ident.Value(), inp.now);
      if sys == ReceivingState || (sys == SendingState && Over(inp.now, since, SEND_MS)) {
        EnterState(IdleState, inp.now);
      }
    }

    /** States that do no messaging. */
    method QuietTick(now: u32)
      requires Valid() && sys in {BootState, SetupState, PinEntryState, ErrorState}
      modifies this`sys, this`since, netKey, ui`screen, ident`keyLoaded, ident.netKey
      ensures Value() == DeviceLife.Ticked(old(Value()), now, false)
    {
      match sys
      case BootState => BootTick(now);
      case SetupState =>
        var prov := ident.IsProvisioned();
        if prov && ui.screen == Inbox {
          LoadKey(now);
        }
      case ErrorState =>
        if ui.screen != ErrorView {
          EnterState(IdleState, now);
        }
      case _ =>
    }

    method Tick(inp: Input) returns (sent: seq<seq<byte>>)
      requires Valid() && StoreLaws.Safe(store.Value()) && UiOk(ui.Value())
      modifies this`sys, this`since, netKey, ui`screen, ident`deviceId, ident`keyLoaded, ident.netKey
      modifies mesh`relayed, mesh`dropped, mesh.cache, mesh.cache.slots, store, store.msgs
      ensures Valid() && StoreLaws.Safe(store.Value())
      ensures Value() == DeviceLife.Ticked(old(Value()), inp.now, false)
              || Value() == DeviceLife.Ticked(old(Value()), inp.now, true)
      ensures PassDone(aead, old(Value()), inp, old(Flow([])), Flow(sent))
    {
      sent := [];
      match sys
      case IdleState => sent := IdleTick(inp);
      case SendingState => sent := RadioTick(inp);
      case ReceivingState => sent := RadioTick(inp);
      case TestState => sent := RadioTick(inp);
      case _ => QuietTick(inp.now);
    }

    /** Emergency wipe: messages, both keys, the PIN and the EEPROM. */
    method PanicWipe(now: u32)
      requires Valid()
      modifies this`sys, this`since, netKey, ui`screen, ident, ident.storage.cells, ident.netKey, ident.meshPin,
               store`count, store.msgs
      ensures Valid() && Value() == Wiped(old(Value()), now)
      ensures store.Value() == MessageStore.INIT.(counter := old(store.counter))
    {
      store.Clear();
      CopyInto(netKey, 0, NO_KEY);
      assert netKey[..] == netKey[..KEY_SIZE];
      ident.Wipe();
      EnterState(SetupState, now);
      ui.SetScreen(SetupWelcome);
    }

    /** Panic, or the input of a pass. */
    method TakeInput(inp: Input, derive: Derive)
      requires Valid() && StoreLaws.Safe(store.Value()) && UiOk(ui.Value())
      modifies this`sys, this`since, netKey, ui, ident, ident.storage.cells, ident.netKey, ident.meshPin, store`count,
               store.msgs
      ensures Valid() && StoreLaws.Safe(store.Value())
      ensures Value() == AfterInput(derive, old(Value()), inp)
      ensures Flow([]) == old(Flow([])).(store := StoreAfterInput(old(store.Value()), old(ui.Value()), inp.evt))
    {
      ghost var a := store.Value();
      if inp.evt == Panic {
        PanicWipe(inp.now);
        StoreLaws.StepSafe(a, StoreLaws.Clear, store.Value());
      } else if inp.evt != NoEvent {
        var pin := ui.pin[..4];
        ui.HandleInput(inp.evt, ident, store, inp.random, derive(pin));
        MarkedSafe(a, Conversation(Used(a), ui.convPeer, MAX_MESSAGES));
      }
    }

    /** One pass of the main loop: panic, input, state machine. */
    method Loop(inp: Input, derive: Derive) returns (sent: seq<seq<byte>>)
      requires Valid() && StoreLaws.Safe(store.Value()) && UiOk(ui.Value())
      modifies this, netKey, ui, ident, ident.storage.cells, ident.netKey, ident.meshPin
      modifies mesh`relayed, mesh`dropped, mesh.cache, mesh.cache.slots, store, store.msgs
      ensures Valid() && StoreLaws.Safe(store.Value()) && UiOk(ui.Value())
              && UiOk(AfterInput(derive, old(Value()), inp).ui)
      ensures || Value() == Looped(derive, old(Value()), inp.evt, inp.now, inp.random, false)
              || Value() == Looped(derive, old(Value()), inp.evt, inp.now, inp.random, true)
      ensures PassDone(aead, AfterInput(derive, old(Value()), inp), inp,
                       old(Flow([])).(store := StoreAfterInput(old(store.Value()), old(ui.Value()), inp.evt)),
                       Flow(sent))
    {
      ghost var d := Value();
      AfterInputOk(derive, d, inp);
      TakeInput(inp, derive);
      sent := Tick(inp);
    }
  }

  method InitIdentity(found: Cells) returns (ident: DeviceIdentity, netKey: array<byte>)
    ensures ident.Valid() && ident.Value() == Booted(found) && netKey.Length == KEY_SIZE && netKey[..] == NO_KEY
    ensures netKey != ident.netKey && netKey != ident.meshPin && netKey != ident.storage.cells
  {
    ident := new DeviceIdentity(found);
    netKey := ZeroBuffer(KEY_SIZE);
  }

  method InitMessaging() returns (store: MsgStore, mesh: MeshEngine)
    ensures store.Valid() && store.Value() == MessageStore.INIT && mesh.Valid() && mesh.cache.Value() == Dedup.INIT
  {
    store := new MsgStore();
    mesh := new MeshEngine();
  }

  /** Power-up: every module initialised, then the radio. */
  method Setup(found: Cells, cipher: Cipher, now: u32, radioOk: bool) returns (fw: Firmware)
    ensures fw.Valid() && fw.aead == cipher && fw.Value() == Powered(found, now, radioOk)
    ensures fw.store.Value() == MessageStore.INIT && fw.mesh.cache.Value() == Dedup.INIT
  {
    var ident, netKey := InitIdentity(found);
    var store, mesh := InitMessaging();
    var ui := new UserInterface();
    fw := new Firmware(ident, store, mesh, ui, netKey, cipher, now);
    if !radioOk {
      fw.OnError(now);
    }
  }

  /** An acknowledgement marks message `i` if and only if it is the first outgoing one stored under that identifier. */
  lemma {:induction false} AckMarks(s: seq<Message>, msgId: u32, i: nat)
    requires i < |s|
    ensures FirstOutgoing(s, msgId) == Some(i) <==>
            !s[i].incoming && s[i].msgId == msgId && forall j | 0 <= j < i :: s[j].incoming || s[j].msgId != msgId
  {
    if i > 0 {
      AckMarks(s[1..], msgId, i - 1);
      assert forall j | 0 < j < i :: s[j] == s[1..][j - 1];
      assert forall j | 0 <= j < i - 1 :: s[1..][j] == s[j + 1];
    }
  }

  /** So it makes that message delivered and leaves every other one, and everything else, as it was. */
  lemma AckDelivers(st: Store, msgId: u32, i: nat)
    requires st.count <= MAX_MESSAGES && i < MAX_MESSAGES
    ensures var b := Acknowledged(st, msgId); var m := st.slots[i];
            && b.count == st.count && b.counter == st.counter
            && b.slots[i] == if && i < st.count && !m.incoming && m.msgId == msgId
                                && (forall j | 0 <= j < i :: st.slots[j].incoming || st.slots[j].msgId != msgId)
                             then m.(state := Delivered) else m
  {
    if i < st.count {
      AckMarks(Used(st), msgId, i);
    }
  }

  lemma AfterInputOk(derive: Derive, d: Device, inp: Input)
    requires UiOk(d.ui)
    ensures var e := AfterInput(derive, d, inp);
            && UiOk(e.ui) && UiOk(DeviceLife.Ticked(e, inp.now, false).ui)
            && UiOk(DeviceLife.Ticked(e, inp.now, true).ui)
            && Looped(derive, d, inp.evt, inp.now, inp.random, false) == DeviceLife.Ticked(e, inp.now, false)
            && Looped(derive, d, inp.evt, inp.now, inp.random, true) == DeviceLife.Ticked(e, inp.now, true)
  {
    HandledOk(d.ui, inp.evt);
    var e := AfterInput(derive, d, inp);
    assert UiOk(d.ui.(screen := SetupWelcome));
    TickedUiOk(e, inp.now, false);
    TickedUiOk(e, inp.now, true);
  }

  /**
   * A composed text leaves exactly in the pass that confirms it: an idle device is never on the sending screen
   * between passes.
   */
  lemma SentWhenConfirmed(derive: Derive, d: Device, inp: Input)
    requires UiOk(d.ui) && d.sys == IdleState && InUse(d.ui.screen) && inp.evt != Panic
    ensures var e := AfterInput(derive, d, inp);
            && e.sys == IdleState && UiOk(e.ui)
            && (ToSend(e.ui) != [] <==> d.ui.screen == Compose && inp.evt == OkLong && d.ui.composeLen > 0)
            && (ToSend(e.ui) != [] ==>
                ToSend(e.ui) == d.ui.composeBuf[..d.ui.composeLen] && e.ui.composeDest == d.ui.composeDest)
  {
    HandledOk(d.ui, inp.evt);
  }

  /** Marking messages read keeps the store safe. */
  lemma {:induction false} MarkedSafe(a: Store, idx: seq<nat>)
    requires StoreLaws.Safe(a) && forall k | 0 <= k < |idx| :: idx[k] < a.count
    ensures StoreLaws.Safe(a.(slots := MarkedAt(a.slots, idx)))
  {
    if idx != [] {
      var n := |idx| - 1;
      MarkedSafe(a, idx[..n]);
      var b := a.(slots := MarkedAt(a.slots, idx[..n]));
      StoreLaws.StepSafe(b, StoreLaws.Mark(idx[n]), a.(slots := MarkedAt(a.slots, idx)));
    }
  }

  /** The text the sending screen is to send; none on another screen. */
  function ToSend(u: UiState): seq<byte>
    requires UiOk(u)
  {
    if u.screen == SendingView then u.composeBuf[..u.composeLen] else []
  }

  /** The composed text was stored as outgoing and is sent, or queued again if the radio failed. */
  ghost predicate QueuedThenSent(a: Store, dest: u32, text: seq<byte>, now: u32, radioOk: bool, b: Store)
    requires InBounds(a)
  {
    && b.counter == (a.counter + 1) % U32_RANGE
    && var m := Outgoing(b.counter, dest, text, FLAG_ACK_REQ, now).(state := if radioOk then Sent else Queued);
       exists idx: int :: StoreLaws.Inserts(a, idx, m, b)
  }

  /** The radio hands up a frame of a legal length. */
  predicate Heard(inp: Input) { inp.frame.Some? && 0 < |inp.frame.value| <= MAX_FRAME }

  function Shifted(o: Option<nat>, i: nat): Option<nat>
  {
    match o
    case None => None
    case Some(k) => Some(k + i)
  }
}
