/**
 * Texts from end to end (firmware/src/state_machine.cpp, firmware/src/message_store.cpp): what an addressee stores is
 * what the sender sealed, and what leaves the queue, also when it is sent again, is what the user composed.
 */
module Delivery {
  import opened Words
  import opened Packets
  import opened TextMessages
  import opened MessageStore
  import opened HopRadius
  import Dedup
  import Mesh
  import Network
  import FloodRounds
  import StoreLaws
  import Identity
  import Ui
  import D = DeviceLife
  import F = Firmware
  import opened Fleet

  // ---------- What the addressee stores ----------

  /** The store has taken in one more unread message, from this sender, under this identifier, with this text. */
  ghost predicate Stows(a: Store, b: Store, sender: u32, msgId: u32, text: seq<byte>)
    requires InBounds(a)
  {
    exists i: int :: StowsAt(a, i, b, sender, msgId, text)
  }

  ghost predicate StowsAt(a: Store, i: int, b: Store, sender: u32, msgId: u32, text: seq<byte>)
    requires InBounds(a)
  {
    && 0 <= i < MAX_MESSAGES
    && var m := b.slots[i];
       && StoreLaws.Inserts(a, i, m, b) && b.counter == a.counter && m.incoming && !m.read && m.state == Delivered
       && m.sender == sender && m.msgId == msgId && HoldsText(m, text)
  }

  /** An addressee of the text in copy `c`, with the sender's key, that has not cached it. */
  ghost predicate Awaits(m: Network.Net, c: Network.Copy, now: u32)
    requires c.to < |m.nodes| && c.origin.src < |m.nodes|
  {
    var v, p := m.nodes[c.to], c.origin.packet;
    && v.key == m.nodes[c.origin.src].key && p.dest in {v.id, 0xFFFF_FFFF} && p.sender != v.id
    && !Dedup.IsDup(v.ring, p.sender, p.msgId, now)
  }

  /** What such an addressee is handed up opens to the sender's text. */
  lemma HandedText(w: Network.World, m: Network.Net, c: Network.Copy, scratch: Packet, text: seq<byte>)
    requires Lawful(w.aead) && CopyOk(w, m.nodes, c) && c.origin.text == Some(text)
    requires Awaits(m, c, Dedup.Millis(m.now))
    ensures 0 < |c.frame| <= MAX_FRAME
    ensures var v := m.nodes[c.to];
            var o := Mesh.Handle(v.ring, c.frame, v.id, Dedup.Millis(m.now), scratch);
            && o.delivered.Some?
            && var p := o.delivered.value;
               && p.kind == 1 && p.sender == c.origin.packet.sender && p.msgId == c.origin.packet.msgId
               && OpenText(w.aead, v.key, p) == if |text| <= 160 then Some(text) else None
  {
    FloodRounds.JudgedCopy(w, m, c, scratch);
    AcceptedCopy(w, m, c, scratch);
    var o := Network.Judged(m, c, scratch);
    var r := Network.Receipt(c.to, c.origin.packet.sender, c.origin.packet.msgId, c.origin, c.path, o.delivered,
                             Network.Opened(w, m.nodes[c.to].key, o.delivered));
    ReceiptOpens(w, m.nodes, r);
  }

  lemma AddedText(a: Store, sender: u32, msgId: u32, flags: byte, text: seq<byte>, now: u32, b: Store)
    requires InBounds(a) && StoreLaws.Step(a, StoreLaws.Add(sender, msgId, flags, text, now), b)
    ensures if IsStored(Used(a), sender, msgId) then b == a else Stows(a, b, sender, msgId, text)
  {
    if !IsStored(Used(a), sender, msgId) {
      var m := Incoming(sender, msgId, flags, text, now);
      var i :| StoreLaws.Inserts(a, i, m, b) && b.counter == a.counter;
      StoreLaws.NewFrom(sender, msgId, flags, text, now);
      ClippedText(text);
      assert StowsAt(a, i, b, sender, msgId, text);
    }
  }

  /**
   * End to end, over every run: an addressee with the sender's key that reads a copy of a text for the first time
   * stores one unread message, from that sender and under that identifier, whose bytes are exactly the text the sender
   * sealed, unless it stored that message before or the text has more than 160 bytes; then the store is unchanged.
   */
  lemma TextStored(
      w: Network.World, net: Network.Net, run: seq<Network.Step>, c: Network.Copy, text: seq<byte>, inp: F.Input,
      a: F.Traffic, b: F.Traffic)
    requires Lawful(w.aead) && Network.Fresh(net) && Network.IsRun(w, net, run)
    requires var m := Network.After(w, net, run);
             && c in m.air && c.origin.text == Some(text) && c.to < |m.nodes| && c.origin.src < |m.nodes|
             && Awaits(m, c, inp.now) && inp.frame == Some(c.frame) && inp.now == Dedup.Millis(m.now)
             && InBounds(a.store) && a.ring == m.nodes[c.to].ring
             && F.RadioDone(w.aead, m.nodes[c.to].key, m.nodes[c.to].id, inp, a, b)
    ensures var p := c.origin.packet;
            if |text| <= 160 && !IsStored(Used(a.store), p.sender, p.msgId)
            then Stows(a.store, b.store, p.sender, p.msgId, text) else b.store == a.store
  {
    var m, p := Network.After(w, net, run), c.origin.packet;
    RunOk(w, net, run);
    HandedText(w, m, c, inp.scratch, text);
    if |text| <= 160 {
      var v := m.nodes[c.to];
      var q := Mesh.Handle(v.ring, c.frame, v.id, inp.now, inp.scratch).delivered.value;
      AddedText(a.store, q.sender, q.msgId, q.flags, text, inp.now, b.store);
    }
  }

  /** An acknowledgement that reaches its addressee for the first time is handed up as one. */
  lemma HandedAck(w: Network.World, m: Network.Net, c: Network.Copy, scratch: Packet)
    requires CopyOk(w, m.nodes, c) && c.origin.packet.kind == 2 && c.origin.packet.dest == m.nodes[c.to].id
    requires c.origin.packet.sender != m.nodes[c.to].id
    requires !Dedup.IsDup(m.nodes[c.to].ring, c.origin.packet.sender, c.origin.packet.msgId, Dedup.Millis(m.now))
    ensures 0 < |c.frame| <= MAX_FRAME
    ensures var v := m.nodes[c.to];
            var o := Mesh.Handle(v.ring, c.frame, v.id, Dedup.Millis(m.now), scratch);
            o.delivered.Some? && o.delivered.value.kind == 2 && o.delivered.value.msgId == c.origin.packet.msgId
  {
    FloodRounds.JudgedCopy(w, m, c, scratch);
    AcceptedCopy(w, m, c, scratch);
  }

  /** Slot `i` after an acknowledgement: delivered, if it is the first outgoing message under the identifier. */
  function Confirmed(st: Store, msgId: u32, i: nat): Message
    requires st.count <= MAX_MESSAGES && i < MAX_MESSAGES
  {
    if && i < st.count && !st.slots[i].incoming && st.slots[i].msgId == msgId
       && (forall j | 0 <= j < i :: st.slots[j].incoming || st.slots[j].msgId != msgId)
    then st.slots[i].(state := Delivered) else st.slots[i]
  }

  /** Over every run, a device that reads an acknowledgement for it for the first time marks exactly that message. */
  lemma AckStored(
      w: Network.World, net: Network.Net, run: seq<Network.Step>, c: Network.Copy, inp: F.Input, a: F.Traffic,
      b: F.Traffic)
    requires Network.Fresh(net) && Network.IsRun(w, net, run)
    requires var m := Network.After(w, net, run);
             && c in m.air && c.to < |m.nodes| && c.origin.packet.kind == 2
             && c.origin.packet.dest == m.nodes[c.to].id && c.origin.packet.sender != m.nodes[c.to].id
             && !Dedup.IsDup(m.nodes[c.to].ring, c.origin.packet.sender, c.origin.packet.msgId, inp.now)
             && inp.frame == Some(c.frame) && inp.now == Dedup.Millis(m.now)
             && InBounds(a.store) && a.ring == m.nodes[c.to].ring
             && F.RadioDone(w.aead, m.nodes[c.to].key, m.nodes[c.to].id, inp, a, b)
    ensures b.store == a.store.(slots := b.store.slots)
    ensures forall i: nat | i < MAX_MESSAGES :: b.store.slots[i] == Confirmed(a.store, c.origin.packet.msgId, i)
  {
    RunOk(w, net, run);
    HandedAck(w, Network.After(w, net, run), c, inp.scratch);
    var id := c.origin.packet.msgId;
    assert b.store == F.Acknowledged(a.store, id);
    forall i: nat | i < MAX_MESSAGES
      ensures b.store.slots[i] == Confirmed(a.store, id, i)
    {
      F.AckDelivers(a.store, id, i);
    }
    F.AckDelivers(a.store, id, 0);
  }

  // ---------- A pass as operations of the store ----------

  ghost predicate Leads(a: Store, ops: seq<StoreLaws.Op>, b: Store)
  {
    InBounds(a) && InBounds(b) &&
    if ops == [] then b == a
    else
      var n := |ops| - 1;
      exists m: Store :: Leads(a, ops[..n], m) && StoreLaws.Step(m, ops[n], b)
  }

  lemma LeadsNext(a: Store, ops: seq<StoreLaws.Op>, m: Store, op: StoreLaws.Op, b: Store)
    requires Leads(a, ops, m) && StoreLaws.Step(m, op, b) && InBounds(b)
    ensures Leads(a, ops + [op], b)
  {
    assert (ops + [op])[..|ops|] == ops;
  }

  lemma LeadsOne(a: Store, op: StoreLaws.Op, b: Store)
    requires InBounds(a) && InBounds(b) && StoreLaws.Step(a, op, b)
    ensures Leads(a, [op], b)
  {
    var none: seq<StoreLaws.Op> := [];
    LeadsNext(a, none, a, op, b);
    assert none + [op] == [op];
  }

  lemma {:induction false} LeadsConcat(a: Store, x: seq<StoreLaws.Op>, m: Store, y: seq<StoreLaws.Op>, b: Store)
    requires Leads(a, x, m) && Leads(m, y, b)
    ensures Leads(a, x + y, b)
    decreases |y|
  {
    if y == [] {
      assert x + y == x;
    } else {
      var n := |y| - 1;
      var k: Store :| Leads(m, y[..n], k) && StoreLaws.Step(k, y[n], b);
      LeadsConcat(a, x, m, y[..n], k);
      LeadsNext(a, x + y[..n], k, y[n], b);
      assert x + y[..n] + [y[n]] == x + y;
    }
  }

  /** No operation queues a text but the given one, for that addressee, asking for an acknowledgement. */
  predicate Queues(ops: seq<StoreLaws.Op>, dest: u32, text: seq<byte>)
  {
    forall op | op in ops && op.Queue? :: op.dest == dest && op.text == text != [] && op.flags == 2
  }

  lemma {:induction false} FirstOutgoingIn(s: seq<Message>, msgId: u32)
    ensures F.FirstOutgoing(s, msgId).Some? ==> F.FirstOutgoing(s, msgId).value < |s|
  {
    if s != [] {
      FirstOutgoingIn(s[1..], msgId);
    }
  }

  lemma StoredOps(a: Store, aead: Aead, key: Key, p: Packet, now: u32, b: Store) returns (ops: seq<StoreLaws.Op>)
    requires InBounds(a) && InBounds(b) && F.Stored(a, aead, key, p, now, b)
    ensures Leads(a, ops, b) && Queues(ops, 0, [])
  {
    ops := [];
    if p.kind == KIND_TEXT {
      if OpenText(aead, key, p).Some? {
        ops := [StoreLaws.Add(p.sender, p.msgId, p.flags, OpenText(aead, key, p).value, now)];
        LeadsOne(a, ops[0], b);
      }
    } else if p.kind == KIND_ACK && F.FirstOutgoing(Used(a), p.msgId).Some? {
      FirstOutgoingIn(Used(a), p.msgId);
      ops := [StoreLaws.Move(F.FirstOutgoing(Used(a), p.msgId).value, Delivered)];
      LeadsOne(a, ops[0], b);
    }
  }

  lemma RadioOps(aead: Aead, key: Key, me: u32, inp: F.Input, a: F.Traffic, b: F.Traffic)
    returns (ops: seq<StoreLaws.Op>)
    requires InBounds(a.store) && F.RadioDone(aead, key, me, inp, a, b)
    ensures Leads(a.store, ops, b.store) && Queues(ops, 0, [])
  {
    ops := [];
    if F.Heard(inp) {
      var o := Mesh.Handle(a.ring, inp.frame.value, me, inp.now, inp.scratch);
      if o.delivered.Some? {
        ops := StoredOps(a.store, aead, key, o.delivered.value, inp.now, b.store);
      }
    }
  }

  lemma OutgoingOps(aead: Aead, key: Key, me: u32, inp: F.Input, a: F.Traffic, b: F.Traffic)
    returns (ops: seq<StoreLaws.Op>)
    requires InBounds(a.store) && F.OutgoingDone(aead, key, me, inp, a, b)
    ensures Leads(a.store, ops, b.store) && Queues(ops, 0, [])
  {
    ops := [];
    if !F.NonePending(a.store) {
      var idx: int :| F.OutgoingAt(aead, key, me, inp, a, idx, b);
      ops := [StoreLaws.Move(idx, if inp.radioOk.1 then Sent else Queued)];
      LeadsOne(a.store, ops[0], b.store);
    }
  }

  lemma MessagingOps(aead: Aead, key: Key, me: u32, inp: F.Input, a: F.Traffic, z: F.Traffic)
    returns (ops: seq<StoreLaws.Op>)
    requires InBounds(a.store) && InBounds(z.store) && F.MessagingDone(aead, key, me, inp, a, z)
    ensures Leads(a.store, ops, z.store) && Queues(ops, 0, [])
  {
    var b: F.Traffic, c: F.Traffic :|
      F.RadioDone(aead, key, me, inp, a, b) && F.OutgoingDone(aead, key, me, inp, b, c) &&
      z == F.Housekept(c, inp.now).(sent := b.sent + c.sent);
    var x := RadioOps(aead, key, me, inp, a, b);
    var y := OutgoingOps(aead, key, me, inp, b, c);
    LeadsConcat(a.store, x, b.store, y, c.store);
    LeadsNext(a.store, x + y, c.store, StoreLaws.Tick(inp.now), z.store);
    ops := x + y + [StoreLaws.Tick(inp.now)];
  }

  lemma QueuedAt(a: Store, i: int, m: Message, s: MsgState, b: Store)
    requires InBounds(a) && InBounds(b) && StoreLaws.Inserts(a, i, m.(state := s), b)
    ensures 0 <= i < MAX_MESSAGES
    ensures var mid := b.(slots := a.slots[i := m]);
            StoreLaws.Inserts(a, i, m, mid) && StoreLaws.Step(mid, StoreLaws.Move(i, s), b)
  {
  }

  lemma ComposeOps(a: Store, dest: u32, text: seq<byte>, now: u32, radioOk: bool, b: Store)
    returns (ops: seq<StoreLaws.Op>)
    requires InBounds(a) && InBounds(b) && F.QueuedThenSent(a, dest, text, now, radioOk, b) && text != []
    ensures Leads(a, ops, b) && Queues(ops, dest, text)
  {
    var m := Outgoing(b.counter, dest, text, F.FLAG_ACK_REQ, now);
    var s := if radioOk then Sent else Queued;
    var idx: int :| StoreLaws.Inserts(a, idx, m.(state := s), b);
    QueuedAt(a, idx, m, s, b);
    var mid, op := b.(slots := a.slots[idx := m]), StoreLaws.Queue(dest, text, F.FLAG_ACK_REQ, now);
    LeadsOne(a, op, mid);
    LeadsNext(a, [op], mid, StoreLaws.Move(idx, s), b);
    ops := [op] + [StoreLaws.Move(idx, s)];
  }

  lemma IdleOps(
      aead: Aead, key: Key, me: u32, inp: F.Input, dest: u32, text: seq<byte>, a: F.Traffic, z: F.Traffic)
    returns (ops: seq<StoreLaws.Op>)
    requires InBounds(a.store) && InBounds(z.store) && F.IdleDone(aead, key, me, inp, dest, text, a, z)
    ensures Leads(a.store, ops, z.store) && Queues(ops, dest, text)
  {
    var b: F.Traffic, c: F.Traffic :|
      InBounds(b.store) && F.MessagingDone(aead, key, me, inp, a, b)
      && F.ComposeDone(aead, key, me, inp, dest, text, b, c) && z == c.(sent := b.sent + c.sent);
    var x := MessagingOps(aead, key, me, inp, a, b);
    var y: seq<StoreLaws.Op> := [];
    if text != [] {
      y := ComposeOps(b.store, dest, text, inp.now, inp.radioOk.2, c.store);
    }
    LeadsConcat(a.store, x, b.store, y, c.store);
    ops := x + y;
  }

  /** The text a pass is asked to send and its addressee; no text when nothing was confirmed. */
  function TextOf(e: D.Device): seq<byte>
    requires Ui.UiOk(e.ui)
  {
    if e.sys == D.IdleState then F.ToSend(e.ui) else []
  }

  lemma PassOps(aead: Aead, e: D.Device, inp: F.Input, a: F.Traffic, z: F.Traffic) returns (ops: seq<StoreLaws.Op>)
    requires InBounds(a.store) && InBounds(z.store) && Ui.UiOk(e.ui) && F.PassDone(aead, e, inp, a, z)
    ensures Leads(a.store, ops, z.store) && Queues(ops, e.ui.composeDest, TextOf(e))
  {
    var me := Identity.WithIdLoaded(e.ident).id;
    ops := [];
    if e.sys == D.IdleState {
      ops := IdleOps(aead, e.key, me, inp, e.ui.composeDest, F.ToSend(e.ui), a, z);
    } else if e.sys in {D.SendingState, D.ReceivingState, D.TestState} {
      ops := RadioOps(aead, e.key, me, inp, a, z);
    }
  }

  lemma {:induction false} MarkedOps(a: Store, idx: seq<nat>) returns (ops: seq<StoreLaws.Op>)
    requires InBounds(a) && forall k | 0 <= k < |idx| :: idx[k] < a.count
    ensures Leads(a, ops, a.(slots := Ui.MarkedAt(a.slots, idx))) && Queues(ops, 0, [])
  {
    ops := [];
    if idx != [] {
      var n := |idx| - 1;
      var x := MarkedOps(a, idx[..n]);
      LeadsNext(a, x, a.(slots := Ui.MarkedAt(a.slots, idx[..n])), StoreLaws.Mark(idx[n]),
                a.(slots := Ui.MarkedAt(a.slots, idx)));
      ops := x + [StoreLaws.Mark(idx[n])];
    }
  }

  lemma InputOps(a: Store, u: Ui.UiState, evt: Ui.BtnEvent) returns (ops: seq<StoreLaws.Op>)
    requires InBounds(a) && Ui.UiOk(u)
    ensures Leads(a, ops, F.StoreAfterInput(a, u, evt)) && Queues(ops, 0, [])
  {
    ops := [];
    if evt == Ui.Panic {
      ops := [StoreLaws.Clear];
      LeadsOne(a, StoreLaws.Clear, F.StoreAfterInput(a, u, evt));
    } else if evt != Ui.NoEvent && Ui.Opens(u, evt) {
      ops := MarkedOps(a, Conversation(Used(a), Ui.Handled(u, evt).convPeer, MAX_MESSAGES));
    }
  }

  // ---------- What leaves the queue ----------

  /** A pass of the whole loop of any device, as `Firmware.Loop` ensures it, and a redraw after it. */
  ghost predicate Passes(aead: Aead, derive: D.Derive, h: Handset, inp: F.Input, z: F.Traffic, h': Handset)
  {
    && Ui.UiOk(h.device.ui) && InBounds(h.store) && InBounds(z.store) && h'.ring == z.ring && h'.store == z.store
    && var e := F.AfterInput(derive, h.device, inp);
       && Ui.UiOk(e.ui)
       && F.PassDone(aead, e, inp, F.Traffic(h.ring, F.StoreAfterInput(h.store, h.device.ui, inp.evt), []), z)
  }

  /** The passes of a device from power-up on: its states, their inputs and what they send. */
  ghost predicate Lives(aead: Aead, derive: D.Derive, hs: seq<Handset>, inps: seq<F.Input>, zs: seq<F.Traffic>)
  {
    && |hs| == |inps| + 1 == |zs| + 1 && hs[0].store == INIT
    && forall i | 0 <= i < |inps| :: Passes(aead, derive, hs[i], inps[i], zs[i], hs[i + 1])
  }

  /** In this pass the user confirms this text for this addressee. */
  ghost predicate Confirms(derive: D.Derive, h: Handset, inp: F.Input, dest: u32, text: seq<byte>)
  {
    && Ui.UiOk(h.device.ui)
    && var e := F.AfterInput(derive, h.device, inp);
       Ui.UiOk(e.ui) && dest == e.ui.composeDest && text == TextOf(e) != []
  }

  ghost predicate ConfirmedBefore(
      derive: D.Derive, hs: seq<Handset>, inps: seq<F.Input>, n: nat, dest: u32, text: seq<byte>)
    requires n <= |inps| <= |hs|
  {
    exists j :: 0 <= j < n && Confirms(derive, hs[j], inps[j], dest, text)
  }

  ghost predicate AllConfirmed(
      derive: D.Derive, hs: seq<Handset>, inps: seq<F.Input>, n: nat, past: seq<StoreLaws.Op>)
    requires n <= |inps| <= |hs|
  {
    forall op | op in past && op.Queue? :: op.flags == 2 && ConfirmedBefore(derive, hs, inps, n, op.dest, op.text)
  }

  lemma {:induction false} LeadsFaithful(a: Store, ops: seq<StoreLaws.Op>, b: Store, past: seq<StoreLaws.Op>)
    requires Leads(a, ops, b) && StoreLaws.Faithful(a, past)
    ensures StoreLaws.Faithful(b, past + ops)
    decreases |ops|
  {
    if ops == [] {
      assert past + ops == past;
    } else {
      var n := |ops| - 1;
      var m: Store :| Leads(a, ops[..n], m) && StoreLaws.Step(m, ops[n], b);
      LeadsFaithful(a, ops[..n], m, past);
      FaithfulNext(m, past, ops, b);
    }
  }

  lemma FaithfulNext(m: Store, past: seq<StoreLaws.Op>, ops: seq<StoreLaws.Op>, b: Store)
    requires ops != [] && StoreLaws.Faithful(m, past + ops[..|ops| - 1]) && StoreLaws.Step(m, ops[|ops| - 1], b)
    ensures StoreLaws.Faithful(b, past + ops)
  {
    StoreLaws.StepFaithful(m, ops[|ops| - 1], b, past + ops[..|ops| - 1]);
    assert past + ops[..|ops| - 1] + [ops[|ops| - 1]] == past + ops;
  }

  /** After `n` passes the store's messages come from operations whose texts were all confirmed in those passes. */
  lemma {:induction false} LifeFaithful(
      aead: Aead, derive: D.Derive, hs: seq<Handset>, inps: seq<F.Input>, zs: seq<F.Traffic>, n: nat)
    returns (past: seq<StoreLaws.Op>)
    requires Lives(aead, derive, hs, inps, zs) && n <= |inps|
    ensures StoreLaws.Faithful(hs[n].store, past) && AllConfirmed(derive, hs, inps, n, past)
  {
    past := [];
    if n > 0 {
      past := LifeFaithful(aead, derive, hs, inps, zs, n - 1);
      past := LifeNext(aead, derive, hs, inps, zs[n - 1], n - 1, past);
    }
  }

  lemma LifeNext(
      aead: Aead, derive: D.Derive, hs: seq<Handset>, inps: seq<F.Input>, z: F.Traffic, k: nat,
      past: seq<StoreLaws.Op>)
    returns (more: seq<StoreLaws.Op>)
    requires k < |inps| && |hs| == |inps| + 1 && Passes(aead, derive, hs[k], inps[k], z, hs[k + 1])
    requires StoreLaws.Faithful(hs[k].store, past) && AllConfirmed(derive, hs, inps, k, past)
    ensures StoreLaws.Faithful(hs[k + 1].store, more) && AllConfirmed(derive, hs, inps, k + 1, more)
  {
    var ops := LoopOps(aead, derive, hs[k], inps[k], z, hs[k + 1]);
    LeadsFaithful(hs[k].store, ops, hs[k + 1].store, past);
    MoreConfirmed(derive, hs, inps, k, past, ops);
    more := past + ops;
  }

  /** A whole pass as operations of the store. */
  lemma LoopOps(aead: Aead, derive: D.Derive, h: Handset, inp: F.Input, z: F.Traffic, h': Handset)
    returns (ops: seq<StoreLaws.Op>)
    requires Passes(aead, derive, h, inp, z, h')
    ensures Leads(h.store, ops, h'.store) && QueuesConfirmed(derive, h, inp, ops)
  {
    var x := InputOps(h.store, h.device.ui, inp.evt);
    var a := F.Traffic(h.ring, F.StoreAfterInput(h.store, h.device.ui, inp.evt), []);
    var y := PassOps(aead, F.AfterInput(derive, h.device, inp), inp, a, z);
    LeadsConcat(h.store, x, a.store, y, z.store);
    ops := x + y;
  }

  /** What the pass queues is what the user confirms in it. */
  ghost predicate QueuesConfirmed(derive: D.Derive, h: Handset, inp: F.Input, ops: seq<StoreLaws.Op>)
  {
    forall op | op in ops && op.Queue? :: op.flags == 2 && Confirms(derive, h, inp, op.dest, op.text)
  }

  lemma MoreConfirmed(
      derive: D.Derive, hs: seq<Handset>, inps: seq<F.Input>, k: nat, past: seq<StoreLaws.Op>, ops: seq<StoreLaws.Op>)
    requires k < |inps| <= |hs| && AllConfirmed(derive, hs, inps, k, past)
    requires QueuesConfirmed(derive, hs[k], inps[k], ops)
    ensures AllConfirmed(derive, hs, inps, k + 1, past + ops)
  {
    forall op | op in past + ops && op.Queue?
      ensures op.flags == 2 && ConfirmedBefore(derive, hs, inps, k + 1, op.dest, op.text)
    {
      if op in past {
        var j :| 0 <= j < k && Confirms(derive, hs[j], inps[j], op.dest, op.text);
      } else {
        assert op in ops && Confirms(derive, hs[k], inps[k], op.dest, op.text);
      }
    }
  }

  /** The texts a user can confirm fit a message whole. */
  lemma ConfirmedFits(derive: D.Derive, h: Handset, inp: F.Input, dest: u32, text: seq<byte>)
    requires Confirms(derive, h, inp, dest, text)
    ensures |text| <= 160
  {
  }

  /**
   * Over the whole life of a device from power-up: whatever leaves its queue in a pass, for the first time or again, is
   * the frame of a text that the user confirmed in an earlier pass, sealed whole for the addressee it was meant for,
   * asking for an acknowledgement.
   */
  lemma QueueSendsComposed(
      aead: Aead, derive: D.Derive, hs: seq<Handset>, inps: seq<F.Input>, zs: seq<F.Traffic>, n: nat, key: Key, me: u32,
      b: F.Traffic, idx: int, c: F.Traffic)
    returns (dest: u32, text: seq<byte>)
    requires Lives(aead, derive, hs, inps, zs) && n < |inps| && Ui.UiOk(hs[n].device.ui) && InBounds(hs[n].store)
    requires Lawful(aead)
    requires var a := F.Traffic(hs[n].ring, F.StoreAfterInput(hs[n].store, hs[n].device.ui, inps[n].evt), []);
             F.RadioDone(aead, key, me, inps[n], a, b) && F.OutgoingAt(aead, key, me, inps[n], b, idx, c)
    ensures ConfirmedBefore(derive, hs, inps, n, dest, text)
    ensures |c.sent| == 1
            && IsTextFrame(aead, key, me, dest, inps[n].msgIds.0, inps[n].nonces.0, 2, text, c.sent[0])
  {
    var past := LifeFaithful(aead, derive, hs, inps, zs, n);
    var a := F.Traffic(hs[n].ring, F.StoreAfterInput(hs[n].store, hs[n].device.ui, inps[n].evt), []);
    var x := InputOps(hs[n].store, hs[n].device.ui, inps[n].evt);
    var y := RadioOps(aead, key, me, inps[n], a, b);
    LeadsFaithful(hs[n].store, x, a.store, past);
    LeadsFaithful(a.store, y, b.store, past + x);
    dest, text := QueuedText(b.store.slots[idx], past, x, y);
    WasConfirmed(derive, hs, inps, n, past, dest, text);
    SentWhole(b.store.slots[idx], text);
    SealedBytes(aead, key, me, dest, inps[n].msgIds.0, inps[n].nonces.0, 2, text);
  }

  lemma SentWhole(m: Message, text: seq<byte>)
    requires HoldsText(m, text) && |text| <= 160
    ensures m.text[..m.textLen] == text
  {
  }

  lemma WasConfirmed(
      derive: D.Derive, hs: seq<Handset>, inps: seq<F.Input>, n: nat, past: seq<StoreLaws.Op>, dest: u32,
      text: seq<byte>)
    requires n <= |inps| <= |hs| && AllConfirmed(derive, hs, inps, n, past)
    requires exists op :: op in past && op.Queue? && op.dest == dest && op.text == text
    ensures ConfirmedBefore(derive, hs, inps, n, dest, text) && |text| <= 160
  {
    var op :| op in past && op.Queue? && op.dest == dest && op.text == text;
    var j :| 0 <= j < n && Confirms(derive, hs[j], inps[j], op.dest, op.text);
    ConfirmedFits(derive, hs[j], inps[j], dest, text);
  }

  /** An outgoing message put in by some operation was queued by one that is not among `x` and `y`. */
  lemma QueuedText(m: Message, past: seq<StoreLaws.Op>, x: seq<StoreLaws.Op>, y: seq<StoreLaws.Op>)
    returns (dest: u32, text: seq<byte>)
    requires StoreLaws.PutInBy(m, past + x + y) && !m.incoming && Queues(x, 0, []) && Queues(y, 0, [])
    ensures exists op :: op in past && op.Queue? && op.dest == dest && op.text == text && op.flags == m.flags
    ensures m.dest == dest && HoldsText(m, text)
  {
    var k: nat :| k < |past + x + y| && StoreLaws.PutInAt(m, past + x + y, k);
    var op := (past + x + y)[k];
    assert op in past + x + y && op !in x && op !in y;
    dest, text := op.dest, op.text;
  }

  /**
   * What goes out of the queue is the first message waiting. It is sent for good if the radio took it; otherwise it is
   * waiting again after the same pass and goes out again, until its hour is over.
   */
  lemma ResentUntilTaken(aead: Aead, key: Key, me: u32, inp: F.Input, a: F.Traffic, idx: int, b: F.Traffic)
    requires InBounds(a.store) && F.OutgoingAt(aead, key, me, inp, a, idx, b) && InBounds(b.store)
    requires StoreLaws.Untried(a.store.slots[idx])
    ensures var m, t := a.store.slots[idx], F.Housekept(b, inp.now).store.slots[idx];
            && t == m.(state := t.state)
            && t.state == (if inp.now > m.expireAt then Expired else if inp.radioOk.1 then Sent else Sending)
            && (inp.now <= m.expireAt && !inp.radioOk.1 ==> !F.NonePending(F.Housekept(b, inp.now).store))
    ensures StoreLaws.FirstPending(Used(a.store)) == Some(a.store.slots[idx])
  {
    var m, z := a.store.slots[idx], F.Housekept(b, inp.now).store;
    StoreLaws.PendingIndex(Used(a.store), idx);
    assert Used(b.store)[idx] == b.store.slots[idx] == m.(state := if inp.radioOk.1 then Sent else Queued);
    assert z.slots[idx] == TickedMsg(b.store.slots[idx], inp.now);
  }

  // ---------- What a confirming pass sends, and what a panic leaves ----------

  /** The store holds this text as a new outgoing message for this addressee, in this state. */
  ghost predicate Keeps(a: Store, b: Store, dest: u32, text: seq<byte>, state: MsgState)
    requires InBounds(a)
  {
    exists i: int :: KeepsAt(a, i, b, dest, text, state)
  }

  ghost predicate KeepsAt(a: Store, i: int, b: Store, dest: u32, text: seq<byte>, state: MsgState)
    requires InBounds(a)
  {
    && 0 <= i < MAX_MESSAGES
    && var m := b.slots[i];
       && StoreLaws.Inserts(a, i, m, b) && b.counter == (a.counter + 1) % 0x1_0000_0000 && m.msgId == b.counter
       && !m.incoming && m.dest == dest && m.state == state && HoldsText(m, text)
  }

  lemma InsertedKept(a: Store, i: int, dest: u32, text: seq<byte>, now: u32, state: MsgState, b: Store)
    requires InBounds(a) && b.counter == (a.counter + 1) % U32_RANGE
    requires StoreLaws.Inserts(a, i, Outgoing(b.counter, dest, text, F.FLAG_ACK_REQ, now).(state := state), b)
    ensures KeepsAt(a, i, b, dest, text, state)
  {
    ClippedText(text);
  }

  lemma ComposedKept(a: Store, dest: u32, text: seq<byte>, now: u32, radioOk: bool, b: Store)
    requires InBounds(a) && F.QueuedThenSent(a, dest, text, now, radioOk, b)
    ensures Keeps(a, b, dest, text, if radioOk then Sent else Queued)
  {
    var m := Outgoing(b.counter, dest, text, F.FLAG_ACK_REQ, now);
    var s := if radioOk then Sent else Queued;
    var i: int :| StoreLaws.Inserts(a, i, m.(state := s), b);
    InsertedKept(a, i, dest, text, now, s, b);
  }

  /**
   * The pass in which the user confirms a text: its last frame is that text, sealed whole under the device's key for
   * the addressee on the compose screen and asking for an acknowledgement, and the store keeps it as sent, or as queued
   * when the radio fails.
   */
  lemma ConfirmedGoesOut(aead: Aead, derive: D.Derive, h: Handset, inp: F.Input, z: F.Traffic, h': Handset)
    returns (before: Store)
    requires Lawful(aead) && Passes(aead, derive, h, inp, z, h')
    requires h.device.sys == D.IdleState && h.device.ui.screen == Ui.Compose && inp.evt == Ui.OkLong
    requires h.device.ui.composeLen > 0
    ensures InBounds(before)
    ensures var u, me := h.device.ui, Identity.WithIdLoaded(h.device.ident).id;
            var text := u.composeBuf[..u.composeLen];
            && z.sent != []
            && IsTextFrame(aead, h.device.key, me, u.composeDest, inp.msgIds.1, inp.nonces.1, 2, text,
                           z.sent[|z.sent| - 1])
            && Keeps(before, h'.store, u.composeDest, text, if inp.radioOk.2 then Sent else Queued)
  {
    var u, me := h.device.ui, Identity.WithIdLoaded(h.device.ident).id;
    var text := u.composeBuf[..u.composeLen];
    F.SentWhenConfirmed(derive, h.device, inp);
    var a := F.Traffic(h.ring, F.StoreAfterInput(h.store, u, inp.evt), []);
    before := TextGoesOut(aead, h.device.key, me, inp, u.composeDest, text, a, z);
  }

  /** The same of an idle pass. */
  lemma TextGoesOut(
      aead: Aead, key: Key, me: u32, inp: F.Input, dest: u32, text: seq<byte>, a: F.Traffic, z: F.Traffic)
    returns (before: Store)
    requires Lawful(aead) && InBounds(a.store) && 0 < |text| <= 200
    requires F.IdleDone(aead, key, me, inp, dest, text, a, z)
    ensures InBounds(before) && z.sent != []
    ensures IsTextFrame(aead, key, me, dest, inp.msgIds.1, inp.nonces.1, 2, text, z.sent[|z.sent| - 1])
    ensures Keeps(before, z.store, dest, text, if inp.radioOk.2 then Sent else Queued)
  {
    var b: F.Traffic, c: F.Traffic :|
      InBounds(b.store) && F.MessagingDone(aead, key, me, inp, a, b)
      && F.ComposeDone(aead, key, me, inp, dest, text, b, c) && z == c.(sent := b.sent + c.sent);
    before := b.store;
    ComposedKept(b.store, dest, text, inp.now, inp.radioOk.2, c.store);
    SealedBytes(aead, key, me, dest, inp.msgIds.1, inp.nonces.1, 2, text);
    assert z.sent[|z.sent| - 1] == c.sent[0];
  }

  /** After the pass of a panic no message and no byte of a text is left, and nothing was sent. */
  lemma PanicEmpties(aead: Aead, derive: D.Derive, h: Handset, inp: F.Input, z: F.Traffic, h': Handset)
    requires Passes(aead, derive, h, inp, z, h') && inp.evt == Ui.Panic
    ensures h'.store.count == 0 && z.sent == [] && h'.ring == h.ring
    ensures forall i, k | 0 <= i < 32 && 0 <= k < 161 :: h'.store.slots[i].text[k] == 0
  {
    assert h'.store.slots == INIT.slots;
  }
}
