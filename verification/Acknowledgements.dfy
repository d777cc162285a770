/**
 * Acknowledgements over all runs of the network (firmware/src/state_machine.cpp): who sends them, to whom, for what,
 * how often, and where they end.
 */
module Acknowledgements {
  import opened Words
  import opened Packets
  import opened Mesh
  import opened TextMessages
  import opened Network
  import opened HopRadius

  /** An acknowledgement: who sends it, to whom, and for which identifier. */
  datatype Due = Due(node: nat, to: u32, msgId: u32)

  /** The receipt of a text that the receiver opened and whose sender asked for an acknowledgement. */
  predicate Owes(r: Receipt) { r.origin.text.Some? && r.text.Some? && r.origin.packet.flags / 2 % 2 == 1 }

  /** The acknowledgements that receipts call for, in order: back to the device the text came from. */
  function DuesOf(receipts: seq<Receipt>): seq<Due>
  {
    if receipts == [] then []
    else
      var r := receipts[|receipts| - 1];
      DuesOf(receipts[..|receipts| - 1]) +
      if Owes(r) then [Due(r.node, r.origin.packet.sender, r.origin.packet.msgId)] else []
  }

  /** A first transmission of a packet of type 2. */
  predicate IsAck(e: Sent) { !e.relayed && e.origin.packet.kind == 2 }

  /** The acknowledgements that nodes have originated, in order. */
  function AcksOf(sent: seq<Sent>): seq<Due>
  {
    if sent == [] then []
    else
      var e := sent[|sent| - 1];
      AcksOf(sent[..|sent| - 1]) +
      if IsAck(e) then [Due(e.node, e.origin.packet.dest, e.origin.packet.msgId)] else []
  }

  /** An acknowledgement goes out with ttl 3, no flags and no payload. */
  ghost predicate Bare(nodes: seq<Node>, e: Sent)
  {
    && e.origin.src == e.node < |nodes| && e.origin.text == None
    && var p := e.origin.packet;
       p == Packet(1, 2, nodes[e.node].id, p.dest, p.msgId, 3, 0, Repeat(0, 12), 0, Repeat(0, 200), Repeat(0, 16))
  }

  /** Somebody originated `o`. */
  ghost predicate Originated(sent: seq<Sent>, o: Origin)
  {
    exists k :: 0 <= k < |sent| && FirstSent(sent[k], o)
  }

  ghost predicate FirstSent(e: Sent, o: Origin) { !e.relayed && e.origin == o && e.node == o.src }

  ghost predicate Accounted(net: Net)
  {
    && AcksOf(net.sent) == DuesOf(net.receipts)
    && (forall k | 0 <= k < |net.sent| && IsAck(net.sent[k]) :: Bare(net.nodes, net.sent[k]))
    && (forall c | c in net.air :: Originated(net.sent, c.origin))
    && (forall r | r in net.receipts :: Originated(net.sent, r.origin))
  }

  // ---------- Preservation ----------

  lemma AcksNext(sent: seq<Sent>, e: Sent)
    ensures AcksOf(sent + [e]) ==
            AcksOf(sent) + if IsAck(e) then [Due(e.node, e.origin.packet.dest, e.origin.packet.msgId)] else []
    ensures forall o | Originated(sent, o) :: Originated(sent + [e], o)
    ensures FirstSent(e, e.origin) ==> Originated(sent + [e], e.origin)
  {
    assert (sent + [e])[..|sent|] == sent;
    forall o | Originated(sent, o)
      ensures Originated(sent + [e], o)
    {
      var k :| 0 <= k < |sent| && FirstSent(sent[k], o);
      assert FirstSent((sent + [e])[k], o);
    }
    if FirstSent(e, e.origin) {
      assert FirstSent((sent + [e])[|sent|], e.origin);
    }
  }

  lemma DuesNext(receipts: seq<Receipt>, r: Receipt)
    ensures DuesOf(receipts + [r]) ==
            DuesOf(receipts) + if Owes(r) then [Due(r.node, r.origin.packet.sender, r.origin.packet.msgId)] else []
  {
    assert (receipts + [r])[..|receipts|] == receipts;
  }

  lemma CachedAccounted(net: Net, i: nat, sender: u32, msgId: u32)
    requires Accounted(net) && i < |net.nodes|
    ensures Accounted(Cached(net, i, sender, msgId))
  {
    var m := Cached(net, i, sender, msgId);
    assert forall j | 0 <= j < |m.nodes| :: m.nodes[j].id == net.nodes[j].id;
    assert forall k | 0 <= k < |net.sent| && IsAck(net.sent[k]) :: Bare(net.nodes, net.sent[k]);
  }

  /** What an acceptance relays changes no account. */
  lemma RelayingAccounted(w: World, net: Net, c: Copy, p: Packet, o: Outcome)
    requires Accounted(net) && c.to < |net.nodes| && Originated(net.sent, c.origin)
    ensures Accounted(Relaying(w, net, c, p, o)) && Originated(Relaying(w, net, c, p, o).sent, c.origin)
  {
    CachedAccounted(net, c.to, p.sender, p.msgId);
    if o.relay.Some? {
      var m := Cached(net, c.to, p.sender, p.msgId);
      FanCopies(w, |m.nodes|, c.to, o.relay.value, c.origin, c.path + [c.to]);
      AcksNext(m.sent, Sent(c.to, p.sender, p.msgId, true, c.origin));
    }
  }

  /** The receipt owes an acknowledgement exactly when the receiver sends one, and to the same effect. */
  lemma OwesReply(w: World, nodes: seq<Node>, r: Receipt)
    requires ReceiptOk(w, nodes, r)
    ensures Owes(r) <==> r.handed.Some? && Reply(w.aead, nodes[r.node].key, r.handed.value).Some?
    ensures r.handed.Some? ==>
            r.handed.value.sender == r.origin.packet.sender && r.handed.value.msgId == r.origin.packet.msgId
  {
    WithRelayedBits(r.origin.packet.flags);
    if r.origin.text.Some? {
      assert r.origin.packet.kind == KIND_TEXT;
    }
  }

  lemma AckLaunched(w: World, net: Net, i: nat, to: u32, msgId: u32)
    requires i < |net.nodes|
    requires (forall k | 0 <= k < |net.sent| && IsAck(net.sent[k]) :: Bare(net.nodes, net.sent[k]))
    requires (forall c | c in net.air :: Originated(net.sent, c.origin))
    requires (forall r | r in net.receipts :: Originated(net.sent, r.origin))
    requires AcksOf(net.sent) + [Due(i, to, msgId)] == DuesOf(net.receipts)
    ensures Accounted(Launched(w, net, i, ZERO_PACKET.(kind := 2, dest := to, msgId := msgId), None))
  {
    var q := Addressed(ZERO_PACKET.(kind := 2, dest := to, msgId := msgId), net.nodes[i].id);
    var o := Origin(i, q, None);
    FanCopies(w, |net.nodes|, i, Wire(q), o, [i]);
    AcksNext(net.sent, Sent(i, q.sender, msgId, false, o));
    var m := Launched(w, net, i, ZERO_PACKET.(kind := 2, dest := to, msgId := msgId), None);
    forall k | 0 <= k < |m.sent| && IsAck(m.sent[k])
      ensures Bare(m.nodes, m.sent[k])
    {
      assert k < |net.sent| ==> m.sent[k] == net.sent[k];
    }
  }

  lemma AckingAccounted(w: World, m: Net, r: Receipt)
    requires Accounted(m) && r.node < |m.nodes| && Originated(m.sent, r.origin)
    requires Owes(r) <==> r.handed.Some? && Reply(w.aead, m.nodes[r.node].key, r.handed.value).Some?
    requires r.handed.Some? ==>
             r.handed.value.sender == r.origin.packet.sender && r.handed.value.msgId == r.origin.packet.msgId
    ensures Accounted(Acking(w, m.(receipts := m.receipts + [r]), r.node, r.handed))
  {
    var n := m.(receipts := m.receipts + [r]);
    DuesNext(m.receipts, r);
    if Owes(r) {
      AckLaunched(w, n, r.node, r.origin.packet.sender, r.origin.packet.msgId);
    } else {
      assert Accounted(n);
    }
  }

  lemma AcceptingAccounted(w: World, net: Net, c: Copy, scratch: Packet)
    requires Accounted(net) && CopyOk(w, net.nodes, c) && Originated(net.sent, c.origin) && Readable(c, net)
    requires Judged(net, c, scratch).verdict == Accepted
    ensures Accounted(Accepting(w, net, c, Parse(c.frame, scratch).value, Judged(net, c, scratch)))
  {
    var p, o := Parse(c.frame, scratch).value, Judged(net, c, scratch);
    var r := Receipt(c.to, p.sender, p.msgId, c.origin, c.path, o.delivered,
                     Opened(w, net.nodes[c.to].key, o.delivered));
    var m := Relaying(w, net, c, p, o);
    RelayingAccounted(w, net, c, p, o);
    KeyKept(w, net, c, p, o);
    assert Owes(r) <==> r.handed.Some? && Reply(w.aead, m.nodes[r.node].key, r.handed.value).Some? by {
      AcceptedCopy(w, net, c, scratch);
      OwesReply(w, net.nodes, r);
    }
    assert r.handed.Some? ==>
           r.handed.value.sender == r.origin.packet.sender && r.handed.value.msgId == r.origin.packet.msgId by {
      AcceptedCopy(w, net, c, scratch);
      OwesReply(w, net.nodes, r);
    }
    AckingAccounted(w, m, r);
  }

  lemma KeyKept(w: World, net: Net, c: Copy, p: Packet, o: Outcome)
    requires c.to < |net.nodes|
    ensures var m := Relaying(w, net, c, p, o);
            && |m.nodes| == |net.nodes| && m.nodes[c.to].key == net.nodes[c.to].key
            && var r := Receipt(c.to, p.sender, p.msgId, c.origin, c.path, o.delivered,
                                Opened(w, net.nodes[c.to].key, o.delivered));
               Accepting(w, net, c, p, o) == Acking(w, m.(receipts := m.receipts + [r]), c.to, o.delivered)
  {
  }

  lemma TextLaunched(w: World, net: Net, i: nat, p: Packet, text: seq<byte>)
    requires Accounted(net) && i < |net.nodes| && p.payloadLen <= MAX_PAYLOAD && p.kind == 1
    ensures Accounted(Launched(w, net, i, p, Some(text)))
  {
    var q := Addressed(p, net.nodes[i].id);
    var o := Origin(i, q, Some(text));
    CachedAccounted(net, i, q.sender, q.msgId);
    FanCopies(w, |net.nodes|, i, Wire(q), o, [i]);
    AcksNext(net.sent, Sent(i, q.sender, q.msgId, false, o));
  }

  lemma ReceivedAccounted(w: World, net: Net, c: Copy, scratch: Packet)
    requires Accounted(net) && CopyOk(w, net.nodes, c) && Originated(net.sent, c.origin)
    ensures Accounted(Received(w, net, c, scratch))
  {
    if Readable(c, net) {
      if Judged(net, c, scratch).verdict == Accepted {
        AcceptingAccounted(w, net, c, scratch);
      } else if Judged(net, c, scratch).verdict == BadTtl {
        CachedAccounted(net, c.to, Parse(c.frame, scratch).value.sender, Parse(c.frame, scratch).value.msgId);
      }
    }
  }

  lemma PurgedAccounted(w: World, net: Net, i: nat)
    requires Accounted(net) && i < |net.nodes|
    ensures Accounted(Next(w, net, Purge(i)))
  {
    var m := Next(w, net, Purge(i));
    assert forall j | 0 <= j < |m.nodes| :: m.nodes[j].id == net.nodes[j].id;
    assert forall k | 0 <= k < |net.sent| && IsAck(net.sent[k]) :: Bare(net.nodes, net.sent[k]);
  }

  lemma WithoutAccounted(w: World, net: Net, k: nat)
    requires Accounted(net) && NetOk(w, net) && k < |net.air|
    ensures Accounted(Without(net, k))
    ensures Originated(net.sent, net.air[k].origin) && CopyOk(w, net.nodes, net.air[k])
  {
    assert net.air[k] in net.air;
    assert forall c | c in Without(net, k).air :: c in net.air;
  }

  lemma StepAccounted(w: World, net: Net, s: Step)
    requires Accounted(net) && NetOk(w, net) && Enabled(net, s)
    ensures Accounted(Next(w, net, s))
  {
    match s
    case Deliver(k, scratch) =>
      WithoutAccounted(w, net, k);
      ReceivedAccounted(w, Without(net, k), net.air[k], scratch);
    case Lose(k) => WithoutAccounted(w, net, k);
    case SendText(src, dest, msgId, nonce, text, flags) =>
      var p := SealText(w.aead, net.nodes[src].key, Draft(net.nodes[src].id, dest, msgId, nonce, flags), text);
      if p.Some? && p.value.payloadLen <= MAX_PAYLOAD {
        TextLaunched(w, net, src, p.value, text);
      }
    case Purge(i) => PurgedAccounted(w, net, i);
    case Wait(_) =>
  }

  lemma {:induction false} RunAccounted(w: World, net: Net, run: seq<Step>)
    requires Accounted(net) && NetOk(w, net) && IsRun(w, net, run)
    ensures Accounted(After(w, net, run)) && NetOk(w, After(w, net, run))
  {
    RunOk(w, net, run);
    if run != [] {
      var r := run[..|run| - 1];
      RunAccounted(w, net, r);
      StepAccounted(w, After(w, net, r), run[|run| - 1]);
    }
  }

  // ---------- What it means ----------

  /**
   * Over every run the acknowledgements originated are, one for one and in order, the receipts of texts that opened and
   * asked for one: each goes from the receiver to the device that sent the text and names the text's identifier.
   */
  lemma AcksExactly(w: World, net: Net, run: seq<Step>)
    requires Fresh(net) && IsRun(w, net, run)
    ensures var m := After(w, net, run);
            && AcksOf(m.sent) == DuesOf(m.receipts)
            && forall k | 0 <= k < |m.sent| && IsAck(m.sent[k]) :: Bare(m.nodes, m.sent[k])
  {
    RunAccounted(w, net, run);
  }

  lemma {:induction false} AckListed(sent: seq<Sent>, k: nat)
    requires k < |sent| && IsAck(sent[k])
    ensures Due(sent[k].node, sent[k].origin.packet.dest, sent[k].origin.packet.msgId) in AcksOf(sent)
  {
    if k < |sent| - 1 {
      AckListed(sent[..|sent| - 1], k);
    }
  }

  /** `t` is the receipt that calls for the acknowledgement `d`. */
  ghost predicate CallsFor(t: Receipt, d: Due)
  {
    Owes(t) && d == Due(t.node, t.origin.packet.sender, t.origin.packet.msgId)
  }

  lemma {:induction false} DueListed(receipts: seq<Receipt>, d: Due) returns (t: Receipt)
    requires d in DuesOf(receipts)
    ensures t in receipts && CallsFor(t, d)
  {
    var r := receipts[|receipts| - 1];
    if CallsFor(r, d) {
      t := r;
    } else {
      t := DueListed(receipts[..|receipts| - 1], d);
    }
  }

  /** Behind every acknowledgement received is a receipt that called for it. */
  lemma AckAnswers(m: Net, r: Receipt) returns (t: Receipt)
    requires Accounted(m) && r in m.receipts && r.origin.packet.kind == 2
    ensures t in m.receipts && CallsFor(t, Due(r.origin.src, r.origin.packet.dest, r.origin.packet.msgId))
  {
    var k :| 0 <= k < |m.sent| && FirstSent(m.sent[k], r.origin);
    AckListed(m.sent, k);
    t := DueListed(m.receipts, Due(r.origin.src, r.origin.packet.dest, r.origin.packet.msgId));
  }

  lemma HandedAtSender(w: World, m: Net, r: Receipt, t: Receipt)
    requires GoodIds(m) && ReceiptOk(w, m.nodes, r) && ReceiptOk(w, m.nodes, t)
    requires t.origin.packet.sender == r.origin.packet.dest && r.origin.packet.kind == 2
    ensures r.handed.Some? <==> r.node == t.origin.src
    ensures r.handed.Some? ==> r.handed.value.kind == 2 && r.handed.value.msgId == r.msgId
  {
  }

  lemma IdsKept(w: World, net: Net, run: seq<Step>)
    requires GoodIds(net) && IsRun(w, net, run)
    ensures GoodIds(After(w, net, run))
  {
    RunGrows(w, net, run, 0);
    assert run[..0] == [];
    var m := After(w, net, run);
    assert forall i | 0 <= i < |net.nodes| :: SameNode(net.nodes[i], m.nodes[i]);
  }

  /**
   * Wherever an acknowledgement is accepted, it answers a text that its sender had received, opened and been asked to
   * acknowledge; it is handed up at the node that sent that text and at no other.
   */
  lemma AckReachesSender(w: World, net: Net, run: seq<Step>, r: Receipt) returns (t: Receipt)
    requires Fresh(net) && GoodIds(net) && IsRun(w, net, run) && r in After(w, net, run).receipts
    requires r.origin.packet.kind == 2
    ensures t in After(w, net, run).receipts && Owes(t) && t.node == r.origin.src && t.msgId == r.msgId
    ensures r.handed.Some? <==> r.node == t.origin.src
    ensures r.handed.Some? ==> r.handed.value.kind == 2 && r.handed.value.msgId == t.msgId
  {
    RunAccounted(w, net, run);
    t := AckAnswers(After(w, net, run), r);
    IdsKept(w, net, run);
    HandedAtSender(w, After(w, net, run), r, t);
  }
}
