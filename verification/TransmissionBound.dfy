/**
 * How often one packet is transmitted: within a minute, and while no node caches more than 64 keys, every
 * node accepts and relays a given (sender, msgId) at most once, so N nodes cause at most N transmissions.
 */
module TransmissionBound {
  import opened Words
  import opened Packets
  import opened Dedup
  import opened Mesh
  import opened TextMessages
  import opened Network

  ghost predicate AllTrack(net: Net)
  {
    forall i | 0 <= i < |net.nodes| :: NodeTracks(net.nodes[i], net.now)
  }

  ghost predicate NodeTracks(v: Node, now: nat) { Tracks(v.ring, v.log, now) }

  lemma CachedTracks(net: Net, i: nat, sender: u32, msgId: u32)
    requires AllTrack(net) && i < |net.nodes|
    ensures AllTrack(Cached(net, i, sender, msgId))
  {
    var m := Cached(net, i, sender, msgId);
    forall j | 0 <= j < |m.nodes|
      ensures NodeTracks(m.nodes[j], m.now)
    {
      assert NodeTracks(net.nodes[j], net.now);
      if j == i {
        AddTracks(net.nodes[i].ring, net.nodes[i].log, net.now, sender, msgId);
      }
    }
  }

  lemma AcceptingTracks(w: World, net: Net, c: Copy, p: Packet, o: Outcome)
    requires AllTrack(net) && c.to < |net.nodes|
    ensures AllTrack(Accepting(w, net, c, p, o))
  {
    CachedTracks(net, c.to, p.sender, p.msgId);
    var n := Noted(w, Relaying(w, net, c, p, o), c, p, o);
    assert n.nodes == Cached(net, c.to, p.sender, p.msgId).nodes;
    if o.delivered.Some? && Reply(w.aead, n.nodes[c.to].key, o.delivered.value).Some? {
      CachedTracks(n, c.to, n.nodes[c.to].id, o.delivered.value.msgId);
    }
  }

  lemma ReceivedTracks(w: World, net: Net, c: Copy, scratch: Packet)
    requires AllTrack(net)
    ensures AllTrack(Received(w, net, c, scratch))
  {
    if Readable(c, net) && Judged(net, c, scratch).verdict in {Accepted, BadTtl} {
      var p := Parse(c.frame, scratch).value;
      CachedTracks(net, c.to, p.sender, p.msgId);
      AcceptingTracks(w, net, c, p, Judged(net, c, scratch));
    }
  }

  lemma SameNodesTrack(a: Net, b: Net)
    requires AllTrack(a) && a.nodes == b.nodes && a.now == b.now
    ensures AllTrack(b)
  {
    assert forall i | 0 <= i < |b.nodes| :: NodeTracks(a.nodes[i], a.now);
  }

  /** Every step keeps every node's ring standing for its log. */
  lemma StepTracks(w: World, net: Net, s: Step)
    requires AllTrack(net) && Enabled(net, s)
    ensures AllTrack(Next(w, net, s))
  {
    match s
    case Deliver(k, scratch) =>
      SameNodesTrack(net, Without(net, k));
      ReceivedTracks(w, Without(net, k), net.air[k], scratch);
    case Lose(k) =>
      SameNodesTrack(net, Without(net, k));
    case SendText(src, dest, msgId, nonce, text, flags) =>
      CachedTracks(net, src, net.nodes[src].id, msgId);
    case _ =>
      var m := Next(w, net, s);
      forall i | 0 <= i < |m.nodes|
        ensures NodeTracks(m.nodes[i], m.now)
      {
        var v := net.nodes[i];
        assert NodeTracks(v, net.now);
        TickTracks(v.ring, v.log, net.now);
        WaitTracks(v.ring, v.log, net.now, m.now);
      }
  }

  lemma {:induction false} RunTracks(w: World, net: Net, run: seq<Step>)
    requires AllTrack(net) && IsRun(w, net, run)
    ensures AllTrack(After(w, net, run))
  {
    if run != [] {
      RunTracks(w, net, run[..|run| - 1]);
      StepTracks(w, After(w, net, run[..|run| - 1]), run[|run| - 1]);
    }
  }

  // ---------- At most once ----------

  datatype Id = Id(sender: u32, msgId: u32)

  ghost predicate IsRelayOf(e: Sent, id: Id) { e.relayed && Carries(e, id) }
  ghost predicate IsReceiptOf(e: Receipt, id: Id) { e.sender == id.sender && e.msgId == id.msgId }

  ghost predicate KeyAt(v: Node, j: nat, id: Id)
    requires j < |v.log|
  {
    v.log[j].sender == id.sender && v.log[j].msgId == id.msgId
  }

  /** Node `i` has cached `id` since the run began in `start`. */
  ghost predicate LoggedSince(start: Net, m: Net, i: nat, id: Id)
  {
    && i < |start.nodes| && i < |m.nodes|
    && exists j ::
       |start.nodes[i].log| <= j < |m.nodes[i].log| && KeyAt(m.nodes[i], j, id) && m.nodes[i].log[j].at >= start.now
  }

  /** The run so far lasted under a minute and no node cached more than 64 keys in it. */
  ghost predicate Brief(start: Net, m: Net)
  {
    && m.now - start.now < 60000
    && |m.nodes| == |start.nodes|
    && forall i | 0 <= i < |m.nodes| :: |m.nodes[i].log| - |start.nodes[i].log| <= 64
  }

  /** Relays and receipts of `id` come from distinct nodes, which cached it and are not its sender. */
  ghost predicate Once(start: Net, m: Net, id: Id)
  {
    && (forall a | 0 <= a < |m.sent| && IsRelayOf(m.sent[a], id) ::
          LoggedSince(start, m, m.sent[a].node, id) && m.nodes[m.sent[a].node].id != id.sender)
    && (forall a | 0 <= a < |m.receipts| && IsReceiptOf(m.receipts[a], id) ::
          LoggedSince(start, m, m.receipts[a].node, id) && m.nodes[m.receipts[a].node].id != id.sender)
    && (forall a, b | 0 <= a < b < |m.sent| && IsRelayOf(m.sent[a], id) && IsRelayOf(m.sent[b], id) ::
          m.sent[a].node != m.sent[b].node)
    && (forall a, b | 0 <= a < b < |m.receipts| && IsReceiptOf(m.receipts[a], id) && IsReceiptOf(m.receipts[b], id) ::
          m.receipts[a].node != m.receipts[b].node)
  }

  lemma LoggedGrows(start: Net, a: Net, b: Net, i: nat, id: Id)
    requires Grown(a, b) && LoggedSince(start, a, i, id)
    ensures LoggedSince(start, b, i, id)
  {
    var j :| |start.nodes[i].log| <= j < |a.nodes[i].log| && KeyAt(a.nodes[i], j, id)
      && a.nodes[i].log[j].at >= start.now;
    assert SameNode(a.nodes[i], b.nodes[i]);
    assert KeyAt(b.nodes[i], j, id);
  }

  /** In a brief run a node that has cached a key reports it as a duplicate. */
  lemma CachedIsDuplicate(start: Net, m: Net, i: nat, id: Id)
    requires LoggedSince(start, m, i, id) && AllTrack(m) && m.now - start.now < TTL_MS
    requires |m.nodes[i].log| - |start.nodes[i].log| <= SIZE
    ensures IsDup(m.nodes[i].ring, id.sender, id.msgId, Millis(m.now))
  {
    var v := m.nodes[i];
    var j :| |start.nodes[i].log| <= j < |v.log| && KeyAt(v, j, id) && v.log[j].at >= start.now;
    assert NodeTracks(v, m.now);
    assert SeenAt(v.log[j], id.sender, id.msgId, m.now) && InWindow(v.log, j);
    FreshIsDuplicate(v.ring, v.log, m.now, id.sender, id.msgId);
  }

  /** Steps that neither relay nor accept `id` keep the invariant. */
  lemma QuietKeepsOnce(start: Net, a: Net, b: Net, id: Id)
    requires Once(start, a, id) && Grown(a, b)
    requires b.receipts == a.receipts
    requires forall k | |a.sent| <= k < |b.sent| :: !b.sent[k].relayed
    ensures Once(start, b, id)
  {
    forall k | 0 <= k < |b.sent| && IsRelayOf(b.sent[k], id)
      ensures LoggedSince(start, b, b.sent[k].node, id) && b.nodes[b.sent[k].node].id != id.sender
    {
      assert b.sent[k] == a.sent[k];
      LoggedGrows(start, a, b, a.sent[k].node, id);
      assert SameNode(a.nodes[a.sent[k].node], b.nodes[a.sent[k].node]);
    }
    forall k | 0 <= k < |b.receipts| && IsReceiptOf(b.receipts[k], id)
      ensures LoggedSince(start, b, b.receipts[k].node, id) && b.nodes[b.receipts[k].node].id != id.sender
    {
      LoggedGrows(start, a, b, a.receipts[k].node, id);
      assert SameNode(a.nodes[a.receipts[k].node], b.nodes[a.receipts[k].node]);
    }
    assert forall k | 0 <= k < |b.sent| && IsRelayOf(b.sent[k], id) :: k < |a.sent| && b.sent[k] == a.sent[k];
  }

  /** One more receipt and at most one more relay, both by node `i` with key `key`, which `i` had not cached. */
  lemma OneMoreKeepsOnce(start: Net, a: Net, b: Net, i: nat, key: Id, origin: Origin, id: Id)
    requires Once(start, a, id) && Grown(a, b) && i < |b.nodes|
    requires b.sent == a.sent || b.sent == a.sent + [Sent(i, key.sender, key.msgId, true, origin)]
    requires |b.receipts| == |a.receipts| + 1
    requires b.receipts[|a.receipts|].node == i && IsReceiptOf(b.receipts[|a.receipts|], key)
    requires id == key ==> !LoggedSince(start, a, i, id) && LoggedSince(start, b, i, id) && b.nodes[i].id != id.sender
    ensures Once(start, b, id)
  {
    forall k: nat | k < |a.sent| && IsRelayOf(a.sent[k], id)
      ensures LoggedSince(start, b, a.sent[k].node, id) && b.nodes[a.sent[k].node].id != id.sender
    {
      LoggedGrows(start, a, b, a.sent[k].node, id);
      assert SameNode(a.nodes[a.sent[k].node], b.nodes[a.sent[k].node]);
    }
    forall k: nat | k < |a.receipts| && IsReceiptOf(a.receipts[k], id)
      ensures LoggedSince(start, b, a.receipts[k].node, id) && b.nodes[a.receipts[k].node].id != id.sender
    {
      LoggedGrows(start, a, b, a.receipts[k].node, id);
      assert SameNode(a.nodes[a.receipts[k].node], b.nodes[a.receipts[k].node]);
    }
    assert forall k: nat | k < |a.sent| :: b.sent[k] == a.sent[k];
    assert forall k: nat | k < |a.receipts| :: b.receipts[k] == a.receipts[k];
  }

  lemma AcceptingEffects(w: World, net: Net, c: Copy, p: Packet, o: Outcome)
    requires c.to < |net.nodes|
    ensures var m := Noted(w, Relaying(w, net, c, p, o), c, p, o);
            && Grown(net, m) && |m.receipts| == |net.receipts| + 1
            && m.receipts[|net.receipts|].node == c.to && IsReceiptOf(m.receipts[|net.receipts|], Id(p.sender, p.msgId))
            && (m.sent == net.sent || m.sent == net.sent + [Sent(c.to, p.sender, p.msgId, true, c.origin)])
            && m.nodes[c.to].log == net.nodes[c.to].log + [Seen(p.sender, p.msgId, net.now)]
  {
  }

  /** Accepting keeps it, because a node that had cached the key would not accept. */
  lemma AcceptingKeepsOnce(start: Net, w: World, net: Net, c: Copy, scratch: Packet, id: Id)
    requires Once(start, net, id) && AllTrack(net) && Grown(start, net)
    requires Readable(c, net) && Judged(net, c, scratch).verdict == Accepted
    requires net.now - start.now < TTL_MS && |net.nodes[c.to].log| - |start.nodes[c.to].log| <= SIZE
    ensures var p, o := Parse(c.frame, scratch).value, Judged(net, c, scratch);
            Once(start, Noted(w, Relaying(w, net, c, p, o), c, p, o), id)
  {
    var p, o, i := Parse(c.frame, scratch).value, Judged(net, c, scratch), c.to;
    var key := Id(p.sender, p.msgId);
    var m := Noted(w, Relaying(w, net, c, p, o), c, p, o);
    AcceptingEffects(w, net, c, p, o);
    if id == key {
      if LoggedSince(start, net, i, id) {
        CachedIsDuplicate(start, net, i, id);
        assert false;
      }
      assert SameNode(start.nodes[i], net.nodes[i]) && SameNode(net.nodes[i], m.nodes[i]);
      assert KeyAt(m.nodes[i], |net.nodes[i].log|, id);
    }
    OneMoreKeepsOnce(start, net, m, i, key, c.origin, id);
  }

  lemma ReceivedKeepsOnce(start: Net, w: World, net: Net, c: Copy, scratch: Packet, id: Id)
    requires Once(start, net, id) && AllTrack(net) && Grown(start, net) && Brief(start, Received(w, net, c, scratch))
    requires Grown(net, Received(w, net, c, scratch))
    ensures Once(start, Received(w, net, c, scratch), id)
  {
    var m := Received(w, net, c, scratch);
    if Readable(c, net) && Judged(net, c, scratch).verdict == Accepted {
      assert SameNode(net.nodes[c.to], m.nodes[c.to]);
      AcceptingKeepsOnce(start, w, net, c, scratch, id);
      var p, o := Parse(c.frame, scratch).value, Judged(net, c, scratch);
      var a := Noted(w, Relaying(w, net, c, p, o), c, p, o);
      if o.delivered.Some? && Reply(w.aead, a.nodes[c.to].key, o.delivered.value).Some? {
        LaunchedGrows(w, a, c.to, Reply(w.aead, a.nodes[c.to].key, o.delivered.value).value, None);
        QuietKeepsOnce(start, a, m, id);
      }
    } else {
      QuietKeepsOnce(start, net, m, id);
    }
  }

  lemma StepKeepsOnce(start: Net, w: World, net: Net, s: Step, id: Id)
    requires Once(start, net, id) && AllTrack(net) && Grown(start, net) && Enabled(net, s)
    requires Brief(start, Next(w, net, s))
    ensures Once(start, Next(w, net, s), id)
  {
    StepGrows(w, net, s);
    if s.Deliver? {
      var n := Without(net, s.k);
      SameNodesTrack(net, n);
      assert Grown(net, n);
      QuietKeepsOnce(start, net, n, id);
      ReceivedKeepsOnce(start, w, n, net.air[s.k], s.scratch, id);
    } else {
      QuietKeepsOnce(start, net, Next(w, net, s), id);
    }
  }

  lemma {:induction false} RunKeepsOnce(w: World, net: Net, run: seq<Step>, id: Id)
    requires AllTrack(net) && net.sent == [] && net.receipts == [] && IsRun(w, net, run)
             && Brief(net, After(w, net, run))
    ensures Once(net, After(w, net, run), id)
  {
    if run != [] {
      var r := run[..|run| - 1];
      var m := After(w, net, r);
      RunGrows(w, net, r, 0);
      RunGrows(w, net, run, |run| - 1);
      assert r[..0] == [];
      assert Brief(net, m) by {
        assert forall i | 0 <= i < |m.nodes| :: SameNode(m.nodes[i], After(w, net, run).nodes[i]);
      }
      RunKeepsOnce(w, net, r, id);
      RunTracks(w, net, r);
      StepKeepsOnce(net, w, m, run[|run| - 1], id);
    }
  }

  // ---------- Everything transmitted is cached ----------

  /** The transmitter has cached the key of what it sent. */
  ghost predicate Logged(nodes: seq<Node>, e: Sent)
  {
    e.node < |nodes| && exists j: nat :: j < |nodes[e.node].log| && KeyAt(nodes[e.node], j, Id(e.sender, e.msgId))
  }

  ghost predicate AllLogged(net: Net) { forall k | 0 <= k < |net.sent| :: Logged(net.nodes, net.sent[k]) }

  lemma LoggedLater(a: Net, b: Net, e: Sent)
    requires Grown(a, b) && Logged(a.nodes, e)
    ensures Logged(b.nodes, e)
  {
    var j: nat :| j < |a.nodes[e.node].log| && KeyAt(a.nodes[e.node], j, Id(e.sender, e.msgId));
    assert SameNode(a.nodes[e.node], b.nodes[e.node]);
    assert KeyAt(b.nodes[e.node], j, Id(e.sender, e.msgId));
  }

  lemma GrownLogged(a: Net, b: Net)
    requires Grown(a, b) && AllLogged(a) && b.sent == a.sent
    ensures AllLogged(b)
  {
    forall k | 0 <= k < |b.sent|
      ensures Logged(b.nodes, b.sent[k])
    {
      LoggedLater(a, b, a.sent[k]);
    }
  }

  /** Node `i` caches a key and transmits under it. */
  lemma SendsLogged(a: Net, i: nat, sender: u32, msgId: u32, b: Net, e: Sent)
    requires AllLogged(a) && i < |a.nodes| && b.nodes == Cached(a, i, sender, msgId).nodes
    requires b.sent == a.sent + [e] && e.node == i && e.sender == sender && e.msgId == msgId
    ensures AllLogged(b)
  {
    var m := Cached(a, i, sender, msgId);
    assert Grown(a, m);
    GrownLogged(a, m);
    assert KeyAt(m.nodes[i], |a.nodes[i].log|, Id(sender, msgId));
    forall k | 0 <= k < |b.sent|
      ensures Logged(b.nodes, b.sent[k])
    {
      assert k < |a.sent| ==> b.sent[k] == m.sent[k];
    }
  }

  lemma LaunchLogged(w: World, net: Net, i: nat, p: Packet, text: Option<seq<byte>>)
    requires AllLogged(net) && i < |net.nodes| && p.payloadLen <= MAX_PAYLOAD
    ensures AllLogged(Launched(w, net, i, p, text))
  {
    var m := Launched(w, net, i, p, text);
    SendsLogged(net, i, net.nodes[i].id, p.msgId, m, m.sent[|net.sent|]);
  }

  lemma RelayLogged(w: World, net: Net, c: Copy, p: Packet, o: Outcome)
    requires AllLogged(net) && c.to < |net.nodes|
    ensures AllLogged(Relaying(w, net, c, p, o))
  {
    var m := Relaying(w, net, c, p, o);
    if o.relay.Some? {
      SendsLogged(net, c.to, p.sender, p.msgId, m, m.sent[|net.sent|]);
    } else {
      assert Grown(net, m);
      GrownLogged(net, m);
    }
  }

  lemma ReceiveLogged(w: World, net: Net, c: Copy, scratch: Packet)
    requires AllLogged(net)
    ensures AllLogged(Received(w, net, c, scratch))
  {
    if Readable(c, net) && Judged(net, c, scratch).verdict in {Accepted, BadTtl} {
      var p, o := Parse(c.frame, scratch).value, Judged(net, c, scratch);
      RelayLogged(w, net, c, p, o);
      if o.verdict == BadTtl {
        var m := Cached(net, c.to, p.sender, p.msgId);
        assert Grown(net, m);
        GrownLogged(net, m);
      } else {
        var n := Noted(w, Relaying(w, net, c, p, o), c, p, o);
        assert AllLogged(n);
        if o.delivered.Some? && Reply(w.aead, n.nodes[c.to].key, o.delivered.value).Some? {
          LaunchLogged(w, n, c.to, Reply(w.aead, n.nodes[c.to].key, o.delivered.value).value, None);
        }
      }
    }
  }

  lemma StepLogged(w: World, net: Net, s: Step)
    requires AllLogged(net) && Enabled(net, s)
    ensures AllLogged(Next(w, net, s))
  {
    match s
    case Deliver(k, scratch) => ReceiveLogged(w, Without(net, k), net.air[k], scratch);
    case SendText(src, dest, msgId, nonce, text, flags) =>
      var p := SealText(w.aead, net.nodes[src].key, Draft(net.nodes[src].id, dest, msgId, nonce, flags), text);
      if p.Some? && p.value.payloadLen <= MAX_PAYLOAD {
        LaunchLogged(w, net, src, p.value, Some(text));
      }
    case _ =>
      StepGrows(w, net, s);
      GrownLogged(net, Next(w, net, s));
  }

  /** Over every run whoever has sent or relayed a packet has cached its key. */
  lemma {:induction false} SentIsCached(w: World, net: Net, run: seq<Step>)
    requires AllLogged(net) && IsRun(w, net, run)
    ensures AllLogged(After(w, net, run))
  {
    if run != [] {
      SentIsCached(w, net, run[..|run| - 1]);
      StepLogged(w, After(w, net, run[..|run| - 1]), run[|run| - 1]);
    }
  }

  // ---------- Counting ----------

  predicate Carries(e: Sent, id: Id) { e.sender == id.sender && e.msgId == id.msgId }

  function CountRelays(sent: seq<Sent>, id: Id): nat
  {
    if sent == [] then 0
    else
      CountRelays(sent[..|sent| - 1], id) +
      if sent[|sent| - 1].relayed && Carries(sent[|sent| - 1], id) then 1 else 0
  }

  function CountOriginations(sent: seq<Sent>, id: Id): nat
  {
    if sent == [] then 0
    else
      CountOriginations(sent[..|sent| - 1], id) +
      if !sent[|sent| - 1].relayed && Carries(sent[|sent| - 1], id) then 1 else 0
  }

  function CountTransmissions(sent: seq<Sent>, id: Id): nat
  {
    if sent == [] then 0
    else CountTransmissions(sent[..|sent| - 1], id) + if Carries(sent[|sent| - 1], id) then 1 else 0
  }

  lemma {:induction false} CountSplit(sent: seq<Sent>, id: Id)
    ensures CountTransmissions(sent, id) == CountOriginations(sent, id) + CountRelays(sent, id)
  {
    if sent != [] {
      CountSplit(sent[..|sent| - 1], id);
    }
  }

  lemma {:induction false} CountDistinct(sent: seq<Sent>, id: Id, nodes: set<nat>)
    requires forall a | 0 <= a < |sent| && IsRelayOf(sent[a], id) :: sent[a].node in nodes
    requires forall a, b | 0 <= a < b < |sent| && IsRelayOf(sent[a], id) && IsRelayOf(sent[b], id) ::
             sent[a].node != sent[b].node
    ensures CountRelays(sent, id) <= |nodes|
  {
    if sent != [] {
      var e, r := sent[|sent| - 1], sent[..|sent| - 1];
      if IsRelayOf(e, id) {
        assert forall a | 0 <= a < |r| && IsRelayOf(r[a], id) :: r[a] == sent[a] && sent[a].node in nodes - {e.node};
        CountDistinct(r, id, nodes - {e.node});
      } else {
        CountDistinct(r, id, nodes);
      }
    }
  }

  ghost function Below(n: nat): (s: set<nat>)
    ensures |s| == n && forall i: nat :: i in s <==> i < n
  {
    if n == 0 then {} else Below(n - 1) + {n - 1}
  }

  /**
   * Over any run under a minute in which no node caches more than 64 keys, whatever was in the caches and in
   * the air before: each node accepts a packet at most once and relays it at most once, its sender does
   * neither, and one origination by a node of the network causes at most N transmissions.
   */
  lemma TransmissionsBounded(w: World, net: Net, run: seq<Step>, id: Id, origin: nat)
    requires AllTrack(net) && net.sent == [] && net.receipts == [] && IsRun(w, net, run)
    requires Brief(net, After(w, net, run))
    requires origin < |net.nodes| && net.nodes[origin].id == id.sender
    ensures var m := After(w, net, run);
            && (forall a, b | 0 <= a < b < |m.receipts|
                           && IsReceiptOf(m.receipts[a], id) && IsReceiptOf(m.receipts[b], id) ::
                  m.receipts[a].node != m.receipts[b].node)
            && (forall a, b | 0 <= a < b < |m.sent| && IsRelayOf(m.sent[a], id) && IsRelayOf(m.sent[b], id) ::
                  m.sent[a].node != m.sent[b].node)
            && (forall a | 0 <= a < |m.sent| && IsRelayOf(m.sent[a], id) :: m.sent[a].node != origin)
            && (forall a | 0 <= a < |m.receipts| && IsReceiptOf(m.receipts[a], id) :: m.receipts[a].node != origin)
            && CountTransmissions(m.sent, id) <= CountOriginations(m.sent, id) + |net.nodes| - 1
  {
    RunKeepsOnce(w, net, run, id);
    RunGrows(w, net, run, 0);
    assert run[..0] == [];
    var m := After(w, net, run);
    assert SameNode(net.nodes[origin], m.nodes[origin]);
    CountDistinct(m.sent, id, Below(|net.nodes|) - {origin});
    CountSplit(m.sent, id);
  }
}
