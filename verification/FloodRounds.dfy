/**
 * A text in lossless rounds of equal delay from empty caches, to everyone or to one addressee: it is accepted by
 * exactly the nodes one to four hops away, each in the round of its distance, whatever the order inside a round and
 * whatever acknowledgements it triggers.
 */
module FloodRounds {
  import opened Words
  import opened Packets
  import opened Dedup
  import opened Mesh
  import opened TextMessages
  import opened Network
  import opened HopRadius
  import opened TransmissionBound

  /** The nodes within `d` hops of `src` when those in `mute` receive but do not relay. */
  ghost function Reach(w: World, n: nat, src: nat, mute: set<nat>, d: nat): set<nat>
  {
    if d == 0 then {src}
    else
      var b := Reach(w, n, src, mute, d - 1);
      b + Around(w, n, b - mute)
  }

  /** The node is exactly `d` such hops from `src`. */
  ghost predicate InLayer(w: World, n: nat, src: nat, mute: set<nat>, d: nat, i: nat)
  {
    i in Reach(w, n, src, mute, d) && (d > 0 ==> i !in Reach(w, n, src, mute, d - 1))
  }

  /** The addressee of a text to one node, who does not relay it. */
  ghost function MuteOf(nodes: seq<Node>, src: nat, dest: u32): set<nat>
  {
    set i: nat | i < |nodes| && i != src && nodes[i].id == dest
  }

  ghost predicate Knows(v: Node, o: Origin)
  {
    exists k :: 0 <= k < |v.log| && KeyAt(v, k, Id(o.packet.sender, o.packet.msgId))
  }

  /** An acknowledgement by an addressee other than the sender. */
  ghost predicate Foreign(o: Origin, x: Origin)
  {
    && x.packet.kind == KIND_ACK && x.src != o.src && x.packet.msgId == o.packet.msgId
    && (o.packet.dest != BROADCAST_ID ==> x.packet.sender == o.packet.dest)
  }

  // ---------- One delivery ----------

  ghost predicate KeyInWindow(v: Node, id: Id) { exists k :: InWindow(v.log, k) && KeyAt(v, k, id) }

  /** Within a minute of a start with empty logs a node reports exactly the keys of its last 64 additions. */
  lemma DuplicateIffInWindow(v: Node, now: nat, t0: nat, sender: u32, msgId: u32)
    requires NodeTracks(v, now) && sender != 0 && now - t0 < TTL_MS
    requires forall k | 0 <= k < |v.log| :: v.log[k].at >= t0
    ensures IsDup(v.ring, sender, msgId, Millis(now)) <==> KeyInWindow(v, Id(sender, msgId))
  {
    DuplicateExactly(v.ring, v.log, now, sender, msgId);
    if RecentlySeen(v.log, sender, msgId, now) {
      var k :| InWindow(v.log, k) && SeenAt(v.log[k], sender, msgId, now);
      assert KeyAt(v, k, Id(sender, msgId));
    }
    if k :| InWindow(v.log, k) && KeyAt(v, k, Id(sender, msgId)) {
      assert SeenAt(v.log[k], sender, msgId, now);
    }
  }

  /** As long as nothing has been evicted, these are all it has cached. */
  lemma DuplicateIffKnown(v: Node, now: nat, t0: nat, sender: u32, msgId: u32)
    requires NodeTracks(v, now) && sender != 0 && |v.log| <= SIZE && now - t0 < TTL_MS
    requires forall k | 0 <= k < |v.log| :: v.log[k].at >= t0
    ensures IsDup(v.ring, sender, msgId, Millis(now)) <==>
            exists k :: 0 <= k < |v.log| && KeyAt(v, k, Id(sender, msgId))
  {
    DuplicateIffInWindow(v, now, t0, sender, msgId);
    if k :| 0 <= k < |v.log| && KeyAt(v, k, Id(sender, msgId)) {
      assert InWindow(v.log, k);
    }
  }

  lemma JudgedCopy(w: World, net: Net, c: Copy, scratch: Packet)
    requires CopyOk(w, net.nodes, c)
    ensures Readable(c, net) && Parse(c.frame, scratch).Some?
    ensures SameFrame(AfterHops(c.origin.packet, |c.path| - 1), Parse(c.frame, scratch).value)
    ensures var p, v := c.origin.packet, net.nodes[c.to];
            Judged(net, c, scratch).verdict ==
            if p.sender == v.id then Own
            else if IsDup(v.ring, p.sender, p.msgId, Millis(net.now)) then Duplicate else Accepted
  {
    ParseWire(AfterHops(c.origin.packet, |c.path| - 1), scratch);
  }

  /**
   * Why the caches must not overflow: in any network within a minute of a start with empty logs, a node accepts a
   * copy from another, also one it has accepted before, if and only if 64 later additions have evicted its key.
   */
  lemma AcceptedIffEvicted(w: World, net: Net, c: Copy, scratch: Packet, t0: nat)
    requires CopyOk(w, net.nodes, c) && AllTrack(net) && GoodIds(net) && net.now - t0 < TTL_MS
    requires forall k | 0 <= k < |net.nodes[c.to].log| :: net.nodes[c.to].log[k].at >= t0
    requires c.origin.packet.sender != net.nodes[c.to].id
    ensures Readable(c, net)
    ensures Judged(net, c, scratch).verdict == Accepted <==>
            !KeyInWindow(net.nodes[c.to], Id(c.origin.packet.sender, c.origin.packet.msgId))
  {
    JudgedCopy(w, net, c, scratch);
    assert NodeTracks(net.nodes[c.to], net.now);
    DuplicateIffInWindow(net.nodes[c.to], net.now, t0, c.origin.packet.sender, c.origin.packet.msgId);
  }

  ghost predicate RelayedCopy(c: Copy, x: Copy)
  {
    x.origin == c.origin && x.path == c.path + [c.to] && |c.path| <= DEFAULT_TTL
  }

  predicate Addresses(p: Packet, id: u32) { p.dest == id || p.dest == BROADCAST_ID }

  /** A text that asks its receiver for an acknowledgement. */
  predicate Acked(p: Packet, id: u32) { p.kind == KIND_TEXT && HasAckReq(p.flags) && Addresses(p, id) }

  /** A copy of an acknowledgement that the receiver `id` of text copy `c` sends. */
  ghost predicate AckCopy(c: Copy, x: Copy, id: u32)
  {
    && Acked(c.origin.packet, id) && x.origin.src == c.to && x.origin.text == None && x.origin.packet.sender == id
    && x.origin.packet.kind == KIND_ACK && x.origin.packet.msgId == c.origin.packet.msgId
  }

  /** A copy that the receiver `id` of copy `c` puts on the air. */
  ghost predicate NextCopy(c: Copy, x: Copy, id: u32)
  {
    (RelayedCopy(c, x) && c.origin.packet.dest != id) || AckCopy(c, x, id)
  }

  ghost predicate LogAfter(a: Node, b: Node, s: Seen, acked: bool)
  {
    || b.log == a.log + [s]
    || (acked && b.log == a.log + [s] + [Seen(a.id, s.msgId, s.at)])
  }

  /** As far as the acknowledgement goes, `q` is `p`. */
  predicate SameRequest(p: Packet, q: Packet)
  {
    q.kind == p.kind && q.msgId == p.msgId && HasAckReq(q.flags) == HasAckReq(p.flags)
  }

  lemma AcceptedBasics(w: World, net: Net, c: Copy, scratch: Packet)
    requires CopyOk(w, net.nodes, c) && Readable(c, net) && Judged(net, c, scratch).verdict == Accepted
    ensures var o, p, sent := Judged(net, c, scratch), Parse(c.frame, scratch).value, c.origin.packet;
            && p.sender == sent.sender && p.msgId == sent.msgId
            && (o.relay.Some? <==> |c.path| <= DEFAULT_TTL && sent.dest != net.nodes[c.to].id)
            && (o.delivered.Some? ==> SameRequest(sent, o.delivered.value) && Addresses(sent, net.nodes[c.to].id))
            && Received(w, net, c, scratch) == Accepting(w, net, c, p, o)
  {
    AcceptedCopy(w, net, c, scratch);
    WithRelayedBits(c.origin.packet.flags);
  }

  /** All that an accepted copy changes, `new` being what goes on the air. */
  ghost predicate Effects(w: World, net: Net, c: Copy, m: Net, new': seq<Copy>)
    requires c.to < |net.nodes|
  {
    var sent, i := c.origin.packet, c.to;
    && m.air == net.air + new' && m.now == net.now && |m.nodes| == |net.nodes|
    && (forall x | x in new' :: NextCopy(c, x, net.nodes[i].id))
    && (|c.path| <= DEFAULT_TTL && sent.dest != net.nodes[i].id ==>
          forall j: nat | j < |net.nodes| && Link(w, i, j) :: CopyTo(new', c.origin, j))
    && (forall j | 0 <= j < |net.nodes| && j != i :: m.nodes[j] == net.nodes[j])
    && LogAfter(net.nodes[i], m.nodes[i], Seen(sent.sender, sent.msgId, net.now), Acked(sent, net.nodes[i].id))
    && m.nodes[i].id == net.nodes[i].id && m.nodes[i].key == net.nodes[i].key
    && |m.receipts| == |net.receipts| + 1 && net.receipts <= m.receipts
    && m.receipts[|net.receipts|].node == i && m.receipts[|net.receipts|].origin == c.origin
    && m.receipts[|net.receipts|].path == c.path
  }

  ghost predicate CopyTo(air: seq<Copy>, o: Origin, j: nat)
  {
    exists x :: x in air && x.origin == o && x.to == j
  }

  /** The relay's part of it. */
  ghost predicate RelayPart(w: World, net: Net, c: Copy, m: Net, f: seq<Copy>)
    requires c.to < |net.nodes|
  {
    var sent, i := c.origin.packet, c.to;
    && m.air == net.air + f && m.now == net.now && |m.nodes| == |net.nodes|
    && (forall x | x in f :: RelayedCopy(c, x) && sent.dest != net.nodes[i].id)
    && (|c.path| <= DEFAULT_TTL && sent.dest != net.nodes[i].id ==>
          forall j: nat | j < |net.nodes| && Link(w, i, j) :: CopyTo(f, c.origin, j))
    && (forall j | 0 <= j < |net.nodes| && j != i :: m.nodes[j] == net.nodes[j])
    && m.nodes[i].log == net.nodes[i].log + [Seen(sent.sender, sent.msgId, net.now)]
    && m.nodes[i].id == net.nodes[i].id && m.nodes[i].key == net.nodes[i].key
    && |m.receipts| == |net.receipts| + 1 && net.receipts <= m.receipts
    && m.receipts[|net.receipts|].node == i && m.receipts[|net.receipts|].origin == c.origin
    && m.receipts[|net.receipts|].path == c.path
  }

  /** The acknowledgement's part of it. */
  ghost predicate AckPart(net: Net, c: Copy, m: Net, f: seq<Copy>)
    requires c.to < |net.nodes|
  {
    var sent, i := c.origin.packet, c.to;
    && m.air == net.air + f && m.now == net.now && m.receipts == net.receipts && |m.nodes| == |net.nodes|
    && (forall x | x in f :: AckCopy(c, x, net.nodes[i].id))
    && (forall j | 0 <= j < |net.nodes| && j != i :: m.nodes[j] == net.nodes[j])
    && m.nodes[i].id == net.nodes[i].id && m.nodes[i].key == net.nodes[i].key
    && (|| m.nodes[i].log == net.nodes[i].log
        || (Acked(sent, net.nodes[i].id)
            && m.nodes[i].log == net.nodes[i].log + [Seen(net.nodes[i].id, sent.msgId, net.now)]))
  }

  lemma RelayEffects(w: World, net: Net, c: Copy, p: Packet, o: Outcome) returns (f: seq<Copy>)
    requires c.to < |net.nodes| && p.sender == c.origin.packet.sender && p.msgId == c.origin.packet.msgId
    requires o.relay.Some? <==> |c.path| <= DEFAULT_TTL && c.origin.packet.dest != net.nodes[c.to].id
    ensures RelayPart(w, net, c, Noted(w, Relaying(w, net, c, p, o), c, p, o), f)
  {
    f := [];
    if o.relay.Some? {
      f := Fan(w, |net.nodes|, c.to, o.relay.value, c.origin, c.path + [c.to]);
      FanCopies(w, |net.nodes|, c.to, o.relay.value, c.origin, c.path + [c.to]);
      forall j: nat | j < |net.nodes| && Link(w, c.to, j)
        ensures CopyTo(f, c.origin, j)
      {
        assert Copy(j, o.relay.value, c.origin, c.path + [c.to]) in f;
      }
    }
  }

  lemma AckEffects(w: World, net: Net, c: Copy, handed: Option<Packet>) returns (f: seq<Copy>)
    requires c.to < |net.nodes|
    requires handed.Some? ==>
             SameRequest(c.origin.packet, handed.value) && Addresses(c.origin.packet, net.nodes[c.to].id)
    ensures AckPart(net, c, Acking(w, net, c.to, handed), f)
  {
    f := [];
    if handed.Some? && Reply(w.aead, net.nodes[c.to].key, handed.value).Some? {
      var q := Addressed(AckFor(handed.value), net.nodes[c.to].id);
      f := Fan(w, |net.nodes|, c.to, Wire(q), Origin(c.to, q, None), [c.to]);
      FanCopies(w, |net.nodes|, c.to, Wire(q), Origin(c.to, q, None), [c.to]);
    }
  }

  lemma PartsCompose(w: World, a: Net, c: Copy, b: Net, f: seq<Copy>, m: Net, g: seq<Copy>)
    requires c.to < |a.nodes| && RelayPart(w, a, c, b, f) && AckPart(b, c, m, g)
    ensures Effects(w, a, c, m, f + g)
  {
    assert a.air + f + g == a.air + (f + g);
    forall j: nat | CopyTo(f, c.origin, j)
      ensures CopyTo(f + g, c.origin, j)
    {
      var x :| x in f && x.origin == c.origin && x.to == j;
      assert x in f + g;
    }
  }

  lemma AcceptedEffects(w: World, net: Net, c: Copy, scratch: Packet) returns (new': seq<Copy>)
    requires CopyOk(w, net.nodes, c) && Readable(c, net) && Judged(net, c, scratch).verdict == Accepted
    ensures Effects(w, net, c, Received(w, net, c, scratch), new')
  {
    AcceptedBasics(w, net, c, scratch);
    var p, o := Parse(c.frame, scratch).value, Judged(net, c, scratch);
    var m := Noted(w, Relaying(w, net, c, p, o), c, p, o);
    var f := RelayEffects(w, net, c, p, o);
    var g := AckEffects(w, m, c, o.delivered);
    PartsCompose(w, net, c, m, f, Acking(w, m, c.to, o.delivered), g);
    new' := f + g;
  }

  // ---------- The invariant inside a round ----------

  /** The text under study: the world, the number of nodes, the origin, the start time and who does not relay it. */
  datatype Flood = Flood(w: World, n: nat, o: Origin, t0: nat, mute: set<nat>)

  /** The broadcast asks for no acknowledgement. */
  predicate Plain(f: Flood) { !HasAckReq(f.o.packet.flags) }

  ghost predicate Small(m: Net) { forall i | 0 <= i < |m.nodes| :: |m.nodes[i].log| <= SIZE }

  /** What keeps the caches from overflowing: few nodes, at most one acknowledgement, or caches not yet full. */
  ghost predicate Roomy(f: Flood, m: Net) { f.n <= SIZE || Plain(f) || f.o.packet.dest != BROADCAST_ID || Small(m) }

  ghost predicate IdOf(m: Net, sender: u32) { exists i :: 0 <= i < |m.nodes| && m.nodes[i].id == sender }

  /** Cached keys are recent, pairwise distinct, and belong to the broadcast or to an acknowledgement of it. */
  ghost predicate LogOk(f: Flood, m: Net, v: Node)
  {
    && (forall k | 0 <= k < |v.log| ::
        v.log[k].at >= f.t0 && v.log[k].msgId == f.o.packet.msgId && IdOf(m, v.log[k].sender))
    && (forall k, l | 0 <= k < l < |v.log| :: v.log[k].sender != v.log[l].sender)
    && (forall k | 0 <= k < |v.log| && v.log[k].sender == v.id :: Knows(v, f.o))
    && (Plain(f) ==> forall k | 0 <= k < |v.log| :: v.log[k].sender == f.o.packet.sender)
    && (forall k | 0 <= k < |v.log| :: KeySender(f, v.log[k].sender))
  }

  /** Who can be the sender of a cached key when the text has one addressee. */
  predicate KeySender(f: Flood, sender: u32)
  {
    f.o.packet.dest == BROADCAST_ID || sender == f.o.packet.sender || sender == f.o.packet.dest
  }

  ghost predicate Base(f: Flood, m: Net)
  {
    && |m.nodes| == f.n && f.t0 <= m.now < f.t0 + TTL_MS
    && NetOk(f.w, m) && AllTrack(m) && GoodIds(m) && OriginOk(f.w, m.nodes, f.o)
    && f.mute == MuteOf(m.nodes, f.o.src, f.o.packet.dest) && f.o.text.Some?
    && (forall i | 0 <= i < f.n :: LogOk(f, m, m.nodes[i]))
    && (forall c | c in m.air :: Expected(f, c.origin))
  }

  /** What may be in flight: the broadcast and, if it asks for them, acknowledgements of it. */
  ghost predicate Expected(f: Flood, x: Origin) { x == f.o || (!Plain(f) && Foreign(f.o, x)) }

  function Min(a: nat, b: nat): nat { if a < b then a else b }

  const RADIUS: nat := DEFAULT_TTL + 1

  ghost function Near(f: Flood, d: nat): set<nat> { Reach(f.w, f.n, f.o.src, f.mute, d) }

  ghost predicate Layer(f: Flood, d: nat, i: nat) { InLayer(f.w, f.n, f.o.src, f.mute, d, i) }

  /** A copy of the broadcast last transmitted by a node exactly `|path| - 1 == d` hops away. */
  ghost predicate AtLayer(f: Flood, d: nat, c: Copy)
  {
    c.origin == f.o ==> c.path != [] && |c.path| == d + 1 && Layer(f, d, c.path[d]) && c.path[d] !in f.mute
  }

  ghost predicate HasReceipt(o: Origin, m: Net, j: nat)
  {
    exists k :: 0 <= k < |m.receipts| && m.receipts[k].origin == o && m.receipts[k].node == j
  }

  /** Who has heard so far in round `d + 1`, given the copies still to deliver in it. */
  ghost predicate Heard(f: Flood, m: Net, pending: seq<Copy>, d: nat, j: nat)
    requires j < |m.nodes|
  {
    var v := m.nodes[j];
    && (j in Near(f, Min(d, RADIUS)) ==> Knows(v, f.o))
    && (Knows(v, f.o) <==> HasReceipt(f.o, m, j)) && (Knows(v, f.o) ==> j in Near(f, Min(d + 1, RADIUS)))
    && (d < RADIUS && j in Near(f, d + 1) ==> Knows(v, f.o) || CopyTo(pending, f.o, j))
  }

  /** A node that heard in round `d + 1` and may relay has sent a copy to each of its neighbours. */
  ghost predicate Forwarded(f: Flood, m: Net, sent: seq<Copy>, d: nat, i: nat)
    requires i < |m.nodes|
  {
    d + 1 < RADIUS && Layer(f, d + 1, i) && Knows(m.nodes[i], f.o) && i !in f.mute ==>
      forall j: nat | j < f.n && Link(f.w, i, j) :: CopyTo(sent, f.o, j)
  }

  /** A receipt of the broadcast is at the node's distance. */
  ghost predicate Timely(f: Flood, r: Receipt)
  {
    r.origin == f.o ==> Layer(f, |r.path|, r.node)
  }

  /** Mid-round `d + 1`: `pending` is left to deliver, `sent` was put on the air in this round. */
  ghost predicate Shape(f: Flood, m: Net, pending: seq<Copy>, sent: seq<Copy>, d: nat)
  {
    && |m.nodes| == f.n && m.air == pending + sent
    && (forall c | c in pending :: AtLayer(f, d, c))
    && (forall c | c in sent :: AtLayer(f, d + 1, c))
    && (forall j: nat | j < f.n && j != f.o.src :: Heard(f, m, pending, d, j) && Forwarded(f, m, sent, d, j))
    && (forall k | 0 <= k < |m.receipts| :: Timely(f, m.receipts[k]))
    && (forall k, l | 0 <= k < l < |m.receipts| && m.receipts[k].origin == m.receipts[l].origin == f.o ::
          m.receipts[k].node != m.receipts[l].node)
  }

  ghost predicate Mid(f: Flood, m: Net, pending: seq<Copy>, sent: seq<Copy>, d: nat)
  {
    Base(f, m) && Shape(f, m, pending, sent, d)
  }

  // ---------- Caches stay small ----------

  lemma {:induction false} DistinctCount(s: seq<u32>, ids: set<u32>)
    requires forall k | 0 <= k < |s| :: s[k] in ids
    requires forall k, l | 0 <= k < l < |s| :: s[k] != s[l]
    ensures |s| <= |ids|
  {
    if s != [] {
      var x, r := s[|s| - 1], s[..|s| - 1];
      assert forall k | 0 <= k < |r| :: r[k] == s[k];
      DistinctCount(r, ids - {x});
    }
  }

  ghost function Ids(m: Net, n: nat): (s: set<u32>)
    requires n <= |m.nodes|
    ensures |s| <= n && forall i | 0 <= i < n :: m.nodes[i].id in s
  {
    if n == 0 then {} else Ids(m, n - 1) + {m.nodes[n - 1].id}
  }

  lemma LogFits(f: Flood, m: Net, i: nat)
    requires Base(f, m) && Roomy(f, m) && i < f.n
    ensures |m.nodes[i].log| <= SIZE
  {
    var v, two := m.nodes[i], {f.o.packet.sender, f.o.packet.dest};
    assert LogOk(f, m, v);
    if f.n <= SIZE {
      assert forall k | 0 <= k < |v.log| :: IdOf(m, v.log[k].sender);
      FewSenders(f, m, v, Ids(m, f.n));
    } else if f.o.packet.dest != BROADCAST_ID {
      assert forall k | 0 <= k < |v.log| :: KeySender(f, v.log[k].sender);
      FewSenders(f, m, v, two);
      assert |two| <= 2;
    } else if Plain(f) {
      FewSenders(f, m, v, {f.o.packet.sender});
    }
  }

  lemma FewSenders(f: Flood, m: Net, v: Node, ids: set<u32>)
    requires LogOk(f, m, v) && forall k | 0 <= k < |v.log| :: v.log[k].sender in ids
    ensures |v.log| <= |ids|
  {
    var s := seq(|v.log|, k requires 0 <= k < |v.log| => v.log[k].sender);
    DistinctCount(s, ids);
  }

  // ---------- Delivering one pending copy ----------

  /** Mid-round a node refuses exactly its own packets and those it has cached. */
  lemma Verdicts(f: Flood, m: Net, c: Copy, scratch: Packet)
    requires Base(f, m) && Roomy(f, m) && CopyOk(f.w, m.nodes, c)
    ensures Readable(c, m)
    ensures var p, v := c.origin.packet, m.nodes[c.to];
            Judged(m, c, scratch).verdict ==
            if p.sender == v.id then Own else if Knows(v, c.origin) then Duplicate else Accepted
  {
    JudgedCopy(f.w, m, c, scratch);
    var v := m.nodes[c.to];
    LogFits(f, m, c.to);
    assert LogOk(f, m, v) && NodeTracks(v, m.now);
    DuplicateIffKnown(v, m.now, f.t0, c.origin.packet.sender, c.origin.packet.msgId);
  }

  lemma WithoutBase(f: Flood, m: Net, k: nat)
    requires Base(f, m) && k < |m.air|
    ensures Base(f, Without(m, k)) && CopyOk(f.w, m.nodes, m.air[k])
  {
    var n := Without(m, k);
    SameNodesTrack(m, n);
    assert forall i | 0 <= i < f.n :: LogOk(f, m, m.nodes[i]) && LogOk(f, n, n.nodes[i]);
  }

  lemma KnowsAfter(a: Node, b: Node, s: Seen, acked: bool, o: Origin)
    requires LogAfter(a, b, s, acked) && a.id != o.packet.sender
    ensures Knows(b, o) <==> Knows(a, o) || (s.sender == o.packet.sender && s.msgId == o.packet.msgId)
  {
    var id := Id(o.packet.sender, o.packet.msgId);
    if k :| 0 <= k < |a.log| && KeyAt(a, k, id) {
      assert KeyAt(b, k, id);
    }
    if s.sender == id.sender && s.msgId == id.msgId {
      assert KeyAt(b, |a.log|, id);
    }
    if k :| 0 <= k < |b.log| && KeyAt(b, k, id) {
      if k < |a.log| {
        assert KeyAt(a, k, id);
      }
    }
  }

  lemma AppendOk(f: Flood, m: Net, a: Node, b: Node, s: Seen)
    requires LogOk(f, m, a) && b.id == a.id && b.log == a.log + [s]
    requires s.at >= f.t0 && s.msgId == f.o.packet.msgId && IdOf(m, s.sender)
    requires forall k | 0 <= k < |a.log| :: a.log[k].sender != s.sender
    requires s.sender == b.id ==> Knows(a, f.o)
    requires (Plain(f) ==> s.sender == f.o.packet.sender) && KeySender(f, s.sender)
    ensures LogOk(f, m, b)
  {
    if Knows(a, f.o) {
      var l :| 0 <= l < |a.log| && KeyAt(a, l, Id(f.o.packet.sender, f.o.packet.msgId));
      assert KeyAt(b, l, Id(f.o.packet.sender, f.o.packet.msgId));
    }
  }

  lemma SameIdsLogOk(f: Flood, n: Net, m: Net, v: Node)
    requires LogOk(f, n, v) && forall s: u32 | IdOf(n, s) :: IdOf(m, s)
    ensures LogOk(f, m, v)
  {
  }

  /** The log of the accepting node stays within the broadcast's keys. */
  lemma LogStaysOk(f: Flood, n: Net, m: Net, c: Copy, new': seq<Copy>)
    requires Base(f, n) && CopyOk(f.w, n.nodes, c) && Expected(f, c.origin)
    requires c.origin.packet.sender != n.nodes[c.to].id && !Knows(n.nodes[c.to], c.origin)
    requires Effects(f.w, n, c, m, new') && (forall s: u32 | IdOf(n, s) :: IdOf(m, s))
    ensures LogOk(f, m, m.nodes[c.to])
  {
    var a, b, s := n.nodes[c.to], m.nodes[c.to], Seen(c.origin.packet.sender, c.origin.packet.msgId, n.now);
    SameIdsLogOk(f, n, m, a);
    assert n.nodes[c.origin.src].id == s.sender && IdOf(n, s.sender);
    assert n.nodes[c.to].id == a.id && IdOf(n, a.id);
    forall k | 0 <= k < |a.log|
      ensures a.log[k].sender != s.sender
    {
      if a.log[k].sender == s.sender {
        assert KeyAt(a, k, Id(s.sender, s.msgId));
      }
    }
    var mid := a.(log := a.log + [s]);
    AppendOk(f, m, a, mid, s);
    if b.log != mid.log {
      assert c.origin == f.o;
      assert KeyAt(mid, |a.log|, Id(s.sender, s.msgId));
      AppendOk(f, m, mid, b, Seen(a.id, s.msgId, s.at));
    } else {
      AppendOk(f, m, a, b, s);
    }
  }

  lemma SameIds(w: World, n: Net, m: Net, c: Copy, new': seq<Copy>)
    requires c.to < |n.nodes| && Effects(w, n, c, m, new')
    ensures forall i | 0 <= i < |n.nodes| :: m.nodes[i].id == n.nodes[i].id && m.nodes[i].key == n.nodes[i].key
    ensures forall s: u32 | IdOf(n, s) :: IdOf(m, s)
  {
    forall s: u32 | IdOf(n, s)
      ensures IdOf(m, s)
    {
      var i :| 0 <= i < |n.nodes| && n.nodes[i].id == s;
      assert m.nodes[i].id == s;
    }
  }

  lemma AirStaysOk(f: Flood, n: Net, c: Copy, m: Net, new': seq<Copy>)
    requires Base(f, n) && CopyOk(f.w, n.nodes, c) && Expected(f, c.origin)
    requires c.origin.packet.sender != n.nodes[c.to].id && Effects(f.w, n, c, m, new')
    ensures forall x | x in m.air :: Expected(f, x.origin)
  {
    forall x | x in new'
      ensures Expected(f, x.origin)
    {
      assert NextCopy(c, x, n.nodes[c.to].id);
      if AckCopy(c, x, n.nodes[c.to].id) {
        assert c.origin == f.o && c.to != f.o.src;
      }
    }
  }

  lemma AcceptKeepsBase(f: Flood, n: Net, m: Net, c: Copy, new': seq<Copy>)
    requires Base(f, n) && CopyOk(f.w, n.nodes, c) && Expected(f, c.origin)
    requires c.origin.packet.sender != n.nodes[c.to].id && !Knows(n.nodes[c.to], c.origin)
    requires Effects(f.w, n, c, m, new') && NetOk(f.w, m) && AllTrack(m)
    ensures Base(f, m)
  {
    SameIds(f.w, n, m, c, new');
    AirStaysOk(f, n, c, m, new');
    assert GoodIds(m) && OriginOk(f.w, m.nodes, f.o);
    forall i | 0 <= i < f.n
      ensures LogOk(f, m, m.nodes[i])
    {
      if i == c.to {
        LogStaysOk(f, n, m, c, new');
      } else {
        assert m.nodes[i] == n.nodes[i] && LogOk(f, n, n.nodes[i]);
        SameIdsLogOk(f, n, m, n.nodes[i]);
      }
    }
  }

  /** Knowledge of the broadcast changes only at a node that accepts a copy of it. */
  lemma KnowledgeAfter(f: Flood, n: Net, m: Net, c: Copy, new': seq<Copy>, j: nat)
    requires Base(f, n) && CopyOk(f.w, n.nodes, c) && Expected(f, c.origin)
    requires Effects(f.w, n, c, m, new') && j < f.n && j != f.o.src
    ensures Knows(m.nodes[j], f.o) <==> Knows(n.nodes[j], f.o) || (j == c.to && c.origin == f.o)
  {
    if j == c.to {
      var s := Seen(c.origin.packet.sender, c.origin.packet.msgId, n.now);
      assert n.nodes[j].id != n.nodes[f.o.src].id;
      if c.origin != f.o {
        assert n.nodes[c.origin.src].id != n.nodes[f.o.src].id;
      }
      KnowsAfter(n.nodes[j], m.nodes[j], s, Acked(c.origin.packet, n.nodes[j].id), f.o);
    }
  }

  lemma CopyToGrows(a: seq<Copy>, b: seq<Copy>, o: Origin, j: nat)
    requires CopyTo(a, o, j) && forall x | x in a && x.to == j :: x in b
    ensures CopyTo(b, o, j)
  {
    var x :| x in a && x.origin == o && x.to == j;
    assert x in b;
  }

  /** The receiver of a pending copy that has not heard is exactly one hop further out. */
  lemma ReceiverLayer(f: Flood, m: Net, pending: seq<Copy>, sent: seq<Copy>, d: nat, c: Copy)
    requires Mid(f, m, pending, sent, d) && c in pending && c.origin == f.o && CopyOk(f.w, m.nodes, c)
    requires c.to != f.o.src && !Knows(m.nodes[c.to], f.o)
    ensures d < RADIUS && |c.path| == d + 1 && Layer(f, d + 1, c.to)
  {
    PendingCopy(f, m, pending, sent, d, c);
    FurtherOut(f, m, pending, d, c);
  }

  lemma PendingCopy(f: Flood, m: Net, pending: seq<Copy>, sent: seq<Copy>, d: nat, c: Copy)
    requires Shape(f, m, pending, sent, d) && c in pending && c.to < f.n && c.to != f.o.src
    ensures AtLayer(f, d, c) && Heard(f, m, pending, d, c.to)
  {
  }

  lemma FurtherOut(f: Flood, m: Net, pending: seq<Copy>, d: nat, c: Copy)
    requires |m.nodes| == f.n && CopyOk(f.w, m.nodes, c) && AtLayer(f, d, c) && Heard(f, m, pending, d, c.to)
    requires c.origin == f.o && !Knows(m.nodes[c.to], f.o)
    ensures d < RADIUS && |c.path| == d + 1 && Layer(f, d + 1, c.to)
  {
    assert c.path[d] in Near(f, d) && Link(f.w, c.path[d], c.to);
    assert NextTo(f.w, Near(f, d) - f.mute, c.to);
    assert c.to in Near(f, d + 1);
  }

  /** What accepting pending copy `c` of the broadcast in round `d + 1` amounts to for the flood. */
  ghost predicate Accepts(f: Flood, m: Net, d: nat, c: Copy, m': Net, new': seq<Copy>)
  {
    && |m'.nodes| == |m.nodes| == f.n && Layer(f, d + 1, c.to) && d < RADIUS && |c.path| == d + 1
    && (forall j: nat | j < f.n && j != f.o.src :: Knows(m'.nodes[j], f.o) <==> Knows(m.nodes[j], f.o) || j == c.to)
    && (forall x | x in new' :: AtLayer(f, d + 1, x))
    && (d + 1 < RADIUS && c.to !in f.mute ==> forall i: nat | i < f.n && Link(f.w, c.to, i) :: CopyTo(new', f.o, i))
    && |m'.receipts| == |m.receipts| + 1 && m.receipts <= m'.receipts
    && m'.receipts[|m.receipts|].node == c.to && m'.receipts[|m.receipts|].origin == f.o
    && m'.receipts[|m.receipts|].path == c.path
    && c.to < f.n && c.to != f.o.src && !Knows(m.nodes[c.to], f.o)
  }

  lemma AcceptedInFlood(f: Flood, m: Net, pending: seq<Copy>, sent: seq<Copy>, d: nat, k: nat, m': Net, new': seq<Copy>)
    requires Mid(f, m, pending, sent, d) && k < |pending| && pending[k].origin == f.o
             && CopyOk(f.w, m.nodes, pending[k])
    requires f.o.packet.sender != m.nodes[pending[k].to].id && !Knows(m.nodes[pending[k].to], f.o)
    requires Effects(f.w, Without(m, k), pending[k], m', new') && Base(f, Without(m, k))
    ensures Accepts(f, m, d, pending[k], m', new')
  {
    var c, n := pending[k], Without(m, k);
    assert c.to != f.o.src;
    ReceiverLayer(f, m, pending, sent, d, c);
    assert c.to in f.mute <==> n.nodes[c.to].id == f.o.packet.dest;
    forall x | x in new'
      ensures AtLayer(f, d + 1, x)
    {
      assert NextCopy(c, x, n.nodes[c.to].id);
    }
    forall j: nat | j < f.n && j != f.o.src
      ensures Knows(m'.nodes[j], f.o) <==> Knows(m.nodes[j], f.o) || j == c.to
    {
      KnowledgeAfter(f, n, m', c, new', j);
    }
  }

  lemma HeardAfter(
      f: Flood, m: Net, pending: seq<Copy>, sent: seq<Copy>, d: nat, k: nat, m': Net, new': seq<Copy>, j: nat)
    requires Shape(f, m, pending, sent, d) && k < |pending| && Accepts(f, m, d, pending[k], m', new') && j < f.n
             && j != f.o.src
    ensures Heard(f, m', pending[..k] + pending[k + 1..], d, j)
  {
    var c := pending[k];
    assert Heard(f, m, pending, d, j);
    assert m'.receipts[|m.receipts|].node == c.to;
    if r :| 0 <= r < |m.receipts| && m.receipts[r].origin == f.o && m.receipts[r].node == j {
      assert m'.receipts[r] == m.receipts[r];
    }
    if r :| 0 <= r < |m'.receipts| && m'.receipts[r].origin == f.o && m'.receipts[r].node == j {
      assert r < |m.receipts| ==> m.receipts[r] == m'.receipts[r];
    }
    if !Knows(m'.nodes[j], f.o) && CopyTo(pending, f.o, j) {
      CopyToGrows(pending, pending[..k] + pending[k + 1..], f.o, j);
    }
  }

  lemma ForwardedAfter(
      f: Flood, m: Net, pending: seq<Copy>, sent: seq<Copy>, d: nat, k: nat, m': Net, new': seq<Copy>, j: nat)
    requires Shape(f, m, pending, sent, d) && k < |pending| && Accepts(f, m, d, pending[k], m', new') && j < f.n
             && j != f.o.src
    ensures Forwarded(f, m', sent + new', d, j)
  {
    assert Forwarded(f, m, sent, d, j);
    if d + 1 < RADIUS && Layer(f, d + 1, j) && Knows(m'.nodes[j], f.o) && j !in f.mute {
      forall i: nat | i < f.n && Link(f.w, j, i)
        ensures CopyTo(sent + new', f.o, i)
      {
        CopyToGrows(if Knows(m.nodes[j], f.o) then sent else new', sent + new', f.o, i);
      }
    }
  }

  lemma AirAfter(m: Net, pending: seq<Copy>, sent: seq<Copy>, k: nat)
    requires m.air == pending + sent && k < |pending|
    ensures Without(m, k).air == pending[..k] + pending[k + 1..] + sent
    ensures forall x | x in pending[..k] + pending[k + 1..] :: x in pending
  {
  }

  /** Accepting one pending copy of the broadcast keeps the invariant. */
  lemma AcceptFlood(f: Flood, m: Net, pending: seq<Copy>, sent: seq<Copy>, d: nat, k: nat, m': Net, new': seq<Copy>)
    requires Shape(f, m, pending, sent, d) && k < |pending| && Accepts(f, m, d, pending[k], m', new')
    requires m'.air == pending[..k] + pending[k + 1..] + sent + new'
    ensures Shape(f, m', pending[..k] + pending[k + 1..], sent + new', d)
  {
    var pending', sent' := pending[..k] + pending[k + 1..], sent + new';
    AirAfter(m, pending, sent, k);
    assert m'.air == pending' + sent';
    forall j: nat | j < f.n && j != f.o.src
      ensures Heard(f, m', pending', d, j) && Forwarded(f, m', sent', d, j)
    {
      HeardAfter(f, m, pending, sent, d, k, m', new', j);
      ForwardedAfter(f, m, pending, sent, d, k, m', new', j);
    }
    forall r | 0 <= r < |m'.receipts|
      ensures Timely(f, m'.receipts[r])
    {
      assert r < |m.receipts| ==> m'.receipts[r] == m.receipts[r] && Timely(f, m.receipts[r]);
    }
    forall r, l | 0 <= r < l < |m'.receipts| && m'.receipts[r].origin == m'.receipts[l].origin == f.o
      ensures m'.receipts[r].node != m'.receipts[l].node
    {
      assert m'.receipts[r] == m.receipts[r];
      assert Heard(f, m, pending, d, pending[k].to);
      assert l < |m.receipts| ==> m'.receipts[l] == m.receipts[l];
    }
  }

  /** A pending copy that is refused, or an acknowledgement that is accepted, leaves everyone's knowledge. */
  lemma QuietDelivery(f: Flood, m: Net, pending: seq<Copy>, sent: seq<Copy>, d: nat, k: nat, m': Net, new': seq<Copy>)
    requires Shape(f, m, pending, sent, d) && k < |pending| && pending[k].to < |m'.nodes| == f.n
    requires m'.air == pending[..k] + pending[k + 1..] + sent + new'
    requires forall x | x in new' :: x.origin != f.o
    requires forall j: nat | j < f.n && j != f.o.src :: Knows(m'.nodes[j], f.o) == Knows(m.nodes[j], f.o)
    requires m.receipts <= m'.receipts && forall r | |m.receipts| <= r < |m'.receipts| :: m'.receipts[r].origin != f.o
    requires pending[k].origin == f.o && pending[k].to != f.o.src ==> Knows(m.nodes[pending[k].to], f.o)
    ensures Shape(f, m', pending[..k] + pending[k + 1..], sent + new', d)
  {
    var pending', sent' := pending[..k] + pending[k + 1..], sent + new';
    assert m'.air == pending' + sent';
    AirAfter(m, pending, sent, k);
    forall j: nat | j < f.n && j != f.o.src
      ensures Heard(f, m', pending', d, j) && Forwarded(f, m', sent', d, j)
    {
      QuietFor(f, m, pending, sent, d, k, m', new', j);
    }
    forall r | 0 <= r < |m'.receipts|
      ensures Timely(f, m'.receipts[r])
    {
      if r < |m.receipts| {
        assert m'.receipts[r] == m.receipts[r] && Timely(f, m.receipts[r]);
      }
    }
  }

  lemma QuietFor(
      f: Flood, m: Net, pending: seq<Copy>, sent: seq<Copy>, d: nat, k: nat, m': Net, new': seq<Copy>, j: nat)
    requires Shape(f, m, pending, sent, d) && k < |pending| && j < f.n && j != f.o.src && |m'.nodes| == f.n
    requires Knows(m'.nodes[j], f.o) == Knows(m.nodes[j], f.o)
    requires m.receipts <= m'.receipts && forall r | |m.receipts| <= r < |m'.receipts| :: m'.receipts[r].origin != f.o
    requires pending[k].origin == f.o && pending[k].to == j ==> Knows(m.nodes[j], f.o)
    ensures Heard(f, m', pending[..k] + pending[k + 1..], d, j) && Forwarded(f, m', sent + new', d, j)
  {
    assert Heard(f, m, pending, d, j) && Forwarded(f, m, sent, d, j);
    if r :| 0 <= r < |m.receipts| && m.receipts[r].origin == f.o && m.receipts[r].node == j {
      assert m'.receipts[r] == m.receipts[r];
    }
    if r :| 0 <= r < |m'.receipts| && m'.receipts[r].origin == f.o && m'.receipts[r].node == j {
      assert m.receipts[r] == m'.receipts[r];
    }
    if CopyTo(pending, f.o, j) && !Knows(m.nodes[j], f.o) {
      var x :| x in pending && x.origin == f.o && x.to == j;
      assert x in pending[..k] + pending[k + 1..];
    }
    forall i: nat | CopyTo(sent, f.o, i)
      ensures CopyTo(sent + new', f.o, i)
    {
      CopyToGrows(sent, sent + new', f.o, i);
    }
  }

  /** Delivering any pending copy, in any order, keeps the invariant. */
  lemma DeliverKeepsMid(f: Flood, m: Net, pending: seq<Copy>, sent: seq<Copy>, d: nat, k: nat, scratch: Packet)
    returns (new': seq<Copy>)
    requires Mid(f, m, pending, sent, d) && Roomy(f, m) && k < |pending|
    ensures Mid(f, Next(f.w, m, Deliver(k, scratch)), pending[..k] + pending[k + 1..], sent + new', d)
  {
    var c, n := pending[k], Without(m, k);
    assert m.air[k] == c;
    WithoutBase(f, m, k);
    AirAfter(m, pending, sent, k);
    Verdicts(f, n, c, scratch);
    if Judged(n, c, scratch).verdict == Accepted {
      new' := AcceptKeepsMid(f, m, pending, sent, d, k, scratch);
    } else {
      new' := [];
      assert Next(f.w, m, Deliver(k, scratch)) == n && sent + [] == sent;
      RefusalKeepsMid(f, m, pending, sent, d, k);
    }
  }

  /** A copy refused as the receiver's own or as a duplicate. */
  lemma RefusalKeepsMid(f: Flood, m: Net, pending: seq<Copy>, sent: seq<Copy>, d: nat, k: nat)
    requires Mid(f, m, pending, sent, d) && k < |pending| && Base(f, Without(m, k)) && CopyOk(f.w, m.nodes, pending[k])
    requires Without(m, k).air == pending[..k] + pending[k + 1..] + sent
    requires var v := m.nodes[pending[k].to];
             pending[k].origin.packet.sender == v.id || Knows(v, pending[k].origin)
    ensures Mid(f, Without(m, k), pending[..k] + pending[k + 1..], sent, d)
  {
    var c, none: seq<Copy> := pending[k], [];
    if c.origin == f.o && c.to != f.o.src {
      assert m.nodes[c.to].id != m.nodes[f.o.src].id;
    }
    assert sent + none == sent;
    assert Without(m, k).air == pending[..k] + pending[k + 1..] + sent + none;
    QuietDelivery(f, m, pending, sent, d, k, Without(m, k), none);
  }

  lemma AcceptKeepsMid(f: Flood, m: Net, pending: seq<Copy>, sent: seq<Copy>, d: nat, k: nat, scratch: Packet)
    returns (new': seq<Copy>)
    requires Mid(f, m, pending, sent, d) && k < |pending| && Base(f, Without(m, k)) && CopyOk(f.w, m.nodes, pending[k])
    requires Without(m, k).air == pending[..k] + pending[k + 1..] + sent && m.air[k] == pending[k]
    requires Readable(pending[k], m) && Judged(Without(m, k), pending[k], scratch).verdict == Accepted
    requires pending[k].origin.packet.sender != m.nodes[pending[k].to].id
             && !Knows(m.nodes[pending[k].to], pending[k].origin)
    ensures Mid(f, Next(f.w, m, Deliver(k, scratch)), pending[..k] + pending[k + 1..], sent + new', d)
  {
    var c, n := pending[k], Without(m, k);
    var m' := Received(f.w, n, c, scratch);
    new' := AcceptedEffects(f.w, n, c, scratch);
    assert Base(f, m') by {
      ReceivedOk(f.w, n, c, scratch);
      ReceivedTracks(f.w, n, c, scratch);
      AcceptKeepsBase(f, n, m', c, new');
    }
    if c.origin == f.o {
      AcceptedInFlood(f, m, pending, sent, d, k, m', new');
      AcceptFlood(f, m, pending, sent, d, k, m', new');
    } else {
      AckQuiet(f, n, m', c, new');
      QuietDelivery(f, m, pending, sent, d, k, m', new');
    }
  }

  lemma AckQuiet(f: Flood, n: Net, m: Net, c: Copy, new': seq<Copy>)
    requires Base(f, n) && CopyOk(f.w, n.nodes, c) && c.origin != f.o && Foreign(f.o, c.origin)
             && Effects(f.w, n, c, m, new')
    requires Expected(f, c.origin)
    ensures forall x | x in new' :: x.origin != f.o
    ensures forall j: nat | j < f.n && j != f.o.src :: Knows(m.nodes[j], f.o) == Knows(n.nodes[j], f.o)
    ensures n.receipts <= m.receipts && forall r | |n.receipts| <= r < |m.receipts| :: m.receipts[r].origin != f.o
  {
    AckOnlyRelayed(f, n, m, c, new');
    forall j: nat | j < f.n && j != f.o.src
      ensures Knows(m.nodes[j], f.o) == Knows(n.nodes[j], f.o)
    {
      KnowledgeAfter(f, n, m, c, new', j);
    }
    NewReceipt(f, n, m, c, new');
  }

  lemma NewReceipt(f: Flood, n: Net, m: Net, c: Copy, new': seq<Copy>)
    requires c.to < |n.nodes| && c.origin != f.o && Effects(f.w, n, c, m, new')
    ensures n.receipts <= m.receipts && forall r | |n.receipts| <= r < |m.receipts| :: m.receipts[r].origin != f.o
  {
  }

  lemma AckOnlyRelayed(f: Flood, n: Net, m: Net, c: Copy, new': seq<Copy>)
    requires c.to < |n.nodes| && c.origin != f.o && Foreign(f.o, c.origin) && Effects(f.w, n, c, m, new')
    ensures forall x | x in new' :: x.origin != f.o
  {
    forall x | x in new'
      ensures x.origin != f.o
    {
      assert NextCopy(c, x, n.nodes[c.to].id);
    }
  }

  // ---------- Rounds ----------

  /** Purging and waiting inside the minute keep the invariant. */
  lemma IdleKeepsMid(f: Flood, m: Net, pending: seq<Copy>, sent: seq<Copy>, d: nat, s: Step)
    requires Mid(f, m, pending, sent, d) && Enabled(m, s) && (s.Purge? || s.Wait?)
    requires Next(f.w, m, s).now < f.t0 + TTL_MS
    ensures Mid(f, Next(f.w, m, s), pending, sent, d)
  {
    var m' := Next(f.w, m, s);
    StepOk(f.w, m, s);
    StepTracks(f.w, m, s);
    forall i: nat | i < f.n
      ensures SameCache(m.nodes[i], m'.nodes[i])
    {
    }
    IdleBase(f, m, m');
    forall j: nat | j < f.n && j != f.o.src
      ensures Heard(f, m', pending, d, j) && Forwarded(f, m', sent, d, j)
    {
      assert Heard(f, m, pending, d, j) && Forwarded(f, m, sent, d, j) && SameCache(m.nodes[j], m'.nodes[j]);
      SameKnowledge(f, m.nodes[j], m'.nodes[j]);
    }
  }

  ghost predicate SameCache(u: Node, v: Node) { u.id == v.id && u.key == v.key && u.log == v.log }

  lemma SameKnowledge(f: Flood, u: Node, v: Node)
    requires SameCache(u, v)
    ensures Knows(u, f.o) == Knows(v, f.o)
  {
    var id := Id(f.o.packet.sender, f.o.packet.msgId);
    assert forall k | 0 <= k < |u.log| :: KeyAt(u, k, id) == KeyAt(v, k, id);
  }

  lemma IdleBase(f: Flood, m: Net, m': Net)
    requires Base(f, m) && |m'.nodes| == f.n && NetOk(f.w, m') && AllTrack(m') && m'.air == m.air
    requires m.now <= m'.now < f.t0 + TTL_MS && forall i: nat | i < f.n :: SameCache(m.nodes[i], m'.nodes[i])
    ensures Base(f, m')
  {
    forall s: u32 | IdOf(m, s)
      ensures IdOf(m', s)
    {
      var i :| 0 <= i < |m.nodes| && m.nodes[i].id == s;
      assert SameCache(m.nodes[i], m'.nodes[i]);
    }
    forall i: nat | i < f.n
      ensures LogOk(f, m', m'.nodes[i]) && m'.nodes[i].id == m.nodes[i].id && m'.nodes[i].key == m.nodes[i].key
    {
      assert LogOk(f, m, m.nodes[i]) && SameCache(m.nodes[i], m'.nodes[i]);
      IdleLog(f, m, m', m.nodes[i], m'.nodes[i]);
    }
  }

  lemma IdleLog(f: Flood, m: Net, m': Net, v: Node, v': Node)
    requires LogOk(f, m, v) && SameCache(v, v') && forall s: u32 | IdOf(m, s) :: IdOf(m', s)
    ensures LogOk(f, m', v')
  {
    SameKnowledge(f, v, v');
  }

  function Delivers(run: seq<Step>): nat
  {
    if run == [] then 0 else Delivers(run[..|run| - 1]) + if run[|run| - 1].Deliver? then 1 else 0
  }

  /** Deliveries, in any order, of the first `air` copies only, with purges and waits anywhere between. */
  ghost predicate InRound(run: seq<Step>, air: nat)
  {
    run == [] ||
    var s, r := run[|run| - 1], run[..|run| - 1];
    InRound(r, air) && (s.Purge? || s.Wait? || (s.Deliver? && s.k + Delivers(r) < air))
  }

  lemma GrownRoomy(f: Flood, a: Net, b: Net)
    requires Grown(a, b) && Roomy(f, b)
    ensures Roomy(f, a)
  {
    assert forall i | 0 <= i < |a.nodes| :: SameNode(a.nodes[i], b.nodes[i]);
  }

  lemma {:induction false} InsideRound(f: Flood, m: Net, run: seq<Step>, d: nat)
    returns (pending: seq<Copy>, sent: seq<Copy>)
    requires Mid(f, m, m.air, [], d) && IsRun(f.w, m, run) && InRound(run, |m.air|)
    requires After(f.w, m, run).now < f.t0 + TTL_MS && Roomy(f, After(f.w, m, run))
    ensures Mid(f, After(f.w, m, run), pending, sent, d) && |pending| + Delivers(run) == |m.air|
  {
    if run == [] {
      pending, sent := m.air, [];
    } else {
      var r, s := run[..|run| - 1], run[|run| - 1];
      var a := After(f.w, m, r);
      StepGrows(f.w, a, s);
      GrownRoomy(f, a, After(f.w, m, run));
      pending, sent := InsideRound(f, m, r, d);
      if s.Deliver? {
        var new' := DeliverKeepsMid(f, a, pending, sent, d, s.k, s.scratch);
        pending, sent := pending[..s.k] + pending[s.k + 1..], sent + new';
      } else {
        IdleKeepsMid(f, a, pending, sent, d, s);
      }
    }
  }

  /** Between rounds: after `d` of them exactly the nodes within min(d, 4) hops have heard. */
  ghost predicate Between(f: Flood, m: Net, d: nat)
  {
    && Mid(f, m, m.air, [], d)
    && forall j: nat | j < f.n && j != f.o.src && Knows(m.nodes[j], f.o) :: j in Near(f, Min(d, RADIUS))
  }

  /** At the end of a round the next one is set up. */
  lemma NextRound(f: Flood, m: Net, sent: seq<Copy>, d: nat)
    requires Mid(f, m, [], sent, d)
    ensures Between(f, m, d + 1)
  {
    var e := d + 1;
    assert m.air == [] + sent == sent;
    assert sent == sent + [];
    forall j: nat | j < f.n && j != f.o.src
      ensures Heard(f, m, sent, e, j) && Forwarded(f, m, [], e, j)
      ensures Knows(m.nodes[j], f.o) ==> j in Near(f, Min(e, RADIUS))
    {
      assert Heard(f, m, [], d, j);
      NextRoundAt(f, m, sent, d, j);
    }
    assert Shape(f, m, sent, [], e);
  }

  lemma NotNearer(f: Flood, d: nat, i: nat, j: nat)
    requires j < f.n && j !in Near(f, d + 1) && Link(f.w, i, j) && i !in f.mute
    ensures i !in Near(f, d)
  {
    if i in Near(f, d) {
      assert NextTo(f.w, Near(f, d) - f.mute, j);
    }
  }

  lemma {:induction false} ReachGrows(w: World, n: nat, src: nat, mute: set<nat>, d: nat, e: nat)
    requires d <= e
    ensures Reach(w, n, src, mute, d) <= Reach(w, n, src, mute, e)
    decreases e - d
  {
    if d < e {
      ReachGrows(w, n, src, mute, d + 1, e);
    }
  }

  lemma {:induction false} ReachBelow(w: World, n: nat, src: nat, mute: set<nat>, d: nat, i: nat)
    requires i in Reach(w, n, src, mute, d) && i != src
    ensures i < n
  {
    if d > 0 && i in Reach(w, n, src, mute, d - 1) {
      ReachBelow(w, n, src, mute, d - 1, i);
    }
  }

  /** With nobody mute these are the hops of the network. */
  lemma SameStep(w: World, n: nat, a: set<nat>, mute: set<nat>)
    requires mute == {}
    ensures a + Around(w, n, a - mute) == a + Around(w, n, a)
  {
    assert a - mute == a;
  }

  lemma ReachIsBallNext(w: World, n: nat, src: nat, mute: set<nat>, d: nat)
    requires mute == {} && Reach(w, n, src, mute, d) == Ball(w, n, src, d)
    ensures Reach(w, n, src, mute, d + 1) == Ball(w, n, src, d + 1)
  {
    SameStep(w, n, Ball(w, n, src, d), mute);
  }

  lemma ReachIsBall(w: World, n: nat, src: nat, mute: set<nat>, d: nat)
    requires mute == {}
    ensures Reach(w, n, src, mute, d) == Ball(w, n, src, d)
  {
    for i := 0 to d
      invariant Reach(w, n, src, mute, i) == Ball(w, n, src, i)
    {
      ReachIsBallNext(w, n, src, mute, i);
    }
  }

  lemma NextRoundAt(f: Flood, m: Net, sent: seq<Copy>, d: nat, j: nat)
    requires Shape(f, m, [], sent, d) && j < f.n && j != f.o.src
    ensures Heard(f, m, sent, d + 1, j) && Forwarded(f, m, [], d + 1, j)
  {
    var e := Min(d + 1, RADIUS);
    assert Heard(f, m, [], d, j);
    ReachGrows(f.w, f.n, f.o.src, f.mute, e, Min(d + 2, RADIUS));
    ReachGrows(f.w, f.n, f.o.src, f.mute, 0, d);
    if d + 1 < RADIUS && j in Near(f, d + 2) && j !in Near(f, d + 1) {
      var i :| i in Near(f, d + 1) - f.mute && Link(f.w, i, j);
      NotNearer(f, d, i, j);
      ReachBelow(f.w, f.n, f.o.src, f.mute, d + 1, i);
      assert Heard(f, m, [], d, i) && Forwarded(f, m, sent, d, i);
    }
  }

  /** Each entry is one round: everything in flight at its start, and nothing else, is delivered in it. */
  ghost predicate AreRounds(w: World, net: Net, rounds: seq<seq<Step>>)
    decreases |rounds|, 0
  {
    rounds == [] ||
    var r, last := rounds[..|rounds| - 1], rounds[|rounds| - 1];
    && AreRounds(w, net, r)
    && var m := AfterRounds(w, net, r);
       IsRun(w, m, last) && InRound(last, |m.air|) && Delivers(last) == |m.air|
  }

  ghost function AfterRounds(w: World, net: Net, rounds: seq<seq<Step>>): Net
    requires AreRounds(w, net, rounds)
    decreases |rounds|, 1
  {
    if rounds == [] then net else After(w, AfterRounds(w, net, rounds[..|rounds| - 1]), rounds[|rounds| - 1])
  }

  lemma {:induction false} RoundsStayBetween(f: Flood, net: Net, rounds: seq<seq<Step>>)
    requires Between(f, net, 0) && AreRounds(f.w, net, rounds)
    requires AfterRounds(f.w, net, rounds).now < f.t0 + TTL_MS && Roomy(f, AfterRounds(f.w, net, rounds))
    ensures Between(f, AfterRounds(f.w, net, rounds), |rounds|)
  {
    if rounds != [] {
      var r, last := rounds[..|rounds| - 1], rounds[|rounds| - 1];
      var a := AfterRounds(f.w, net, r);
      RunGrows(f.w, a, last, 0);
      assert last[..0] == [];
      GrownRoomy(f, a, After(f.w, a, last));
      RoundsStayBetween(f, net, r);
      var pending, sent := InsideRound(f, a, last, |r|);
      assert pending == [];
      NextRound(f, After(f.w, a, last), sent, |r|);
    }
  }

  // ---------- The text ----------

  /** The network just after node `src` sent `text`. */
  ghost function Sending(
      w: World, net: Net, src: nat, dest: u32, msgId: u32, nonce: Nonce, text: seq<byte>, flags: byte): Net
    requires src < |net.nodes|
  {
    Next(w, net, SendText(src, dest, msgId, nonce, text, flags))
  }

  ghost predicate IsTextOf(o: Origin, net: Net, src: nat, dest: u32, msgId: u32, text: seq<byte>)
    requires src < |net.nodes|
  {
    && o.src == src && o.text == Some(text)
    && o.packet.sender == net.nodes[src].id && o.packet.msgId == msgId && o.packet.dest == dest
  }

  lemma TextStarts(
      w: World, net: Net, src: nat, dest: u32, msgId: u32, nonce: Nonce, text: seq<byte>, flags: byte)
    returns (o: Origin)
    requires Lawful(w.aead) && |text| <= MAX_PAYLOAD && Fresh(net) && GoodIds(net) && src < |net.nodes|
    ensures IsTextOf(o, net, src, dest, msgId, text) && HasAckReq(o.packet.flags) == HasAckReq(flags)
    ensures Between(Flood(w, |net.nodes|, o, net.now, MuteOf(net.nodes, src, dest)),
                    Sending(w, net, src, dest, msgId, nonce, text, flags), 0)
  {
    var p;
    o, p := TextPacket(w, net, src, dest, msgId, nonce, text, flags);
    var s := SendText(src, dest, msgId, nonce, text, flags);
    StepOk(w, net, s);
    FirstTracks(w, net, s);
    FirstMid(Flood(w, |net.nodes|, o, net.now, MuteOf(net.nodes, src, dest)), net, Next(w, net, s));
  }

  lemma TextPacket(
      w: World, net: Net, src: nat, dest: u32, msgId: u32, nonce: Nonce, text: seq<byte>, flags: byte)
    returns (o: Origin, p: Packet)
    requires Lawful(w.aead) && |text| <= MAX_PAYLOAD && src < |net.nodes|
    ensures IsTextOf(o, net, src, dest, msgId, text) && HasAckReq(o.packet.flags) == HasAckReq(flags)
    ensures p.payloadLen <= MAX_PAYLOAD && o == Origin(src, Addressed(p, net.nodes[src].id), Some(text))
    ensures OriginOk(w, net.nodes, o)
    ensures Sending(w, net, src, dest, msgId, nonce, text, flags) == Launched(w, net, src, p, Some(text))
  {
    var v := net.nodes[src];
    var d := Draft(v.id, dest, msgId, nonce, flags);
    SealedExactly(w.aead, v.key, d, text);
    p := SealText(w.aead, v.key, d, text).value;
    o := Origin(src, Addressed(p, v.id), Some(text));
    PacketOrigin(w, net, src, dest, msgId, nonce, text, flags, p);
    LaunchedText(w, net, src, dest, msgId, nonce, text, flags, p);
  }

  lemma PacketOrigin(
      w: World, net: Net, src: nat, dest: u32, msgId: u32, nonce: Nonce, text: seq<byte>, flags: byte, p: Packet)
    requires src < |net.nodes| && p.payloadLen <= MAX_PAYLOAD
    requires var v := net.nodes[src]; SealText(w.aead, v.key, Draft(v.id, dest, msgId, nonce, flags), text) == Some(p)
    ensures var o := Origin(src, Addressed(p, net.nodes[src].id), Some(text));
            && IsTextOf(o, net, src, dest, msgId, text) && OriginOk(w, net.nodes, o)
            && HasAckReq(o.packet.flags) == HasAckReq(flags)
  {
    WithEncryptedBits(flags);
    DraftSeals(w.aead, net.nodes[src].key, net.nodes[src].id, dest, msgId, nonce, text, flags, p);
  }

  lemma LaunchedText(
      w: World, net: Net, src: nat, dest: u32, msgId: u32, nonce: Nonce, text: seq<byte>, flags: byte, p: Packet)
    requires src < |net.nodes| && p.payloadLen <= MAX_PAYLOAD
    requires var v := net.nodes[src]; SealText(w.aead, v.key, Draft(v.id, dest, msgId, nonce, flags), text) == Some(p)
    ensures Sending(w, net, src, dest, msgId, nonce, text, flags) == Launched(w, net, src, p, Some(text))
  {
  }

  lemma DraftSeals(
      aead: Aead, key: Key, me: u32, dest: u32, msgId: u32, nonce: Nonce, text: seq<byte>, flags: byte, p: Packet)
    requires SealText(aead, key, Draft(me, dest, msgId, nonce, flags), text) == Some(p)
    ensures Seals(aead, key, me, Addressed(p, me), text)
  {
    WithEncryptedBits(flags);
  }

  lemma FirstTracks(w: World, net: Net, s: Step)
    requires Fresh(net) && Enabled(net, s)
    ensures AllTrack(Next(w, net, s))
  {
    assert AllTrack(net);
    StepTracks(w, net, s);
  }

  lemma FirstMid(f: Flood, net: Net, m: Net)
    requires Fresh(net) && GoodIds(net) && |net.nodes| == f.n && f.t0 == net.now && f.o.src < f.n
    requires f.mute == MuteOf(net.nodes, f.o.src, f.o.packet.dest) && f.o.text.Some?
             && f.o.packet.sender == net.nodes[f.o.src].id
    requires f.o.packet.payloadLen <= MAX_PAYLOAD && OriginOk(f.w, net.nodes, f.o)
    requires m == Transmitted(f.w, Cached(net, f.o.src, f.o.packet.sender, f.o.packet.msgId), f.o.src, Wire(f.o.packet),
                              f.o.packet, f.o, [f.o.src], false)
    requires NetOk(f.w, m) && AllTrack(m)
    ensures Between(f, m, 0)
  {
    var fan := Fan(f.w, f.n, f.o.src, Wire(f.o.packet), f.o, [f.o.src]);
    assert m.air == fan && m.receipts == [] && m.now == net.now;
    assert m.nodes == Cached(net, f.o.src, f.o.packet.sender, f.o.packet.msgId).nodes;
    FanCopies(f.w, f.n, f.o.src, Wire(f.o.packet), f.o, [f.o.src]);
    FirstBase(f, net, m);
    FirstShape(f, m);
  }

  lemma FirstShape(f: Flood, m: Net)
    requires f.o.packet.payloadLen <= MAX_PAYLOAD && m.air == Fan(f.w, f.n, f.o.src, Wire(f.o.packet), f.o, [f.o.src])
    requires |m.nodes| == f.n && f.o.src < f.n && f.o.src !in f.mute && m.receipts == []
    requires forall j: nat | j < f.n && j != f.o.src :: m.nodes[j].log == []
    ensures Shape(f, m, m.air, [], 0)
    ensures forall j: nat | j < f.n && j != f.o.src :: !Knows(m.nodes[j], f.o)
  {
    FanCopies(f.w, f.n, f.o.src, Wire(f.o.packet), f.o, [f.o.src]);
    forall j: nat | j < f.n && j != f.o.src
      ensures Heard(f, m, m.air, 0, j) && Forwarded(f, m, [], 0, j) && !Knows(m.nodes[j], f.o)
    {
      FirstHeard(f, m, j);
    }
  }

  lemma FirstHeard(f: Flood, m: Net, j: nat)
    requires |m.nodes| == f.n && j < f.n && j != f.o.src && m.nodes[j].log == [] && m.receipts == []
    requires f.o.packet.payloadLen <= MAX_PAYLOAD && m.air == Fan(f.w, f.n, f.o.src, Wire(f.o.packet), f.o, [f.o.src])
    ensures Heard(f, m, m.air, 0, j) && Forwarded(f, m, [], 0, j) && !Knows(m.nodes[j], f.o)
  {
    FanCopies(f.w, f.n, f.o.src, Wire(f.o.packet), f.o, [f.o.src]);
    assert Near(f, 0) == {f.o.src};
    if j in Near(f, 1) {
      assert Link(f.w, f.o.src, j);
      assert Copy(j, Wire(f.o.packet), f.o, [f.o.src]) in m.air;
    }
  }

  lemma FirstBase(f: Flood, net: Net, m: Net)
    requires Fresh(net) && GoodIds(net) && |net.nodes| == f.n && f.t0 == net.now && f.o.src < f.n
    requires f.mute == MuteOf(net.nodes, f.o.src, f.o.packet.dest) && f.o.text.Some?
             && f.o.packet.sender == net.nodes[f.o.src].id
    requires m.nodes == Cached(net, f.o.src, f.o.packet.sender, f.o.packet.msgId).nodes && m.now == net.now
    requires (forall c | c in m.air :: c.origin == f.o) && OriginOk(f.w, net.nodes, f.o) && NetOk(f.w, m) && AllTrack(m)
    ensures Base(f, m)
  {
    assert m.nodes[f.o.src].id == f.o.packet.sender && IdOf(m, f.o.packet.sender);
    assert forall i | 0 <= i < f.n :: m.nodes[i].id == net.nodes[i].id && m.nodes[i].key == net.nodes[i].key;
    SameMute(net.nodes, m.nodes, f.o.src, f.o.packet.dest);
    forall i | 0 <= i < f.n
      ensures LogOk(f, m, m.nodes[i])
    {
      assert i != f.o.src ==> m.nodes[i] == net.nodes[i];
      FirstLog(f, m, m.nodes[i]);
    }
  }

  lemma SameMute(a: seq<Node>, b: seq<Node>, src: nat, dest: u32)
    requires |a| == |b| && forall i | 0 <= i < |a| :: a[i].id == b[i].id
    ensures MuteOf(a, src, dest) == MuteOf(b, src, dest)
  {
  }

  lemma FirstLog(f: Flood, m: Net, v: Node)
    requires v.log == [] || v.log == [Seen(f.o.packet.sender, f.o.packet.msgId, f.t0)]
    requires IdOf(m, f.o.packet.sender)
    ensures LogOk(f, m, v)
  {
    if v.log != [] {
      assert KeyAt(v, 0, Id(f.o.packet.sender, f.o.packet.msgId));
    }
  }

  /**
   * In network `m` the text `o` has been accepted by exactly the nodes within `d` hops of its sender, itself
   * excepted, once each, over a path as long as the node's distance, where those in `mute` do not relay.
   */
  ghost predicate AcceptedWithin(w: World, m: Net, o: Origin, mute: set<nat>, d: nat)
  {
    var n := |m.nodes|;
    && (forall j: nat | j < n && j != o.src :: j in Reach(w, n, o.src, mute, d) <==> HasReceipt(o, m, j))
    && (forall k | 0 <= k < |m.receipts| && m.receipts[k].origin == o :: ReceivedAt(w, m, o, mute, m.receipts[k]))
    && (forall k, l | 0 <= k < l < |m.receipts| && m.receipts[k].origin == m.receipts[l].origin == o ::
          m.receipts[k].node != m.receipts[l].node)
  }

  /**
   * The receiver `d` hops away read ttl 4 - d. It was handed the packet, after its own relay of it, exactly if it is
   * an addressee; with the sender's key it then read the sender's text.
   */
  ghost predicate ReceivedAt(w: World, m: Net, o: Origin, mute: set<nat>, r: Receipt)
  {
    && r.node < |m.nodes| && o.src < |m.nodes| && r.node != o.src && r.path != []
    && InLayer(w, |m.nodes|, o.src, mute, |r.path|, r.node)
    && (r.handed.Some? <==> Addresses(o.packet, m.nodes[r.node].id))
    && (r.handed.Some? ==> r.handed.value.ttl + OwnRelay(o.packet, m.nodes[r.node].id, |r.path|) == 4 - |r.path|)
    && (r.handed.Some? && o.text.Some? && m.nodes[r.node].key == m.nodes[o.src].key ==>
          r.text == if |o.text.value| <= 160 then o.text else None)
  }

  function OwnRelay(p: Packet, id: u32, hops: nat): nat { if hops <= 3 && p.dest != id then 1 else 0 }

  lemma ReceiptReceived(f: Flood, m: Net, r: Receipt)
    requires Lawful(f.w.aead) && |m.nodes| == f.n && ReceiptOk(f.w, m.nodes, r) && Timely(f, r) && r.origin == f.o
    requires GoodIds(m)
    ensures ReceivedAt(f.w, m, f.o, f.mute, r)
  {
    ReceiptOpens(f.w, m.nodes, r);
  }

  lemma MidReach(f: Flood, m: Net, r: nat)
    requires Between(f, m, r) && Lawful(f.w.aead)
    ensures AcceptedWithin(f.w, m, f.o, f.mute, Min(r, RADIUS))
  {
    forall j: nat | j < f.n && j != f.o.src
      ensures j in Near(f, Min(r, RADIUS)) <==> HasReceipt(f.o, m, j)
    {
      assert Heard(f, m, m.air, r, j);
    }
    forall k | 0 <= k < |m.receipts| && m.receipts[k].origin == f.o
      ensures ReceivedAt(f.w, m, f.o, f.mute, m.receipts[k])
    {
      assert ReceiptOk(f.w, m.nodes, m.receipts[k]) && Timely(f, m.receipts[k]);
      ReceiptReceived(f, m, m.receipts[k]);
    }
  }

  /**
   * From empty caches, a text delivered in lossless rounds within a minute has, after `r` rounds, been accepted by
   * exactly the other nodes within min(r, 4) hops, where an only addressee does not relay it: once each and over a
   * path as long as their distance, in the round of that distance, reading ttl 4 less the distance. Addressees with
   * the sender's key read the sender's text.
   * It holds for any number of nodes if no acknowledgement is asked for or there is one addressee, for up to 64 nodes
   * otherwise, and beyond that for as long as no cache takes more than 64 keys.
   */
  lemma TextReach(
      w: World, net: Net, src: nat, dest: u32, msgId: u32, nonce: Nonce, text: seq<byte>, flags: byte,
      rounds: seq<seq<Step>>)
    returns (o: Origin)
    requires Lawful(w.aead) && |text| <= MAX_PAYLOAD && Fresh(net) && GoodIds(net) && src < |net.nodes|
    requires AreRounds(w, Sending(w, net, src, dest, msgId, nonce, text, flags), rounds)
    requires var m := AfterRounds(w, Sending(w, net, src, dest, msgId, nonce, text, flags), rounds);
             && m.now < net.now + 60000
             && (|net.nodes| <= 64 || !HasAckReq(flags) || dest != BROADCAST_ID || Small(m))
    ensures IsTextOf(o, net, src, dest, msgId, text)
    ensures var m := AfterRounds(w, Sending(w, net, src, dest, msgId, nonce, text, flags), rounds);
            AcceptedWithin(w, m, o, MuteOf(net.nodes, src, dest), Min(|rounds|, 4))
  {
    var b := Sending(w, net, src, dest, msgId, nonce, text, flags);
    o := TextStarts(w, net, src, dest, msgId, nonce, text, flags);
    var f := Flood(w, |net.nodes|, o, net.now, MuteOf(net.nodes, src, dest));
    RoundsStayBetween(f, b, rounds);
    MidReach(f, AfterRounds(w, b, rounds), |rounds|);
  }

  /** A broadcast is relayed by everyone: it is accepted by exactly the nodes one to four hops away. */
  lemma BroadcastReach(
      w: World, net: Net, src: nat, msgId: u32, nonce: Nonce, text: seq<byte>, flags: byte, rounds: seq<seq<Step>>)
    returns (o: Origin)
    requires Lawful(w.aead) && |text| <= MAX_PAYLOAD && Fresh(net) && GoodIds(net) && src < |net.nodes|
    requires AreRounds(w, Sending(w, net, src, BROADCAST_ID, msgId, nonce, text, flags), rounds)
    requires var m := AfterRounds(w, Sending(w, net, src, BROADCAST_ID, msgId, nonce, text, flags), rounds);
             m.now < net.now + 60000 && (|net.nodes| <= 64 || !HasAckReq(flags) || Small(m))
    ensures IsTextOf(o, net, src, BROADCAST_ID, msgId, text)
    ensures var m := AfterRounds(w, Sending(w, net, src, BROADCAST_ID, msgId, nonce, text, flags), rounds);
            && AcceptedWithin(w, m, o, {}, Min(|rounds|, 4))
            && forall j: nat | j < |m.nodes| && j != src ::
                 j in Ball(w, |m.nodes|, src, Min(|rounds|, 4)) <==> HasReceipt(o, m, j)
  {
    o := TextReach(w, net, src, BROADCAST_ID, msgId, nonce, text, flags, rounds);
    assert MuteOf(net.nodes, src, BROADCAST_ID) == {};
    var m := AfterRounds(w, Sending(w, net, src, BROADCAST_ID, msgId, nonce, text, flags), rounds);
    ReachIsBall(w, |m.nodes|, src, {}, Min(|rounds|, 4));
  }
}
