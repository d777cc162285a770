/**
 * What every copy in flight and every accepted frame carries, over all runs: the originator's packet after
 * exactly as many relays as its path has, along radio links, at most four hops from the originator.
 */
module HopRadius {
  import opened Words
  import opened Packets
  import opened Dedup
  import opened Mesh
  import opened TextMessages
  import opened Network

  /** A chain of radio links from the first node of `path` to `to`. */
  ghost predicate Route(w: World, n: nat, path: seq<nat>, to: nat)
  {
    && path != [] && to < n
    && (forall i | 0 <= i < |path| :: path[i] < n)
    && (forall i | 0 <= i < |path| - 1 :: path[i] != path[i + 1] && w.hears(path[i], path[i + 1]))
    && path[|path| - 1] != to && w.hears(path[|path| - 1], to)
  }

  /** `p` is the transmitted form of `text` sealed under `key` by the device `me`. */
  ghost predicate Seals(aead: Aead, key: Key, me: u32, p: Packet, text: seq<byte>)
  {
    var s := SealText(aead, key, Draft(me, p.dest, p.msgId, p.nonce, p.flags), text);
    s.Some? && p == Addressed(s.value, me)
  }

  ghost predicate OriginOk(w: World, nodes: seq<Node>, o: Origin)
  {
    && o.src < |nodes|
    && o.packet.version == PROTOCOL_VERSION && o.packet.ttl == DEFAULT_TTL && o.packet.payloadLen <= MAX_PAYLOAD
    && o.packet.sender == nodes[o.src].id
    && (o.text == None ==> o.packet.kind == KIND_ACK)
    && (o.text.Some? ==> Seals(w.aead, nodes[o.src].key, nodes[o.src].id, o.packet, o.text.value))
  }

  ghost predicate CopyOk(w: World, nodes: seq<Node>, c: Copy)
  {
    && OriginOk(w, nodes, c.origin)
    && Route(w, |nodes|, c.path, c.to) && c.path[0] == c.origin.src && |c.path| <= DEFAULT_TTL + 1
    && c.frame == Wire(AfterHops(c.origin.packet, |c.path| - 1))
  }

  /** Relays on the way to the record handed up; a broadcast is handed up after the receiver's own relay. */
  function HopsHandedUp(r: Receipt, me: u32): nat
    requires r.path != []
  {
    if |r.path| <= DEFAULT_TTL && r.origin.packet.dest != me then |r.path| else |r.path| - 1
  }

  ghost predicate ReceiptOk(w: World, nodes: seq<Node>, r: Receipt)
  {
    && OriginOk(w, nodes, r.origin)
    && Route(w, |nodes|, r.path, r.node) && r.path[0] == r.origin.src && |r.path| <= DEFAULT_TTL + 1
    && r.sender == r.origin.packet.sender != nodes[r.node].id && r.msgId == r.origin.packet.msgId
    && (r.handed.Some? <==> r.origin.packet.dest == nodes[r.node].id || r.origin.packet.dest == BROADCAST_ID)
    && (r.handed.Some? ==> SameFrame(AfterHops(r.origin.packet, HopsHandedUp(r, nodes[r.node].id)), r.handed.value))
    && r.text == Opened(w, nodes[r.node].key, r.handed)
  }

  ghost predicate NetOk(w: World, net: Net)
  {
    && (forall c | c in net.air :: CopyOk(w, net.nodes, c))
    && (forall r | r in net.receipts :: ReceiptOk(w, net.nodes, r))
  }

  /** The nodes that hear one of `b`. */
  ghost function Around(w: World, n: nat, b: set<nat>): set<nat> { set j: nat | j < n && NextTo(w, b, j) }

  /** The nodes within `d` hops of `src`. */
  ghost function Ball(w: World, n: nat, src: nat, d: nat): set<nat>
  {
    if d == 0 then {src}
    else
      var b := Ball(w, n, src, d - 1);
      b + Around(w, n, b)
  }

  ghost predicate Link(w: World, i: nat, j: nat) { i != j && w.hears(i, j) }

  ghost predicate NextTo(w: World, b: set<nat>, j: nat) { exists i :: i in b && Link(w, i, j) }

  // ---------- Preservation ----------

  lemma GrownKeeps(w: World, a: Net, b: Net)
    requires Grown(a, b)
    ensures forall c | CopyOk(w, a.nodes, c) :: CopyOk(w, b.nodes, c)
    ensures forall r | ReceiptOk(w, a.nodes, r) :: ReceiptOk(w, b.nodes, r)
  {
    forall o | OriginOk(w, a.nodes, o)
      ensures OriginOk(w, b.nodes, o)
    {
      assert SameNode(a.nodes[o.src], b.nodes[o.src]);
    }
    forall r | ReceiptOk(w, a.nodes, r)
      ensures ReceiptOk(w, b.nodes, r)
    {
      assert SameNode(a.nodes[r.node], b.nodes[r.node]);
    }
  }

  lemma TransmittedOk(
      w: World, net: Net, i: nat, frame: seq<byte>, p: Packet, origin: Origin, path: seq<nat>, relayed: bool)
    requires NetOk(w, net) && i < |net.nodes| && OriginOk(w, net.nodes, origin)
    requires 1 <= |path| <= DEFAULT_TTL + 1 && path[0] == origin.src && path[|path| - 1] == i
    requires |path| > 1 ==> Route(w, |net.nodes|, path[..|path| - 1], i)
    requires frame == Wire(AfterHops(origin.packet, |path| - 1))
    ensures NetOk(w, Transmitted(w, net, i, frame, p, origin, path, relayed))
  {
    FanCopies(w, |net.nodes|, i, frame, origin, path);
    var f := Fan(w, |net.nodes|, i, frame, origin, path);
    forall c | c in f
      ensures CopyOk(w, net.nodes, c)
    {
      RouteExtended(w, |net.nodes|, path, c.to);
    }
  }

  lemma RouteExtended(w: World, n: nat, path: seq<nat>, to: nat)
    requires path != [] && to < n && path[|path| - 1] < n && path[|path| - 1] != to && w.hears(path[|path| - 1], to)
    requires |path| > 1 ==> Route(w, n, path[..|path| - 1], path[|path| - 1])
    ensures Route(w, n, path, to)
  {
    if |path| > 1 {
      var q := path[..|path| - 1];
      assert forall i | 0 <= i < |q| :: path[i] == q[i];
    }
  }

  lemma LaunchedOk(w: World, net: Net, i: nat, p: Packet, text: Option<seq<byte>>)
    requires NetOk(w, net) && i < |net.nodes| && p.payloadLen <= MAX_PAYLOAD
    requires text == None ==> p.kind == KIND_ACK
    requires text.Some? ==> Seals(w.aead, net.nodes[i].key, net.nodes[i].id, Addressed(p, net.nodes[i].id), text.value)
    ensures NetOk(w, Launched(w, net, i, p, text))
  {
    var q := Addressed(p, net.nodes[i].id);
    var m := Cached(net, i, q.sender, q.msgId);
    assert Grown(net, m);
    GrownKeeps(w, net, m);
    TransmittedOk(w, m, i, Wire(q), q, Origin(i, q, text), [i], false);
  }

  lemma WireOfSameFrame(p: Packet, q: Packet)
    requires p.payloadLen <= MAX_PAYLOAD && SameFrame(p, q)
    ensures Wire(p) == Wire(q)
  {
  }

  /** What an accepted copy is judged to be, in terms of the originator's packet. */
  lemma AcceptedCopy(w: World, net: Net, c: Copy, scratch: Packet)
    requires CopyOk(w, net.nodes, c) && Readable(c, net)
    requires Judged(net, c, scratch).verdict == Accepted
    ensures var o := Judged(net, c, scratch); var sent, me := c.origin.packet, net.nodes[c.to].id;
            var r := Receipt(c.to, sent.sender, sent.msgId, c.origin, c.path, o.delivered,
                             Opened(w, net.nodes[c.to].key, o.delivered));
            && sent.sender != me && ReceiptOk(w, net.nodes, r)
            && SameFrame(AfterHops(sent, |c.path| - 1), Parse(c.frame, scratch).value)
            && (o.relay.Some? <==> |c.path| <= DEFAULT_TTL && sent.dest != me)
            && (o.relay.Some? ==> o.relay.value == Wire(AfterHops(sent, |c.path|)))
  {
    var k := |c.path| - 1;
    var p0 := AfterHops(c.origin.packet, k);
    ParseWire(p0, scratch);
    var p := Parse(c.frame, scratch).value;
    if k < DEFAULT_TTL {
      HopOfHops(c.origin.packet, k);
      WireOfSameFrame(OneHop(p0), OneHop(p));
    }
  }

  lemma RelayingOk(w: World, net: Net, c: Copy, p: Packet, o: Outcome)
    requires NetOk(w, net) && CopyOk(w, net.nodes, c)
    requires o.relay.Some? ==> |c.path| <= DEFAULT_TTL && o.relay.value == Wire(AfterHops(c.origin.packet, |c.path|))
    ensures NetOk(w, Relaying(w, net, c, p, o)) && Grown(net, Relaying(w, net, c, p, o))
  {
    var m := Cached(net, c.to, p.sender, p.msgId);
    assert Grown(net, m);
    GrownKeeps(w, net, m);
    if o.relay.Some? {
      var path := c.path + [c.to];
      assert path[..|path| - 1] == c.path;
      TransmittedOk(w, m, c.to, o.relay.value, p, c.origin, path, true);
    }
  }

  lemma NotedOk(w: World, net: Net, c: Copy, scratch: Packet)
    requires NetOk(w, net) && CopyOk(w, net.nodes, c) && Readable(c, net)
    requires Judged(net, c, scratch).verdict == Accepted
    ensures var o := Judged(net, c, scratch);
            NetOk(w, Noted(w, Relaying(w, net, c, Parse(c.frame, scratch).value, o), c, Parse(c.frame, scratch).value,
                           o))
  {
    AcceptedCopy(w, net, c, scratch);
    RelayingOk(w, net, c, Parse(c.frame, scratch).value, Judged(net, c, scratch));
    GrownKeeps(w, net, Relaying(w, net, c, Parse(c.frame, scratch).value, Judged(net, c, scratch)));
  }

  lemma ReceivedOk(w: World, net: Net, c: Copy, scratch: Packet)
    requires NetOk(w, net) && CopyOk(w, net.nodes, c)
    ensures NetOk(w, Received(w, net, c, scratch))
  {
    if Readable(c, net) {
      var o := Judged(net, c, scratch);
      if o.verdict == Accepted {
        NotedOk(w, net, c, scratch);
        var n := Noted(w, Relaying(w, net, c, Parse(c.frame, scratch).value, o), c, Parse(c.frame, scratch).value, o);
        if o.delivered.Some? && Reply(w.aead, n.nodes[c.to].key, o.delivered.value).Some? {
          LaunchedOk(w, n, c.to, AckFor(o.delivered.value), None);
        }
      } else if o.verdict == BadTtl {
        var p := Parse(c.frame, scratch).value;
        assert Grown(net, Cached(net, c.to, p.sender, p.msgId));
        GrownKeeps(w, net, Cached(net, c.to, p.sender, p.msgId));
      }
    }
  }

  lemma StepOk(w: World, net: Net, s: Step)
    requires NetOk(w, net) && Enabled(net, s)
    ensures NetOk(w, Next(w, net, s))
  {
    match s
    case Deliver(k, scratch) => ReceivedOk(w, Without(net, k), net.air[k], scratch);
    case SendText(src, dest, msgId, nonce, text, flags) =>
      var d := Draft(net.nodes[src].id, dest, msgId, nonce, flags);
      var p := SealText(w.aead, net.nodes[src].key, d, text);
      if p.Some? && p.value.payloadLen <= MAX_PAYLOAD {
        WithEncryptedBits(flags);
        LaunchedOk(w, net, src, p.value, Some(text));
      }
    case Lose(_) =>
    case _ =>
      StepGrows(w, net, s);
      GrownKeeps(w, net, Next(w, net, s));
  }

  /** In every reachable network each copy in flight and each receipt is the originator's packet after its hops. */
  lemma {:induction false} RunOk(w: World, net: Net, run: seq<Step>)
    requires NetOk(w, net) && IsRun(w, net, run)
    ensures NetOk(w, After(w, net, run))
  {
    if run != [] {
      RunOk(w, net, run[..|run| - 1]);
      StepOk(w, After(w, net, run[..|run| - 1]), run[|run| - 1]);
    }
  }

  // ---------- What it means ----------

  /**
   * Hop budget: whatever a receiver reads from a copy in flight has ttl 3 less the relays on its path, the relay
   * flag exactly when it was relayed (or sent with it), and is otherwise the originator's packet.
   */
  lemma HopBudget(w: World, net: Net, run: seq<Step>, c: Copy, scratch: Packet)
    requires Fresh(net) && IsRun(w, net, run) && c in After(w, net, run).air
    ensures var relays := |c.path| - 1; var sent := c.origin.packet;
            && 0 <= relays <= 3 && 0 < |c.frame| <= MAX_FRAME && Parse(c.frame, scratch).Some?
            && var p := Parse(c.frame, scratch).value;
               && p.ttl + relays == 3 && sent.payloadLen <= MAX_PAYLOAD
               && (p.flags / 4 % 2 == 1 <==> relays > 0 || sent.flags / 4 % 2 == 1)
               && SameFrame(sent.(ttl := p.ttl, flags := p.flags), p) && Aad(p) == Aad(sent)
  {
    RunOk(w, net, run);
    ParseWire(AfterHops(c.origin.packet, |c.path| - 1), scratch);
    WithRelayedBits(c.origin.packet.flags);
  }

  lemma {:induction false} RouteInBall(w: World, n: nat, path: seq<nat>, to: nat)
    requires Route(w, n, path, to)
    ensures to in Ball(w, n, path[0], |path|)
    decreases |path|
  {
    var i := path[|path| - 1];
    if |path| > 1 {
      var q := path[..|path| - 1];
      assert forall k | 0 <= k < |q| :: q[k] == path[k];
      assert path[|path| - 2] == q[|q| - 1];
      RouteInBall(w, n, q, i);
    }
    assert i in Ball(w, n, path[0], |path| - 1);
  }

  lemma {:induction false} BallGrows(w: World, n: nat, src: nat, d: nat, e: nat)
    requires d <= e
    ensures Ball(w, n, src, d) <= Ball(w, n, src, e)
    decreases e - d
  {
    if d < e {
      BallGrows(w, n, src, d + 1, e);
    }
  }

  /** Hop radius: no node more than four hops from the originator ever accepts a frame. */
  lemma HopRadiusBound(w: World, net: Net, run: seq<Step>, r: Receipt)
    requires Fresh(net) && IsRun(w, net, run) && r in After(w, net, run).receipts
    ensures r.node in Ball(w, |net.nodes|, r.origin.src, 4)
  {
    RunOk(w, net, run);
    RunGrows(w, net, run, 0);
    assert run[..0] == [];
    RouteInBall(w, |net.nodes|, r.path, r.node);
    BallGrows(w, |net.nodes|, r.origin.src, |r.path|, DEFAULT_TTL + 1);
  }

  /**
   * End-to-end transparency: whenever a text is accepted by an addressee holding the sender's key, after any number of
   * relays, the addressee opens exactly the sender's text if it has at most 160 bytes and nothing otherwise; and only
   * addressees are handed anything.
   */
  lemma TextArrivesIntact(w: World, net: Net, run: seq<Step>, r: Receipt)
    requires Lawful(w.aead) && Fresh(net) && IsRun(w, net, run) && r in After(w, net, run).receipts
    ensures r.origin.src < |net.nodes| && r.node < |net.nodes| && r.node != r.origin.src
    ensures r.handed.Some? <==> r.origin.packet.dest == net.nodes[r.node].id || r.origin.packet.dest == 0xFFFF_FFFF
    ensures r.handed.Some? ==>
            r.handed.value.sender == net.nodes[r.origin.src].id && r.handed.value.msgId == r.origin.packet.msgId
    ensures r.handed.Some? && r.origin.text.Some? && net.nodes[r.node].key == net.nodes[r.origin.src].key
            ==> r.text == if |r.origin.text.value| <= 160 then r.origin.text else None
  {
    RunOk(w, net, run);
    RunGrows(w, net, run, 0);
    assert run[..0] == [];
    var m := After(w, net, run);
    assert SameNode(net.nodes[r.node], m.nodes[r.node]) && SameNode(net.nodes[r.origin.src], m.nodes[r.origin.src]);
    assert r in m.receipts && ReceiptOk(w, m.nodes, r);
    ReceiptOpens(w, m.nodes, r);
  }

  /** A receipt by an addressee with the sender's key holds the sender's text, unless that is too long. */
  lemma ReceiptOpens(w: World, nodes: seq<Node>, r: Receipt)
    requires Lawful(w.aead) && ReceiptOk(w, nodes, r)
    ensures r.handed.Some? && r.origin.text.Some? && nodes[r.node].key == nodes[r.origin.src].key
            ==> r.text == if |r.origin.text.value| <= 160 then r.origin.text else None
  {
    if r.handed.Some? && r.origin.text.Some? && nodes[r.node].key == nodes[r.origin.src].key {
      var p, v := r.origin.packet, nodes[r.origin.src];
      SealedTextOpens(w.aead, v.key, v.id, p.dest, p.msgId, p.nonce, r.origin.text.value, p.flags,
                      HopsHandedUp(r, nodes[r.node].id), r.handed.value);
      assert r.handed.value.kind == KIND_TEXT;
    }
  }
}
