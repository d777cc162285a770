/**
 * The flood dies out: without further user sends, any order of deliveries and losses empties the air,
 * whatever the caches hold and whatever frames were in flight.
 */
module Quiescence {
  import opened Words
  import opened Packets
  import opened Dedup
  import opened Mesh
  import opened TextMessages
  import opened Network

  /** Copies a relay-only frame can still cause, itself included, when a transmission makes at most `f` copies. */
  function RelayWeight(f: nat, ttl: nat): (w: nat)
    ensures w >= 1
  {
    if ttl == 0 then 1 else 1 + f * RelayWeight(f, ttl - 1)
  }

  /** The same for a text, whose every delivery may also send an acknowledgement. */
  function TextWeight(f: nat, ttl: nat): (w: nat)
    ensures w >= 1
  {
    1 + f * RelayWeight(f, DEFAULT_TTL) + if ttl == 0 then 0 else f * TextWeight(f, ttl - 1)
  }

  function PacketWeight(f: nat, p: Packet): (w: nat)
    ensures w >= 1
  {
    if p.kind == KIND_TEXT then TextWeight(f, p.ttl) else RelayWeight(f, p.ttl)
  }

  function Weight(f: nat, frame: seq<byte>): (w: nat)
    ensures w >= 1
  {
    if |frame| > MAX_FRAME then 1
    else
      match Parse(frame, ZERO_PACKET)
      case None => 1
      case Some(p) => PacketWeight(f, p)
  }

  function Total(f: nat, air: seq<Copy>): nat
  {
    if air == [] then 0 else Total(f, air[..|air| - 1]) + Weight(f, air[|air| - 1].frame)
  }

  lemma {:induction false} TotalConcat(f: nat, a: seq<Copy>, b: seq<Copy>)
    ensures Total(f, a + b) == Total(f, a) + Total(f, b)
  {
    if b == [] {
      assert a + b == a;
    } else {
      TotalConcat(f, a, b[..|b| - 1]);
      assert (a + b)[..|a + b| - 1] == a + b[..|b| - 1];
    }
  }

  lemma TotalWithout(f: nat, net: Net, k: nat)
    requires k < |net.air|
    ensures Total(f, net.air) == Total(f, Without(net, k).air) + Weight(f, net.air[k].frame)
  {
    var a, c, b := net.air[..k], [net.air[k]], net.air[k + 1..];
    assert net.air == a + c + b;
    TotalConcat(f, a + c, b);
    TotalConcat(f, a, c);
    TotalConcat(f, a, b);
    assert c[..0] == [];
  }

  lemma {:induction false} TotalUniform(f: nat, air: seq<Copy>, frame: seq<byte>)
    requires forall c | c in air :: c.frame == frame
    ensures Total(f, air) == |air| * Weight(f, frame)
  {
    if air != [] {
      TotalUniform(f, air[..|air| - 1], frame);
      Distribute(|air| - 1, Weight(f, frame));
    }
  }

  lemma Distribute(n: nat, x: nat)
    ensures n * x + x == (n + 1) * x
  {
  }

  lemma TransmitCost(
      f: nat, w: World, net: Net, i: nat, q: Packet, p: Packet, origin: Origin, path: seq<nat>, relayed: bool)
    requires i < |net.nodes| <= f + 1 && q.payloadLen <= MAX_PAYLOAD && q.version == PROTOCOL_VERSION
    ensures Total(f, Transmitted(w, net, i, Wire(q), p, origin, path, relayed).air) <= Total(f, net.air)
            + f * PacketWeight(f, q)
  {
    var g := Fan(w, |net.nodes|, i, Wire(q), origin, path);
    TotalConcat(f, net.air, g);
    FanCopies(w, |net.nodes|, i, Wire(q), origin, path);
    TotalUniform(f, g, Wire(q));
    ParseWire(q, ZERO_PACKET);
    assert Weight(f, Wire(q)) == PacketWeight(f, q);
    MulMono(|g|, f, PacketWeight(f, q));
  }

  lemma MulMono(a: nat, b: nat, c: nat)
    requires a <= b
    ensures a * c <= b * c
  {
  }

  /** What relaying a packet, and what acknowledging it, may put on the air. */
  function RelayShare(f: nat, p: Packet): nat { if p.ttl > 0 then f * PacketWeight(f, OneHop(p)) else 0 }
  function AckShare(f: nat, kind: byte): nat { if kind == KIND_TEXT then f * RelayWeight(f, DEFAULT_TTL) else 0 }

  lemma HopWeight(f: nat, p: Packet)
    ensures PacketWeight(f, p) == 1 + RelayShare(f, p) + AckShare(f, p.kind)
  {
  }

  lemma AcceptCost(f: nat, w: World, net: Net, c: Copy, p: Packet, o: Outcome)
    requires c.to < |net.nodes| <= f + 1 && p.payloadLen <= MAX_PAYLOAD && p.version == PROTOCOL_VERSION
    requires o.relay.Some? ==> p.ttl > 0 && o.relay == Some(Wire(OneHop(p)))
    requires o.delivered.Some? ==> o.delivered.value.kind == p.kind
    ensures Total(f, Accepting(w, net, c, p, o).air) < Total(f, net.air) + PacketWeight(f, p)
  {
    var n := Noted(w, Relaying(w, net, c, p, o), c, p, o);
    var x, y := RelayShare(f, p), AckShare(f, p.kind);
    assert Total(f, n.air) <= Total(f, net.air) + x by {
      RelayCost(f, w, net, c, p, o);
    }
    assert Total(f, Acking(w, n, c.to, o.delivered).air) <= Total(f, n.air) + y by {
      AckCost(f, w, n, c.to, o.delivered);
    }
    assert PacketWeight(f, p) == 1 + x + y by {
      HopWeight(f, p);
    }
  }

  lemma RelayCost(f: nat, w: World, net: Net, c: Copy, p: Packet, o: Outcome)
    requires c.to < |net.nodes| <= f + 1 && p.payloadLen <= MAX_PAYLOAD && p.version == PROTOCOL_VERSION
    requires o.relay.Some? ==> p.ttl > 0 && o.relay == Some(Wire(OneHop(p)))
    ensures Total(f, Relaying(w, net, c, p, o).air) <=
            Total(f, net.air) + RelayShare(f, p)
  {
    if o.relay.Some? {
      TransmitCost(f, w, Cached(net, c.to, p.sender, p.msgId), c.to, OneHop(p), p, c.origin, c.path + [c.to], true);
    } else if p.ttl > 0 {
      MulMono(0, f, PacketWeight(f, OneHop(p)));
    }
  }

  lemma AckCost(f: nat, w: World, net: Net, i: nat, handed: Option<Packet>)
    requires i < |net.nodes| <= f + 1
    ensures Total(f, Acking(w, net, i, handed).air) <=
            Total(f, net.air) + if handed.Some? then AckShare(f, handed.value.kind) else 0
  {
    MulMono(0, f, RelayWeight(f, DEFAULT_TTL));
    if handed.Some? && Reply(w.aead, net.nodes[i].key, handed.value).Some? {
      var ack := Addressed(AckFor(handed.value), net.nodes[i].id);
      TransmitCost(f, w, Cached(net, i, ack.sender, ack.msgId), i, ack, ack, Origin(i, ack, None), [i], false);
    }
  }

  /** What reading one copy puts on the air weighs less than the copy. */
  lemma ReceiveCost(f: nat, w: World, net: Net, c: Copy, scratch: Packet)
    requires |net.nodes| <= f + 1
    ensures Total(f, Received(w, net, c, scratch).air) < Total(f, net.air) + Weight(f, c.frame)
  {
    if Readable(c, net) && Judged(net, c, scratch).verdict == Accepted {
      var p := Parse(c.frame, scratch).value;
      WireParse(c.frame, scratch);
      assert Weight(f, c.frame) == PacketWeight(f, p);
      AcceptCost(f, w, net, c, p, Judged(net, c, scratch));
    }
  }

  predicate Consumes(s: Step) { s.Deliver? || s.Lose? }

  function Consumed(run: seq<Step>): nat
  {
    if run == [] then 0 else Consumed(run[..|run| - 1]) + if Consumes(run[|run| - 1]) then 1 else 0
  }

  /** Every delivery and every loss strictly lightens the air; purging and waiting leave it. */
  lemma StepLightens(f: nat, w: World, net: Net, s: Step)
    requires |net.nodes| <= f + 1 && Enabled(net, s) && !s.SendText?
    ensures Consumes(s) ==> Total(f, Next(w, net, s).air) < Total(f, net.air)
    ensures !Consumes(s) ==> Next(w, net, s).air == net.air
  {
    match s
    case Deliver(k, scratch) =>
      TotalWithout(f, net, k);
      ReceiveCost(f, w, Without(net, k), net.air[k], scratch);
    case Lose(k) => TotalWithout(f, net, k);
    case _ =>
  }

  /**
   * Quiescence: a run without user sends makes at most as many deliveries and losses as the air weighs at its
   * start, and once it has made that many nothing is in flight.
   */
  lemma {:induction false} FloodDiesOut(f: nat, w: World, net: Net, run: seq<Step>)
    requires |net.nodes| <= f + 1 && IsRun(w, net, run) && forall s | s in run :: !s.SendText?
    ensures Consumed(run) + Total(f, After(w, net, run).air) <= Total(f, net.air)
    ensures Consumed(run) == Total(f, net.air) ==> After(w, net, run).air == []
  {
    if run != [] {
      var r, s := run[..|run| - 1], run[|run| - 1];
      FloodDiesOut(f, w, net, r);
      RunGrows(w, net, r, 0);
      assert r[..0] == [];
      StepLightens(f, w, After(w, net, r), s);
    }
  }

  /** While a copy is in flight the run can go on, so every maximal run ends with the air empty. */
  lemma {:induction false} DrainingRun(f: nat, w: World, net: Net) returns (run: seq<Step>)
    requires |net.nodes| <= f + 1
    ensures IsRun(w, net, run) && After(w, net, run).air == [] && |run| <= Total(f, net.air)
    ensures forall s | s in run :: s.Deliver?
  {
    run := [];
    while After(w, net, run).air != []
      invariant IsRun(w, net, run) && |run| + Total(f, After(w, net, run).air) <= Total(f, net.air)
      invariant |After(w, net, run).nodes| == |net.nodes|
      invariant forall s | s in run :: s.Deliver?
      decreases Total(f, After(w, net, run).air)
    {
      var m, s := After(w, net, run), Deliver(0, ZERO_PACKET);
      StepLightens(f, w, m, s);
      StepGrows(w, m, s);
      RunSnoc(w, net, run, s);
      run := run + [s];
    }
  }
}
