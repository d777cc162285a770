/**
 * The firmware's idle pass refines the network model: whatever one device does to its duplicate cache and to the
 * air in a pass is what a run of the network's steps does to that node.
 */
module Refinement {
  import opened Words
  import opened Packets
  import opened Dedup
  import opened Mesh
  import opened TextMessages
  import opened Network
  import opened HopRadius
  import MessageStore
  import F = Firmware

  /** Which node is sent which frame, without the history. */
  function Bare(air: seq<Copy>): seq<(nat, seq<byte>)>
  {
    if air == [] then [] else Bare(air[..|air| - 1]) + [(air[|air| - 1].to, air[|air| - 1].frame)]
  }

  /** One frame for every node below `n` in range of the transmitter. */
  function InRange(w: World, n: nat, src: nat, frame: seq<byte>): seq<(nat, seq<byte>)>
  {
    if n == 0 then []
    else InRange(w, n - 1, src, frame) + if n - 1 != src && w.hears(src, n - 1) then [(n - 1, frame)] else []
  }

  /** Several frames, in order. */
  function Spread(w: World, n: nat, src: nat, frames: seq<seq<byte>>): seq<(nat, seq<byte>)>
  {
    if frames == [] then [] else Spread(w, n, src, frames[..|frames| - 1]) + InRange(w, n, src, frames[|frames| - 1])
  }

  lemma {:induction false} BareConcat(a: seq<Copy>, b: seq<Copy>)
    ensures Bare(a + b) == Bare(a) + Bare(b)
  {
    if b == [] {
      assert a + b == a;
    } else {
      BareConcat(a, b[..|b| - 1]);
      assert (a + b)[..|a + b| - 1] == a + b[..|b| - 1];
    }
  }

  lemma BareSnoc(a: seq<Copy>, c: Copy)
    ensures Bare(a + [c]) == Bare(a) + [(c.to, c.frame)]
  {
    assert (a + [c])[..|a|] == a;
  }

  lemma {:induction false} BareFan(w: World, n: nat, src: nat, frame: seq<byte>, origin: Origin, path: seq<nat>)
    ensures Bare(Fan(w, n, src, frame, origin, path)) == InRange(w, n, src, frame)
  {
    if n > 0 {
      BareFan(w, n - 1, src, frame, origin, path);
      var g := Fan(w, n - 1, src, frame, origin, path);
      if n - 1 != src && w.hears(src, n - 1) {
        BareSnoc(g, Copy(n - 1, frame, origin, path));
      } else {
        assert Fan(w, n, src, frame, origin, path) == g;
      }
    }
  }

  lemma SpreadOne(w: World, n: nat, src: nat, frames: seq<seq<byte>>, frame: seq<byte>)
    ensures Spread(w, n, src, frames + [frame]) == Spread(w, n, src, frames) + InRange(w, n, src, frame)
  {
    assert (frames + [frame])[..|frames|] == frames;
  }

  /**
   * From `start`, node `i` has come to have that cache and has put those frames on the air; nobody else and no
   * clock has moved.
   */
  ghost predicate Reached(w: World, start: Net, i: nat, m: Net, ring: Ring, frames: seq<seq<byte>>)
  {
    && i < |start.nodes| == |m.nodes| && m.now == start.now
    && (forall j | 0 <= j < |m.nodes| && j != i :: m.nodes[j] == start.nodes[j])
    && m.nodes[i].id == start.nodes[i].id && m.nodes[i].key == start.nodes[i].key && m.nodes[i].ring == ring
    && Bare(m.air) == Bare(start.air) + Spread(w, |m.nodes|, i, frames)
  }

  lemma ReachedStart(w: World, start: Net, i: nat)
    requires i < |start.nodes|
    ensures Reached(w, start, i, start, start.nodes[i].ring, [])
  {
    assert Bare(start.air) + [] == Bare(start.air);
  }

  lemma TransmittedReaches(
      w: World, start: Net, i: nat, m: Net, ring: Ring, frames: seq<seq<byte>>, frame: seq<byte>, p: Packet,
      origin: Origin, path: seq<nat>, relayed: bool)
    requires Reached(w, start, i, m, ring, frames)
    ensures Reached(w, start, i, Transmitted(w, m, i, frame, p, origin, path, relayed), ring, frames + [frame])
  {
    TransmittedAir(w, m, i, frame, p, origin, path, relayed);
    SpreadOne(w, |m.nodes|, i, frames, frame);
    Regroup(Bare(start.air), Spread(w, |m.nodes|, i, frames), InRange(w, |m.nodes|, i, frame));
  }

  lemma Regroup<T>(a: seq<T>, b: seq<T>, c: seq<T>)
    ensures (a + b) + c == a + (b + c)
  {
  }

  lemma TransmittedAir(
      w: World, m: Net, i: nat, frame: seq<byte>, p: Packet, origin: Origin, path: seq<nat>, relayed: bool)
    ensures Bare(Transmitted(w, m, i, frame, p, origin, path, relayed).air)
            == Bare(m.air) + InRange(w, |m.nodes|, i, frame)
  {
    BareConcat(m.air, Fan(w, |m.nodes|, i, frame, origin, path));
    BareFan(w, |m.nodes|, i, frame, origin, path);
  }

  lemma CachedReaches(w: World, start: Net, i: nat, m: Net, ring: Ring, frames: seq<seq<byte>>, sender: u32, msgId: u32)
    requires Reached(w, start, i, m, ring, frames)
    ensures Reached(w, start, i, Cached(m, i, sender, msgId), Added(ring, sender, msgId, Millis(start.now)), frames)
  {
  }

  lemma LaunchedReaches(
      w: World, start: Net, i: nat, m: Net, ring: Ring, frames: seq<seq<byte>>, p: Packet, text: Option<seq<byte>>)
    requires Reached(w, start, i, m, ring, frames) && p.payloadLen <= MAX_PAYLOAD
    ensures var me := start.nodes[i].id;
            Reached(w, start, i, Launched(w, m, i, p, text), Added(ring, me, p.msgId, Millis(start.now)),
                    frames + [Wire(Addressed(p, me))])
  {
    var q := Addressed(p, m.nodes[i].id);
    CachedReaches(w, start, i, m, ring, frames, q.sender, q.msgId);
    TransmittedReaches(w, start, i, Cached(m, i, q.sender, q.msgId), Added(ring, q.sender, q.msgId, Millis(start.now)),
                       frames, Wire(q), q, Origin(i, q, text), [i], false);
  }

  /** What the network makes of a frame read by node `i` is the mesh outcome and its acknowledgement. */
  lemma ReceivedReaches(w: World, net: Net, c: Copy, scratch: Packet)
    requires Readable(c, net)
    ensures var o := Judged(net, c, scratch);
            var me := net.nodes[c.to].id;
            var ack := if o.delivered.Some? then Reply(w.aead, net.nodes[c.to].key, o.delivered.value) else None;
            Reached(w, net, c.to, Received(w, net, c, scratch),
                    if ack.Some? then Added(o.ring, me, ack.value.msgId, Millis(net.now)) else o.ring,
                    (if o.relay.Some? then [o.relay.value] else [])
                    + (if ack.Some? then [Wire(Addressed(ack.value, me))] else []))
  {
    var i, o := c.to, Judged(net, c, scratch);
    ReachedStart(w, net, i);
    if o.verdict == Accepted {
      var p := Parse(c.frame, scratch).value;
      CachedReaches(w, net, i, net, net.nodes[i].ring, [], p.sender, p.msgId);
      AcceptingReaches(w, net, c, p, o);
    } else {
      assert o.relay == None && o.delivered == None;
      if o.verdict == BadTtl {
        var p := Parse(c.frame, scratch).value;
        CachedReaches(w, net, i, net, net.nodes[i].ring, [], p.sender, p.msgId);
      }
    }
  }

  lemma AcceptingReaches(w: World, net: Net, c: Copy, p: Packet, o: Outcome)
    requires c.to < |net.nodes| && o.ring == Added(net.nodes[c.to].ring, p.sender, p.msgId, Millis(net.now))
    requires Reached(w, net, c.to, Cached(net, c.to, p.sender, p.msgId), o.ring, [])
    ensures var me := net.nodes[c.to].id;
            var ack := if o.delivered.Some? then Reply(w.aead, net.nodes[c.to].key, o.delivered.value) else None;
            Reached(w, net, c.to, Accepting(w, net, c, p, o),
                    if ack.Some? then Added(o.ring, me, ack.value.msgId, Millis(net.now)) else o.ring,
                    (if o.relay.Some? then [o.relay.value] else [])
                    + (if ack.Some? then [Wire(Addressed(ack.value, me))] else []))
  {
    RelayReaches(w, net, c, p, o);
    AckReaches(w, net, c.to, Noted(w, Relaying(w, net, c, p, o), c, p, o), o.ring,
               if o.relay.Some? then [o.relay.value] else [], o.delivered);
  }

  lemma RelayReaches(w: World, net: Net, c: Copy, p: Packet, o: Outcome)
    requires c.to < |net.nodes| && Reached(w, net, c.to, Cached(net, c.to, p.sender, p.msgId), o.ring, [])
    ensures Reached(w, net, c.to, Noted(w, Relaying(w, net, c, p, o), c, p, o), o.ring,
                    if o.relay.Some? then [o.relay.value] else [])
  {
    if o.relay.Some? {
      var none: seq<seq<byte>> := [];
      TransmittedReaches(w, net, c.to, Cached(net, c.to, p.sender, p.msgId), o.ring, none, o.relay.value, p, c.origin,
                         c.path + [c.to], true);
      assert none + [o.relay.value] == [o.relay.value];
    }
  }

  lemma AckReaches(w: World, start: Net, i: nat, m: Net, ring: Ring, frames: seq<seq<byte>>, handed: Option<Packet>)
    requires Reached(w, start, i, m, ring, frames)
    ensures var me := start.nodes[i].id;
            var ack := if handed.Some? then Reply(w.aead, start.nodes[i].key, handed.value) else None;
            Reached(w, start, i, Acking(w, m, i, handed),
                    if ack.Some? then Added(ring, me, ack.value.msgId, Millis(start.now)) else ring,
                    frames + (if ack.Some? then [Wire(Addressed(ack.value, me))] else []))
  {
    if handed.Some? && Reply(w.aead, start.nodes[i].key, handed.value).Some? {
      LaunchedReaches(w, start, i, m, ring, frames, AckFor(handed.value), None);
    } else {
      assert frames + [] == frames;
    }
  }

  // ---------- The steps of a pass ----------

  /** The device is node `i` of the network, at the network's time. */
  ghost predicate IsNode(w: World, net: Net, i: nat, aead: Aead, key: Key, me: u32, inp: F.Input)
  {
    && i < |net.nodes| && w.aead == aead && net.nodes[i].key == key && net.nodes[i].id == me
    && inp.now == Millis(net.now)
  }

  /** The frame the radio reads is copy `k` in flight to node `i`, if it reads any. */
  ghost predicate Reads(net: Net, i: nat, inp: F.Input, k: Option<nat>)
  {
    match k
    case None => inp.frame == None
    case Some(j) => j < |net.air| && net.air[j].to == i && inp.frame == Some(net.air[j].frame)
  }

  function Left(net: Net, k: Option<nat>): Net
    requires k.Some? ==> k.value < |net.air|
  {
    if k.Some? then Without(net, k.value) else net
  }

  lemma RadioReaches(
      w: World, net: Net, i: nat, aead: Aead, key: Key, me: u32, inp: F.Input, k: Option<nat>, a: F.Traffic,
      b: F.Traffic)
    returns (run: seq<Step>)
    requires IsNode(w, net, i, aead, key, me, inp) && Reads(net, i, inp, k) && a.ring == net.nodes[i].ring
    requires MessageStore.InBounds(a.store) && F.RadioDone(aead, key, me, inp, a, b)
    ensures IsRun(w, net, run) && Reached(w, Left(net, k), i, After(w, net, run), b.ring, b.sent)
  {
    run := [];
    ReachedStart(w, Left(net, k), i);
    if k.Some? {
      var c, n := net.air[k.value], Without(net, k.value);
      RunSnoc(w, net, run, Deliver(k.value, inp.scratch));
      run := run + [Deliver(k.value, inp.scratch)];
      if Readable(c, n) {
        ReceivedReaches(w, n, c, inp.scratch);
      }
    }
  }

  /** Sending a sealed text. */
  lemma SendReaches(
      w: World, start: Net, i: nat, m: Net, ring: Ring, frames: seq<seq<byte>>, dest: u32, msgId: u32, nonce: Nonce,
      flags: byte, text: seq<byte>, frame: seq<byte>)
    requires Reached(w, start, i, m, ring, frames)
    requires F.SealedFrame(w.aead, start.nodes[i].key, start.nodes[i].id, dest, msgId, nonce, flags, text, frame)
    ensures Enabled(m, SendText(i, dest, msgId, nonce, text, flags))
    ensures Reached(w, start, i, Next(w, m, SendText(i, dest, msgId, nonce, text, flags)),
                    Added(ring, start.nodes[i].id, msgId, Millis(start.now)), frames + [frame])
  {
    var s := SealText(w.aead, start.nodes[i].key, Draft(start.nodes[i].id, dest, msgId, nonce, flags), text);
    LaunchedReaches(w, start, i, m, ring, frames, s.value, Some(text));
  }

  lemma OutgoingReaches(
      w: World, start: Net, i: nat, net: Net, run: seq<Step>, key: Key, me: u32, inp: F.Input, frames: seq<seq<byte>>,
      a: F.Traffic, b: F.Traffic)
    returns (longer: seq<Step>)
    requires IsNode(w, start, i, w.aead, key, me, inp) && IsRun(w, net, run)
    requires Reached(w, start, i, After(w, net, run), a.ring, frames)
    requires MessageStore.InBounds(a.store) && F.OutgoingDone(w.aead, key, me, inp, a, b)
    ensures IsRun(w, net, longer) && Reached(w, start, i, After(w, net, longer), b.ring, frames + b.sent)
  {
    longer := run;
    if F.NonePending(a.store) {
      assert frames + b.sent == frames;
    } else {
      var idx :| F.OutgoingAt(w.aead, key, me, inp, a, idx, b);
      var m := a.store.slots[idx];
      var s := SendText(i, m.dest, inp.msgIds.0, inp.nonces.0, m.text[..m.textLen], m.flags);
      SendReaches(w, start, i, After(w, net, run), a.ring, frames, m.dest, inp.msgIds.0, inp.nonces.0, m.flags,
                  m.text[..m.textLen], b.sent[0]);
      RunSnoc(w, net, run, s);
      longer := run + [s];
      assert b.sent == [b.sent[0]];
    }
  }

  lemma PurgeReaches(w: World, start: Net, i: nat, net: Net, run: seq<Step>, ring: Ring, frames: seq<seq<byte>>)
    requires IsRun(w, net, run) && Reached(w, start, i, After(w, net, run), ring, frames)
    ensures IsRun(w, net, run + [Purge(i)])
    ensures Reached(w, start, i, After(w, net, run + [Purge(i)]), Ticked(ring, Millis(start.now)), frames)
  {
    RunSnoc(w, net, run, Purge(i));
  }

  lemma ComposeReaches(
      w: World, start: Net, i: nat, net: Net, run: seq<Step>, key: Key, me: u32, inp: F.Input, dest: u32,
      text: seq<byte>, frames: seq<seq<byte>>, a: F.Traffic, b: F.Traffic)
    returns (longer: seq<Step>)
    requires IsNode(w, start, i, w.aead, key, me, inp) && IsRun(w, net, run)
    requires Reached(w, start, i, After(w, net, run), a.ring, frames)
    requires MessageStore.InBounds(a.store) && F.ComposeDone(w.aead, key, me, inp, dest, text, a, b)
    ensures IsRun(w, net, longer) && Reached(w, start, i, After(w, net, longer), b.ring, frames + b.sent)
  {
    longer := run;
    if text == [] {
      assert frames + b.sent == frames;
    } else {
      var s := SendText(i, dest, inp.msgIds.1, inp.nonces.1, text, F.FLAG_ACK_REQ);
      SendReaches(w, start, i, After(w, net, run), a.ring, frames, dest, inp.msgIds.1, inp.nonces.1, F.FLAG_ACK_REQ,
                  text, b.sent[0]);
      RunSnoc(w, net, run, s);
      longer := run + [s];
      assert b.sent == [b.sent[0]];
    }
  }

  /**
   * Refinement: an idle pass of the firmware on node `i` is a run of the network. It ends with the device's cache at
   * that node and with exactly the frames the device handed to its radio spread to the nodes in range, after the
   * copy it read is gone.
   */
  lemma IdlePassIsRun(
      w: World, net: Net, i: nat, key: Key, me: u32, inp: F.Input, k: Option<nat>, dest: u32, text: seq<byte>,
      a: F.Traffic, z: F.Traffic)
    returns (run: seq<Step>)
    requires IsNode(w, net, i, w.aead, key, me, inp) && Reads(net, i, inp, k) && a.ring == net.nodes[i].ring
    requires MessageStore.InBounds(a.store) && F.IdleDone(w.aead, key, me, inp, dest, text, a, z)
    ensures IsRun(w, net, run) && Reached(w, Left(net, k), i, After(w, net, run), z.ring, z.sent)
  {
    var h: F.Traffic, d: F.Traffic :|
      MessageStore.InBounds(h.store) && F.MessagingDone(w.aead, key, me, inp, a, h) &&
      F.ComposeDone(w.aead, key, me, inp, dest, text, h, d) && z == d.(sent := h.sent + d.sent);
    run := MessagingIsRun(w, net, i, key, me, inp, k, a, h);
    run := ComposeReaches(w, Left(net, k), i, net, run, key, me, inp, dest, text, h.sent, h, d);
  }

  lemma MessagingIsRun(
      w: World, net: Net, i: nat, key: Key, me: u32, inp: F.Input, k: Option<nat>, a: F.Traffic, z: F.Traffic)
    returns (run: seq<Step>)
    requires IsNode(w, net, i, w.aead, key, me, inp) && Reads(net, i, inp, k) && a.ring == net.nodes[i].ring
    requires MessageStore.InBounds(a.store) && F.MessagingDone(w.aead, key, me, inp, a, z)
    ensures IsRun(w, net, run) && Reached(w, Left(net, k), i, After(w, net, run), z.ring, z.sent)
  {
    var b: F.Traffic, c: F.Traffic :|
      F.RadioDone(w.aead, key, me, inp, a, b) && F.OutgoingDone(w.aead, key, me, inp, b, c) &&
      z == F.Housekept(c, inp.now).(sent := b.sent + c.sent);
    run := RadioReaches(w, net, i, w.aead, key, me, inp, k, a, b);
    run := OutgoingReaches(w, Left(net, k), i, net, run, key, me, inp, b.sent, b, c);
    PurgeReaches(w, Left(net, k), i, net, run, c.ring, b.sent + c.sent);
    run := run + [Purge(i)];
  }

  // ---------- Many devices ----------

  /** One device as far as messaging goes. */
  datatype Station = Station(id: u32, key: Key, ring: Ring, store: MessageStore.Store)

  /** Devices and the frames in flight between them; nothing is remembered about where a frame came from. */
  datatype System = System(stations: seq<Station>, air: seq<(nat, seq<byte>)>, now: nat)

  /** An idle pass that reads the frame at `k` if any, input that changes the store, a lost frame, time passing. */
  datatype Event =
    | Pass(i: nat, inp: F.Input, k: Option<nat>, dest: u32, text: seq<byte>)
    | Use(i: nat, store: MessageStore.Store)
    | Drop(at: nat)
    | Elapse(ms: nat)

  function Taken(air: seq<(nat, seq<byte>)>, k: Option<nat>): seq<(nat, seq<byte>)>
    requires k.Some? ==> k.value < |air|
  {
    if k.Some? then air[..k.value] + air[k.value + 1..] else air
  }

  ghost predicate Happens(w: World, a: System, e: Event, b: System)
  {
    match e
    case Pass(i, inp, k, dest, text) =>
      && i < |a.stations| && MessageStore.InBounds(a.stations[i].store) && inp.now == Millis(a.now)
      && (match k
          case None => inp.frame == None
          case Some(j) => j < |a.air| && a.air[j].0 == i && inp.frame == Some(a.air[j].1))
      && var v := a.stations[i];
         exists z: F.Traffic ::
           F.IdleDone(w.aead, v.key, v.id, inp, dest, text, F.Traffic(v.ring, v.store, []), z) &&
           b == System(a.stations[i := v.(ring := z.ring, store := z.store)],
                       Taken(a.air, k) + Spread(w, |a.stations|, i, z.sent), a.now)
    case Use(i, store) => i < |a.stations| && b == a.(stations := a.stations[i := a.stations[i].(store := store)])
    case Drop(k) => k < |a.air| && b == a.(air := Taken(a.air, Some(k)))
    case Elapse(ms) => b == a.(now := a.now + ms)
  }

  ghost predicate Leads(w: World, a: System, evs: seq<Event>, b: System)
  {
    if evs == [] then b == a
    else
      var r, e := evs[..|evs| - 1], evs[|evs| - 1];
      exists m: System :: Leads(w, a, r, m) && Happens(w, m, e, b)
  }

  /** The network state is the system's, with history. */
  ghost predicate Matches(s: System, net: Net)
  {
    && |s.stations| == |net.nodes| && s.now == net.now && s.air == Bare(net.air)
    && (forall i | 0 <= i < |net.nodes| :: MatchesNode(s.stations[i], net.nodes[i]))
  }

  ghost predicate MatchesNode(v: Station, u: Node) { v.id == u.id && v.key == u.key && v.ring == u.ring }

  lemma {:induction false} BareAt(air: seq<Copy>, j: nat)
    requires j < |air|
    ensures |Bare(air)| == |air| && Bare(air)[j] == (air[j].to, air[j].frame)
  {
    var n := |air| - 1;
    if j < n {
      BareAt(air[..n], j);
    } else if n > 0 {
      BareAt(air[..n], 0);
    }
  }

  lemma BareTaken(net: Net, k: nat)
    requires k < |net.air|
    ensures |Bare(net.air)| == |net.air| && Bare(Without(net, k).air) == Taken(Bare(net.air), Some(k))
  {
    var a, c, b := net.air[..k], [net.air[k]], net.air[k + 1..];
    BareSplit(a, c, b);
    assert net.air == a + c + b;
    TakenMiddle(Bare(a), Bare(c), Bare(b));
  }

  lemma BareSplit(a: seq<Copy>, c: seq<Copy>, b: seq<Copy>)
    ensures Bare(a + c + b) == Bare(a) + Bare(c) + Bare(b) && Bare(a + b) == Bare(a) + Bare(b)
    ensures |Bare(a)| == |a| && |Bare(b)| == |b| && |Bare(c)| == |c|
  {
    BareConcat(a + c, b);
    BareConcat(a, c);
    BareConcat(a, b);
    BareLength(a);
    BareLength(b);
    BareLength(c);
  }

  lemma TakenMiddle(a: seq<(nat, seq<byte>)>, c: seq<(nat, seq<byte>)>, b: seq<(nat, seq<byte>)>)
    requires |c| == 1
    ensures Taken(a + c + b, Some(|a|)) == a + b
  {
    assert (a + c + b)[..|a|] == a && (a + c + b)[|a| + 1..] == b;
  }

  lemma {:induction false} BareLength(air: seq<Copy>)
    ensures |Bare(air)| == |air|
  {
    if air != [] {
      BareAt(air, 0);
    }
  }

  lemma RunConcatNext(w: World, net: Net, a: seq<Step>, r: seq<Step>, s: Step)
    requires IsRun(w, net, a) && IsRun(w, After(w, net, a), r) && IsRun(w, net, a + r)
    requires After(w, net, a + r) == After(w, After(w, net, a), r) && Enabled(After(w, net, a + r), s)
    ensures IsRun(w, After(w, net, a), r + [s]) && IsRun(w, net, a + (r + [s]))
    ensures After(w, net, a + (r + [s])) == After(w, After(w, net, a), r + [s])
  {
    RunSnoc(w, net, a + r, s);
    RunSnoc(w, After(w, net, a), r, s);
    Regroup(a, r, [s]);
  }

  lemma {:induction false} RunConcat(w: World, net: Net, a: seq<Step>, b: seq<Step>)
    requires IsRun(w, net, a) && IsRun(w, After(w, net, a), b)
    ensures IsRun(w, net, a + b) && After(w, net, a + b) == After(w, After(w, net, a), b)
  {
    if b == [] {
      assert a + b == a;
    } else {
      var r, s := b[..|b| - 1], b[|b| - 1];
      RunConcat(w, net, a, r);
      RunConcatNext(w, net, a, r, s);
      assert r + [s] == b;
    }
  }

  lemma PassMatches(w: World, a: System, net: Net, e: Event, b: System) returns (run: seq<Step>)
    requires Matches(a, net) && e.Pass? && Happens(w, a, e, b)
    ensures IsRun(w, net, run) && Matches(b, After(w, net, run))
  {
    var i, v := e.i, a.stations[e.i];
    var from := F.Traffic(v.ring, v.store, []);
    var z: F.Traffic :|
      F.IdleDone(w.aead, v.key, v.id, e.inp, e.dest, e.text, from, z) &&
      b == System(a.stations[i := v.(ring := z.ring, store := z.store)],
                  Taken(a.air, e.k) + Spread(w, |a.stations|, i, z.sent), a.now);
    assert MatchesNode(v, net.nodes[i]);
    BareLength(net.air);
    if e.k.Some? {
      BareAt(net.air, e.k.value);
      BareTaken(net, e.k.value);
    }
    run := IdlePassIsRun(w, net, i, v.key, v.id, e.inp, e.k, e.dest, e.text, from, z);
    ReachedMatches(w, a, net, i, e.k, After(w, net, run), z, b);
  }

  lemma ReachedMatches(w: World, a: System, net: Net, i: nat, k: Option<nat>, m: Net, z: F.Traffic, b: System)
    requires Matches(a, net) && i < |a.stations| && (k.Some? ==> k.value < |net.air| == |a.air|)
    requires Bare(Left(net, k).air) == Taken(a.air, k) && Reached(w, Left(net, k), i, m, z.ring, z.sent)
    requires b == System(a.stations[i := a.stations[i].(ring := z.ring, store := z.store)],
                         Taken(a.air, k) + Spread(w, |a.stations|, i, z.sent), a.now)
    ensures Matches(b, m)
  {
    forall j | 0 <= j < |m.nodes|
      ensures MatchesNode(b.stations[j], m.nodes[j])
    {
      assert MatchesNode(a.stations[j], net.nodes[j]);
    }
  }

  lemma UseMatches(a: System, net: Net, i: nat, store: MessageStore.Store)
    requires Matches(a, net) && i < |a.stations|
    ensures Matches(a.(stations := a.stations[i := a.stations[i].(store := store)]), net)
  {
    assert forall j | 0 <= j < |net.nodes| :: MatchesNode(a.stations[j], net.nodes[j]);
  }

  lemma DropMatches(w: World, a: System, net: Net, k: nat)
    requires Matches(a, net) && k < |a.air|
    ensures k < |net.air| && Matches(a.(air := Taken(a.air, Some(k))), Next(w, net, Lose(k)))
  {
    BareLength(net.air);
    BareTaken(net, k);
  }

  lemma OneStep(w: World, net: Net, s: Step)
    requires Enabled(net, s)
    ensures IsRun(w, net, [s]) && After(w, net, [s]) == Next(w, net, s)
  {
    var none: seq<Step> := [];
    RunSnoc(w, net, none, s);
    assert none + [s] == [s];
  }

  lemma HappensMatches(w: World, a: System, net: Net, e: Event, b: System) returns (run: seq<Step>)
    requires Matches(a, net) && Happens(w, a, e, b)
    ensures IsRun(w, net, run) && Matches(b, After(w, net, run))
  {
    match e
    case Pass(_, _, _, _, _) => run := PassMatches(w, a, net, e, b);
    case Use(i, store) =>
      run := [];
      UseMatches(a, net, i, store);
    case Drop(k) =>
      run := [Lose(k)];
      DropMatches(w, a, net, k);
      OneStep(w, net, Lose(k));
    case Elapse(ms) =>
      run := [Step.Wait(ms)];
      OneStep(w, net, Step.Wait(ms));
  }

  /**
   * Refinement of the whole system: any interleaving of idle passes of any number of devices, of their users' input,
   * of losses and of time is a run of the network, which ends with every device's cache and exactly its frames in
   * flight.
   */
  lemma {:induction false} SystemIsRun(w: World, a: System, net: Net, evs: seq<Event>, b: System)
    returns (run: seq<Step>)
    requires Matches(a, net) && Leads(w, a, evs, b)
    ensures IsRun(w, net, run) && Matches(b, After(w, net, run))
  {
    run := [];
    if evs != [] {
      var r, e := evs[..|evs| - 1], evs[|evs| - 1];
      var m: System :| Leads(w, a, r, m) && Happens(w, m, e, b);
      run := SystemIsRun(w, a, net, r, m);
      var tail := HappensMatches(w, m, After(w, net, run), e, b);
      RunConcat(w, net, run, tail);
      run := run + tail;
    }
  }

  /** Devices with empty caches and nothing in flight. */
  ghost predicate Quiet(s: System)
  {
    s.air == [] && forall i | 0 <= i < |s.stations| :: s.stations[i].ring == INIT
  }

  function FreshNode(v: Station): Node { Node(v.id, v.key, v.ring, []) }

  function FreshNodes(s: seq<Station>): (r: seq<Node>)
    ensures |r| == |s| && forall i | 0 <= i < |s| :: r[i] == FreshNode(s[i])
  {
    if s == [] then [] else FreshNodes(s[..|s| - 1]) + [FreshNode(s[|s| - 1])]
  }

  /** A well-formed frame of the device `src`, with so much ttl left that it is at most 4 - ttl hops from it. */
  ghost predicate InRadius(w: World, s: System, to: nat, frame: seq<byte>, scratch: Packet, src: nat)
  {
    && src < |s.stations| && |frame| < U16_RANGE && Parse(frame, scratch).Some?
    && var p := Parse(frame, scratch).value;
       p.ttl <= 3 && p.sender == s.stations[src].id
         && to in Ball(w, |s.stations|, src, 4 - p.ttl)
  }

  /**
   * What the network theorems say of the real devices: whatever they do from a quiet start, every frame in flight is
   * one device's, reads back, and is within the hops its ttl has used.
   */
  lemma SystemRadius(w: World, a: System, evs: seq<Event>, b: System, j: nat, scratch: Packet) returns (src: nat)
    requires Quiet(a) && Leads(w, a, evs, b) && j < |b.air|
    ensures InRadius(w, b, b.air[j].0, b.air[j].1, scratch, src)
  {
    var net := Net(FreshNodes(a.stations), [], a.now, [], []);
    assert forall i | 0 <= i < |net.nodes| :: MatchesNode(a.stations[i], net.nodes[i]);
    var run := SystemIsRun(w, a, net, evs, b);
    var m := After(w, net, run);
    BareLength(m.air);
    BareAt(m.air, j);
    src := m.air[j].origin.src;
    RunOk(w, net, run);
    assert m.air[j] in m.air;
    HopBudget(w, net, run, m.air[j], scratch);
    CopyInRadius(w, b, m, m.air[j], scratch);
  }

  lemma CopyInRadius(w: World, b: System, m: Net, c: Copy, scratch: Packet)
    requires Matches(b, m) && CopyOk(w, m.nodes, c) && Parse(c.frame, scratch).Some?
    requires var p := Parse(c.frame, scratch).value; p.ttl + |c.path| - 1 == 3 && Aad(p) == Aad(c.origin.packet)
    requires Parse(c.frame, scratch).value.sender == c.origin.packet.sender
    ensures InRadius(w, b, c.to, c.frame, scratch, c.origin.src)
  {
    assert MatchesNode(b.stations[c.origin.src], m.nodes[c.origin.src]);
    RouteInBall(w, |m.nodes|, c.path, c.to);
  }
}
