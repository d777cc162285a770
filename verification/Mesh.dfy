/**
 * The mesh routing engine (firmware/src/mesh.cpp): deduplication, TTL check, relay and local delivery.
 *
 * `Handle` and `Launch` say what receiving a frame and sending a packet do to the duplicate cache and to
 * the air; the class does the same step by step over the real cache and buffers. The radio is an
 * out-parameter: the frame handed to it, if any.
 */
module Mesh {
  import opened Words
  import opened Packets
  import opened Dedup

  const DEFAULT_TTL: byte := 3
  const MAX_TTL: byte := 7

  /** The packet a relay puts on the air: one hop less, marked relayed. */
  function OneHop(p: Packet): Packet
    requires p.ttl > 0
  {
    p.(ttl := p.ttl - 1, flags := WithRelayed(p.flags))
  }

  /** What the statistics count as dropped. */
  predicate Drops(v: Verdict) { v in {Malformed, Duplicate, BadTtl} }

  datatype Verdict = Malformed | Own | Duplicate | BadTtl | Accepted

  /** What receiving one frame does: the cache afterwards, the frame relayed and the packet handed up. */
  datatype Outcome = Outcome(verdict: Verdict, ring: Ring, relay: Option<seq<byte>>, delivered: Option<Packet>)

  predicate Relays(p: Packet, me: u32) { p.ttl > 0 && p.dest != me }

  /** Relaying changes the packet in place, so a relayed packet is handed up as relayed. */
  function Handle(r: Ring, frame: seq<byte>, me: u32, now: u32, scratch: Packet): Outcome
    requires |frame| < U16_RANGE
  {
    match Parse(frame, scratch)
    case None => Outcome(Malformed, r, None, None)
    case Some(p) =>
      if p.sender == me then Outcome(Own, r, None, None)
      else if IsDup(r, p.sender, p.msgId, now) then Outcome(Duplicate, r, None, None)
      else
        var r' := Added(r, p.sender, p.msgId, now);
        if p.ttl > MAX_TTL then Outcome(BadTtl, r', None, None)
        else
          var q := if Relays(p, me) then OneHop(p) else p;
          Outcome(Accepted, r',
                  if Relays(p, me) then Some(Wire(q)) else None,
                  if p.dest == me || p.dest == BROADCAST_ID then Some(q) else None)
  }

  /** The packet as `send_packet` puts it on the air. */
  function Addressed(p: Packet, me: u32): Packet
  {
    p.(version := PROTOCOL_VERSION, sender := me, ttl := DEFAULT_TTL)
  }

  /** Frame `c` is frame `b` one hop on: the ttl a byte less, the relay bit set, every other byte the same. */
  predicate NextHop(b: seq<byte>, c: seq<byte>)
  {
    && 46 <= |c| <= |b| && c[14] as int == b[14] as int - 1
    && c[15] / 4 % 2 == 1 && c[15] % 4 == b[15] % 4 && c[15] / 8 == b[15] / 8
    && forall i | 0 <= i < |c| && i != 14 && i != 15 :: c[i] == b[i]
  }

  /**
   * What becomes of a received frame, read off its bytes: refused when malformed, one's own, a duplicate or of a ttl
   * over 7, its key cached in the last case; relayed one hop on unless the ttl is used up or one is the addressee;
   * handed up, as relayed, to the addressee and, if broadcast, to everyone.
   */
  lemma HandledExactly(r: Ring, b: seq<byte>, me: u32, now: u32, scratch: Packet)
    requires |b| < U16_RANGE
    ensures !IsFrame(b) ==> Handle(r, b, me, now, scratch) == Outcome(Malformed, r, None, None) && Drops(Malformed)
    ensures IsFrame(b) ==>
              var o := Handle(r, b, me, now, scratch);
              var sender, dest, msgId := Denotes(b[2..6]), Denotes(b[6..10]), Denotes(b[10..14]);
              && o.verdict == (if sender == me then Own
                               else if IsDup(r, sender, msgId, now) then Duplicate
                               else if b[14] > 7 then BadTtl else Accepted)
              && (Drops(o.verdict) <==> sender != me && (IsDup(r, sender, msgId, now) || b[14] > 7))
              && o.ring == (if o.verdict in {Own, Duplicate} then r else Added(r, sender, msgId, now))
              && (o.relay.Some? <==> o.verdict == Accepted && b[14] > 0 && dest != me)
              && (o.relay.Some? ==> |o.relay.value| == 46 + Denotes(b[28..30]) && NextHop(b, o.relay.value))
              && (o.delivered.Some? <==> o.verdict == Accepted && (dest == me || dest == 0xFFFF_FFFF))
              && (o.delivered.Some? ==>
                  && o.delivered.value.payloadLen <= MAX_PAYLOAD
                  && Wire(o.delivered.value)
                     == if o.relay.Some? then o.relay.value else b[..46 + Denotes(b[28..30])])
  {
    ParseExactly(b, scratch);
    if IsFrame(b) {
      var p := Parse(b, scratch).value;
      if Relays(p, me) {
        HopBytes(p);
      }
      assert p.sender == Denotes(b[2..6]) && p.msgId == Denotes(b[10..14]);
    }
  }

  lemma HopBytes(p: Packet)
    requires p.ttl > 0 && p.payloadLen <= MAX_PAYLOAD
    ensures NextHop(Wire(p), Wire(OneHop(p)))
  {
    WithRelayedBits(p.flags);
    var b, c := Wire(p), Wire(OneHop(p));
    assert b[14] == p.ttl && c[14] == p.ttl - 1 && b[15] == p.flags && c[15] == WithRelayed(p.flags);
    assert b[..14] == c[..14] == Aad(p) && b[16..] == c[16..];
    forall i | 0 <= i < |c| && i != 14 && i != 15
      ensures c[i] == b[i]
    {
      if i < 14 {
        assert b[..14][i] == c[..14][i];
      } else {
        assert b[16..][i - 16] == c[16..][i - 16];
      }
    }
  }

  function Counted(n: u32): u32 { (n + 1) % U32_RANGE }

  class MeshEngine {
    const cache: DedupRing
    var relayed: u32
    var dropped: u32

    ghost predicate Valid()
      reads this, cache
    {
      cache.Valid()
    }

    constructor ()
      ensures Valid() && fresh(cache) && fresh(cache.slots)
      ensures cache.Value() == INIT && relayed == 0 && dropped == 0
    {
      cache := new DedupRing();
      relayed, dropped := 0, 0;
    }

    /** `p` is the caller's record; the result is its value afterwards. */
    method RelayPacket(p: Packet) returns (q: Packet, sent: Option<seq<byte>>)
      requires p.payloadLen <= MAX_PAYLOAD
      modifies this`relayed
      ensures p.ttl == 0 ==> q == p && sent == None && relayed == old(relayed)
      ensures p.ttl > 0 ==> q == OneHop(p) && sent == Some(Wire(q)) && relayed == Counted(old(relayed))
    {
      q, sent := p, None;
      if q.ttl == 0 {
        return;
      }
      q := q.(ttl := q.ttl - 1);
      q := q.(flags := WithRelayed(q.flags));
      var buf := new byte[MAX_FRAME](_ => 0);
      var len := Encode(q, buf, MAX_FRAME);
      if len == 0 {
        return;
      }
      sent := Some(buf[..len]);
      relayed := Counted(relayed);
    }

    method ProcessIncoming(buf: array<byte>, len: u16, me: u32, now: u32, scratch: Packet)
      returns (forUs: bool, out: Packet, sent: Option<seq<byte>>)
      requires Valid() && len <= buf.Length
      modifies this`relayed, this`dropped, cache, cache.slots
      ensures Valid() && cache.slots == old(cache.slots)
      ensures var o := Handle(old(cache.Value()), old(buf[..len]), me, now, scratch);
              && cache.Value() == o.ring && sent == o.relay
              && forUs == o.delivered.Some? && (forUs ==> out == o.delivered.value)
              && relayed == (if o.relay.Some? then Counted(old(relayed)) else old(relayed))
              && dropped == (if Drops(o.verdict) then Counted(old(dropped)) else old(dropped))
    {
      sent := None;
      var ok, p := Decode(buf, len, scratch);
      out := p;
      if !ok {
        dropped := Counted(dropped);
        return false, out, sent;
      }
      if p.sender == me {
        return false, out, sent;
      }
      var dup := cache.IsDuplicate(p.sender, p.msgId, now);
      if dup {
        dropped := Counted(dropped);
        return false, out, sent;
      }
      cache.Add(p.sender, p.msgId, now);
      if p.ttl > MAX_TTL {
        dropped := Counted(dropped);
        return false, out, sent;
      }
      forUs := p.dest == me || p.dest == BROADCAST_ID;
      if p.ttl > 0 && p.dest != me {
        p, sent := RelayPacket(p);
      }
      if forUs {
        out := p;
      }
    }

    /** `radioOk` is what the radio answers. On an encoding failure the key has been cached all the same. */
    method SendPacket(p: Packet, me: u32, now: u32, radioOk: bool)
      returns (q: Packet, ok: bool, sent: Option<seq<byte>>)
      requires Valid()
      modifies cache, cache.slots
      ensures Valid() && cache.slots == old(cache.slots)
      ensures q == Addressed(p, me) && cache.Value() == Added(old(cache.Value()), me, p.msgId, now)
      ensures sent == if p.payloadLen <= MAX_PAYLOAD then Some(Wire(q)) else None
      ensures ok <==> sent.Some? && radioOk
    {
      q := p.(version := PROTOCOL_VERSION);
      q := q.(sender := me);
      q := q.(ttl := DEFAULT_TTL);
      cache.Add(q.sender, q.msgId, now);
      var buf := new byte[MAX_FRAME](_ => 0);
      var len := Encode(q, buf, MAX_FRAME);
      if len == 0 {
        return q, false, None;
      }
      return q, radioOk, Some(buf[..len]);
    }

    method Tick(now: u32)
      requires Valid()
      modifies cache.slots
      ensures Valid() && cache.Value() == Ticked(old(cache.Value()), now)
    {
      cache.Tick(now);
    }
  }
}
