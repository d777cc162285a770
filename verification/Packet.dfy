/**
 * The mesh frame codec (firmware/src/packet.cpp).
 *
 * A frame is a 30-byte header, up to 200 payload bytes and a 16-byte tag, little-endian.
 * `Encode`, `Decode` and `BuildAad` work on buffers as the firmware does; `Wire` and `Parse` are the
 * functions they are proved against.
 */
module Packets {
  import opened Words

  const PROTOCOL_VERSION: byte := 1
  const HEADER_SIZE := 30
  const TAG_SIZE := 16
  const NONCE_SIZE := 12
  const MAX_PAYLOAD := 200
  const MAX_FRAME := HEADER_SIZE + MAX_PAYLOAD + TAG_SIZE
  const AAD_SIZE := 14

  type Nonce = s: seq<byte> | |s| == NONCE_SIZE witness Repeat(0, NONCE_SIZE)
  type Tag = s: seq<byte> | |s| == TAG_SIZE witness Repeat(0, TAG_SIZE)
  type Payload = s: seq<byte> | |s| == MAX_PAYLOAD witness Repeat(0, MAX_PAYLOAD)

  /** The packet record: the payload array always has 200 bytes, of which `payloadLen` are meant. */
  datatype Packet = Packet(
    version: byte, kind: byte, sender: u32, dest: u32, msgId: u32, ttl: byte, flags: byte,
    nonce: Nonce, payloadLen: u16, payload: Payload, tag: Tag)

  const ZERO_PACKET := Packet(0, 0, 0, 0, 0, 0, 0,
                              Repeat(0, NONCE_SIZE), 0, Repeat(0, MAX_PAYLOAD), Repeat(0, TAG_SIZE))

  // ---------- Flag bits ----------

  predicate HasBurn(f: byte) { f % 2 == 1 }
  predicate HasAckReq(f: byte) { f / 2 % 2 == 1 }
  predicate HasRelayed(f: byte) { f / 4 % 2 == 1 }
  predicate HasPriority(f: byte) { f / 8 % 2 == 1 }
  predicate HasEncrypted(f: byte) { f / 16 % 2 == 1 }

  function WithRelayed(f: byte): byte { if HasRelayed(f) then f else f + 4 }
  function WithEncrypted(f: byte): byte { if HasEncrypted(f) then f else f + 16 }

  /** Setting the relay bit sets that bit, keeps every other bit, and does nothing the second time. */
  lemma WithRelayedBits(f: byte)
    ensures HasRelayed(WithRelayed(f)) && WithRelayed(WithRelayed(f)) == WithRelayed(f)
    ensures WithRelayed(f) % 4 == f % 4 && WithRelayed(f) / 8 == f / 8
    ensures HasBurn(WithRelayed(f)) == HasBurn(f) && HasAckReq(WithRelayed(f)) == HasAckReq(f)
    ensures HasPriority(WithRelayed(f)) == HasPriority(f) && HasEncrypted(WithRelayed(f)) == HasEncrypted(f)
  {
    var q := f / 4;
    assert f == 4 * q + f % 4;
    if !HasRelayed(f) {
      assert WithRelayed(f) / 4 == q + 1 && f / 8 == q / 2 && (f + 4) / 8 == (q + 1) / 2;
      assert (f + 4) / 2 == f / 2 + 2;
      assert (f + 4) / 16 == (f + 4) / 8 / 2 && f / 16 == f / 8 / 2;
    }
  }

  lemma WithEncryptedBits(f: byte)
    ensures HasEncrypted(WithEncrypted(f)) && WithEncrypted(f) % 16 == f % 16 && WithEncrypted(f) / 32 == f / 32
  {
    if !HasEncrypted(f) {
      assert WithEncrypted(f) / 16 == f / 16 + 1;
      assert f / 32 == f / 16 / 2 && (f + 16) / 32 == (f + 16) / 16 / 2;
    }
  }

  // ---------- Wire form ----------

  /** The header bytes that no relay changes; they are also the additional authenticated data. */
  function Aad(p: Packet): (s: seq<byte>)
    ensures |s| == AAD_SIZE
  {
    [p.version, p.kind] + PutU32(p.sender) + PutU32(p.dest) + PutU32(p.msgId)
  }

  function Header(p: Packet): (s: seq<byte>)
    ensures |s| == HEADER_SIZE
  {
    Aad(p) + [p.ttl, p.flags] + p.nonce + PutU16(p.payloadLen)
  }

  /** The frame of a packet whose payload fits. */
  function Wire(p: Packet): (s: seq<byte>)
    requires p.payloadLen <= MAX_PAYLOAD
    ensures |s| == HEADER_SIZE + p.payloadLen + TAG_SIZE
  {
    Header(p) + p.payload[..p.payloadLen] + p.tag
  }

  /**
   * The packet read from a received frame, or None where decoding refuses it. Payload bytes past
   * `payloadLen` keep what the destination record `scratch` held before.
   */
  function Parse(b: seq<byte>, scratch: Packet): (r: Option<Packet>)
    requires |b| < U16_RANGE
  {
    if |b| < HEADER_SIZE + TAG_SIZE then None
    else if b[0] != PROTOCOL_VERSION then None
    else
      var n := GetU16(b[28..30]);
      if n > MAX_PAYLOAD || |b| < HEADER_SIZE + n + TAG_SIZE then None
      else
        Some(Packet(b[0], b[1], GetU32(b[2..6]), GetU32(b[6..10]), GetU32(b[10..14]), b[14], b[15],
                    b[16..28], n, b[30..30 + n] + scratch.payload[n..], b[30 + n..46 + n]))
  }

  /** Two packets carry the same frame: they differ at most in payload bytes past `payloadLen`. */
  predicate SameFrame(p: Packet, q: Packet)
    requires p.payloadLen <= MAX_PAYLOAD
  {
    p.(payload := q.payload) == q && p.payload[..p.payloadLen] == q.payload[..q.payloadLen]
  }

  // ---------- Operations on buffers ----------

  method Encode(p: Packet, buf: array<byte>, bufSize: u16) returns (total: u16)
    requires bufSize <= buf.Length
    modifies buf
    ensures total == if p.payloadLen <= MAX_PAYLOAD && HEADER_SIZE + p.payloadLen + TAG_SIZE <= bufSize
                     then HEADER_SIZE + p.payloadLen + TAG_SIZE else 0
    ensures total != 0 ==> buf[..total] == Wire(p)
    ensures forall i | total <= i < buf.Length :: buf[i] == old(buf[i])
  {
    total := (HEADER_SIZE + p.payloadLen + TAG_SIZE) % U16_RANGE;
    if total > bufSize || p.payloadLen > MAX_PAYLOAD {
      return 0;
    }
    buf[0] := p.version;
    buf[1] := p.kind;
    assert buf[..2] == [p.version, p.kind];
    CopyInto(buf, 2, PutU32(p.sender));
    CopyInto(buf, 6, PutU32(p.dest));
    CopyInto(buf, 10, PutU32(p.msgId));
    assert buf[..14] == Aad(p);
    buf[14] := p.ttl;
    buf[15] := p.flags;
    assert buf[..16] == Aad(p) + [p.ttl, p.flags];
    CopyInto(buf, 16, p.nonce);
    CopyInto(buf, 28, PutU16(p.payloadLen));
    assert buf[..HEADER_SIZE] == Header(p);
    CopyInto(buf, HEADER_SIZE, p.payload[..p.payloadLen]);
    CopyInto(buf, HEADER_SIZE + p.payloadLen, p.tag);
  }

  method Decode(buf: array<byte>, len: u16, p: Packet) returns (ok: bool, q: Packet)
    requires len <= buf.Length
    ensures ok <==> Parse(buf[..len], p).Some?
    ensures ok ==> Parse(buf[..len], p) == Some(q)
  {
    q := p;
    if len < HEADER_SIZE + TAG_SIZE {
      return false, q;
    }
    q := q.(version := buf[0]);
    if q.version != PROTOCOL_VERSION {
      return false, q;
    }
    ghost var b := buf[..len];
    q := q.(kind := buf[1], sender := GetU32(buf[2..6]), dest := GetU32(buf[6..10]), msgId := GetU32(buf[10..14]));
    q := q.(ttl := buf[14], flags := buf[15], nonce := buf[16..28], payloadLen := GetU16(buf[28..30]));
    assert b[2..6] == buf[2..6] && b[6..10] == buf[6..10] && b[10..14] == buf[10..14];
    assert b[16..28] == buf[16..28] && b[28..30] == buf[28..30];
    if q.payloadLen > MAX_PAYLOAD {
      return false, q;
    }
    if len < (HEADER_SIZE + q.payloadLen + TAG_SIZE) % U16_RANGE {
      return false, q;
    }
    var n := q.payloadLen;
    assert b[30..30 + n] == buf[30..30 + n] && b[30 + n..46 + n] == buf[30 + n..46 + n];
    q := q.(payload := buf[30..30 + n] + q.payload[n..], tag := buf[30 + n..46 + n]);
    return true, q;
  }

  method BuildAad(p: Packet, aad: array<byte>)
    requires aad.Length >= AAD_SIZE
    modifies aad
    ensures aad[..AAD_SIZE] == Aad(p) && (forall i | AAD_SIZE <= i < aad.Length :: aad[i] == old(aad[i]))
  {
    aad[0] := p.version;
    aad[1] := p.kind;
    CopyInto(aad, 2, PutU32(p.sender));
    CopyInto(aad, 6, PutU32(p.dest));
    CopyInto(aad, 10, PutU32(p.msgId));
  }

  // ---------- Laws ----------

  lemma WireSlices(p: Packet)
    requires p.payloadLen <= MAX_PAYLOAD
    ensures var b := Wire(p); var n := p.payloadLen;
            && b[0] == p.version && b[1] == p.kind && b[14] == p.ttl && b[15] == p.flags
            && b[2..6] == PutU32(p.sender) && b[6..10] == PutU32(p.dest) && b[10..14] == PutU32(p.msgId)
            && b[16..28] == p.nonce && b[28..30] == PutU16(n)
            && b[30..30 + n] == p.payload[..n] && b[30 + n..46 + n] == p.tag
  {
  }

  /** The frame format: where each field lies, numbers least significant byte first. */
  lemma WireLayout(p: Packet)
    requires p.payloadLen <= 200
    ensures var b, n := Wire(p), p.payloadLen;
            && |b| == 46 + n && b[0] == p.version && b[1] == p.kind
            && Denotes(b[2..6]) == p.sender && Denotes(b[6..10]) == p.dest && Denotes(b[10..14]) == p.msgId
            && b[14] == p.ttl && b[15] == p.flags && b[16..28] == p.nonce && Denotes(b[28..30]) == n
            && b[30..30 + n] == p.payload[..n] && b[30 + n..] == p.tag && b[..14] == Aad(p)
  {
    WireSlices(p);
    assert Wire(p)[30 + p.payloadLen..] == p.tag;
    assert Wire(p)[..14] == Aad(p);
    LittleEndian(p.sender, PutU32(p.dest), p.payloadLen, PutU16(p.payloadLen));
    LittleEndian(p.dest, PutU32(p.msgId), 0, PutU16(0));
    LittleEndian(p.msgId, PutU32(p.msgId), 0, PutU16(0));
  }

  /** Version 1, at most 200 payload bytes, and nothing missing; bytes beyond are ignored. */
  predicate IsFrame(b: seq<byte>)
  {
    |b| >= 46 && b[0] == 1 && Denotes(b[28..30]) <= 200 && |b| >= 46 + Denotes(b[28..30])
  }

  /** Exactly the well-formed buffers are accepted, and each field is read at its place. */
  lemma ParseExactly(b: seq<byte>, scratch: Packet)
    requires |b| < U16_RANGE
    ensures Parse(b, scratch).Some? <==> IsFrame(b)
    ensures IsFrame(b) ==>
              var p, n := Parse(b, scratch).value, Denotes(b[28..30]);
              && p.version == 1 && p.kind == b[1] && p.sender == Denotes(b[2..6]) && p.dest == Denotes(b[6..10])
              && p.msgId == Denotes(b[10..14]) && p.ttl == b[14] && p.flags == b[15] && p.payloadLen == n <= MAX_PAYLOAD
              && Wire(p) == b[..46 + n]
  {
    if |b| >= 46 {
      var zeros: seq<byte> := [0, 0, 0, 0];
      LittleEndian(0, b[2..6], 0, b[28..30]);
      LittleEndian(0, b[6..10], 0, b[28..30]);
      LittleEndian(0, b[10..14], 0, b[28..30]);
      if Parse(b, scratch).Some? {
        WireParse(b, scratch);
      }
    }
  }

  /** Decoding an encoded packet of the current version gives the packet back. */
  lemma ParseWire(p: Packet, scratch: Packet)
    requires p.payloadLen <= MAX_PAYLOAD
    ensures Parse(Wire(p), scratch).Some? <==> p.version == PROTOCOL_VERSION
    ensures p.version == PROTOCOL_VERSION ==> SameFrame(p, Parse(Wire(p), scratch).value)
  {
    WireSlices(p);
    var zeros: seq<byte> := [0, 0, 0, 0];
    U32RoundTrip(p.sender, zeros);
    U32RoundTrip(p.dest, zeros);
    U32RoundTrip(p.msgId, zeros);
    U16RoundTrip(p.payloadLen, [0, 0]);
  }

  /** Re-encoding an accepted buffer gives its first 46 + payloadLen bytes. */
  lemma WireParse(b: seq<byte>, scratch: Packet)
    requires |b| < U16_RANGE && Parse(b, scratch).Some?
    ensures var p := Parse(b, scratch).value;
            && p.version == PROTOCOL_VERSION && p.payloadLen <= MAX_PAYLOAD
            && HEADER_SIZE + p.payloadLen + TAG_SIZE <= |b|
            && Wire(p) == b[..HEADER_SIZE + p.payloadLen + TAG_SIZE]
  {
    var p := Parse(b, scratch).value;
    U32RoundTrip(0, b[2..6]);
    U32RoundTrip(0, b[6..10]);
    U32RoundTrip(0, b[10..14]);
    U16RoundTrip(0, b[28..30]);
    var n := p.payloadLen;
    assert Aad(p) == b[..14] by {
      assert b[0..2] == [b[0], b[1]] && b[..14] == b[0..2] + b[2..6] + b[6..10] + b[10..14];
    }
    assert Header(p) == b[..30] by {
      assert b[14..16] == [b[14], b[15]] && b[..30] == b[..14] + b[14..16] + b[16..28] + b[28..30];
    }
    assert p.payload[..n] == b[30..30 + n];
    assert b[..46 + n] == b[..30] + b[30..30 + n] + b[30 + n..46 + n];
  }

  // ---------- Printable identifiers ----------

  /** The upper-case hexadecimal digit of `d`. */
  function HexDigit(d: nat): char
    requires d < 16
  {
    if d < 10 then ('0' as int + d) as char else ('A' as int + (d - 10)) as char
  }

  function HexDigits(id: nat, n: nat): (s: seq<char>)
    ensures |s| == n
  {
    if n == 0 then [] else HexDigits(id / 16, n - 1) + [HexDigit(id % 16)]
  }

  /** The number that an upper-case hexadecimal string denotes, if it is one. */
  function HexValue(s: seq<char>): Option<nat>
  {
    if s == [] then Some(0)
    else
      match (HexValue(s[..|s| - 1]), DigitValue(s[|s| - 1]))
      case (Some(v), Some(d)) => Some(v * 16 + d)
      case _ => None
  }

  function DigitValue(c: char): Option<nat>
  {
    if '0' <= c <= '9' then Some(c as int - '0' as int)
    else if 'A' <= c <= 'F' then Some(c as int - 'A' as int + 10)
    else None
  }

  lemma HexDigitValue(d: nat)
    requires d < 16
    ensures DigitValue(HexDigit(d)) == Some(d)
  {
  }

  ghost function Pow16(k: nat): nat { if k == 0 then 1 else 16 * Pow16(k - 1) }

  lemma {:induction false} HexRoundTrip(id: nat, n: nat)
    requires id < Pow16(n)
    ensures HexValue(HexDigits(id, n)) == Some(id)
  {
    if n > 0 {
      HexRoundTrip(id / 16, n - 1);
      HexDigitValue(id % 16);
      var s := HexDigits(id, n);
      assert s[..n - 1] == HexDigits(id / 16, n - 1) && s[n - 1] == HexDigit(id % 16);
    }
  }

  lemma EightDigits(id: u32)
    ensures HexValue(HexDigits(id, 8)) == Some(id)
  {
    assert Pow16(8) == 0x1_0000_0000 by {
      assert Pow16(4) == 0x1_0000;
    }
    HexRoundTrip(id, 8);
  }

  lemma DigitMoved(v: nat, i: nat, tail: seq<char>)
    ensures HexDigits(v, i + 1) + tail == HexDigits(v / 16, i) + ([HexDigit(v % 16)] + tail)
  {
  }

  method IdToHex(id: u32, buf: array<char>)
    requires buf.Length >= 9
    modifies buf
    ensures HexValue(buf[..8]) == Some(id)
    ensures buf[8] == '\0' && buf[9..] == old(buf[9..])
  {
    WriteDigits(id, buf);
    EightDigits(id);
    ghost var digits := buf[..8];
    buf[8] := '\0';
    assert buf[..8] == digits;
  }

  /** The loop, from the last digit to the first. */
  method WriteDigits(id: u32, buf: array<char>)
    requires buf.Length >= 9
    modifies buf
    ensures buf[..8] == HexDigits(id, 8)
    ensures forall k | 8 <= k < buf.Length :: buf[k] == old(buf[k])
  {
    var v: nat := id;
    var i := 7;
    while i >= 0
      invariant -1 <= i <= 7
      invariant HexDigits(v, i + 1) + buf[i + 1..8] == HexDigits(id, 8)
      invariant forall k | 8 <= k < buf.Length :: buf[k] == old(buf[k])
    {
      ghost var tail := buf[i + 1..8];
      buf[i] := HexDigit(v % 16);
      assert buf[i..8] == [HexDigit(v % 16)] + tail;
      DigitMoved(v, i, tail);
      v := v / 16;
      i := i - 1;
    }
    assert HexDigits(v, 0) + buf[0..8] == buf[..8];
  }
}
