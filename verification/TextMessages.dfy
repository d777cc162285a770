/**
 * Sealing and opening of text messages (firmware/src/state_machine.cpp, send_text_message and
 * handle_text_packet) over an abstract authenticated cipher.
 */
module TextMessages {
  import opened Words
  import opened Packets
  import opened Mesh

  const MAX_TEXT := 160
  const KIND_TEXT: byte := 1
  const KIND_ACK: byte := 2

  type Key = s: seq<byte> | |s| == 32 witness Repeat(0, 32)

  /** The cipher: encryption gives ciphertext and tag, decryption gives the plaintext or refuses. */
  datatype Aead = Aead(
    seal: (Key, Nonce, seq<byte>, seq<byte>) -> (seq<byte>, Tag),
    open: (Key, Nonce, seq<byte>, seq<byte>, Tag) -> Option<seq<byte>>)

  /** Authenticated decryption inverts authenticated encryption and both keep the length. */
  ghost predicate Lawful(aead: Aead)
  {
    && (forall k: Key, n: Nonce, a, m ::
          |aead.seal(k, n, a, m).0| == |m|
            && aead.open(k, n, a, aead.seal(k, n, a, m).0, aead.seal(k, n, a, m).1) == Some(m))
    && (forall k: Key, n: Nonce, a, c, t: Tag ::
          aead.open(k, n, a, c, t).Some? ==> |aead.open(k, n, a, c, t).value| == |c|)
  }

  /** The packet record of a text before encryption; its header is what gets authenticated. */
  function Draft(me: u32, dest: u32, msgId: u32, nonce: Nonce, flags: byte): Packet
  {
    ZERO_PACKET.(version := PROTOCOL_VERSION, kind := KIND_TEXT, dest := dest, msgId := msgId,
                 flags := WithEncrypted(flags), nonce := nonce, sender := me)
  }

  /**
   * The packet built for a text, before `send_packet`; None when the cipher refuses the length. (A lawful
   * cipher's ciphertext is as long as the text, so it fits the payload.)
   */
  function SealText(aead: Aead, key: Key, p: Packet, text: seq<byte>): Option<Packet>
  {
    var sealed := aead.seal(key, p.nonce, Aad(p), text);
    if |text| > MAX_PAYLOAD || |sealed.0| > MAX_PAYLOAD then None
    else Some(p.(payload := sealed.0 + p.payload[|sealed.0|..], tag := sealed.1, payloadLen := |text|))
  }

  /** The text of a delivered packet; None where it is dropped without being stored or acknowledged. */
  function OpenText(aead: Aead, key: Key, p: Packet): Option<seq<byte>>
  {
    if p.payloadLen > MAX_TEXT then None
    else if !HasEncrypted(p.flags) then Some(p.payload[..p.payloadLen])
    else aead.open(key, p.nonce, Aad(p), p.payload[..p.payloadLen], p.tag)
  }

  /** The acknowledgement of a text, before `send_packet`. */
  function AckFor(p: Packet): Packet
  {
    ZERO_PACKET.(kind := KIND_ACK, dest := p.sender, msgId := p.msgId)
  }

  /** The acknowledgement that a delivered packet calls for, if any. */
  function Reply(aead: Aead, key: Key, p: Packet): Option<Packet>
  {
    if p.kind == KIND_TEXT && OpenText(aead, key, p).Some? && HasAckReq(p.flags) then Some(AckFor(p)) else None
  }

  /** The packet `p` after `k` relays. */
  function AfterHops(p: Packet, k: nat): Packet
    requires k <= p.ttl
  {
    if k == 0 then p else p.(ttl := p.ttl - k, flags := WithRelayed(p.flags))
  }

  lemma HopOfHops(p: Packet, k: nat)
    requires k < p.ttl
    ensures OneHop(AfterHops(p, k)) == AfterHops(p, k + 1)
  {
    WithRelayedBits(p.flags);
  }

  /** A text is sealed exactly when it fits the wire. */
  lemma SealedExactly(aead: Aead, key: Key, p: Packet, text: seq<byte>)
    requires Lawful(aead)
    ensures SealText(aead, key, p, text).Some? <==> |text| <= MAX_PAYLOAD
    ensures |text| <= MAX_PAYLOAD ==>
              var s := SealText(aead, key, p, text).value;
              && s == p.(payload := s.payload, tag := s.tag, payloadLen := |text|)
              && s.payload[..|text|] == aead.seal(key, p.nonce, Aad(p), text).0
              && s.tag == aead.seal(key, p.nonce, Aad(p), text).1
  {
    assert |aead.seal(key, p.nonce, Aad(p), text).0| == |text|;
  }

  /**
   * The frame of a text as it first goes out, byte by byte: header, addresses, ttl 3, flags with the encryption bit,
   * nonce and length, then the ciphertext and tag of the text sealed with the first fourteen bytes of the frame.
   */
  ghost predicate IsTextFrame(
      aead: Aead, key: Key, me: u32, dest: u32, msgId: u32, nonce: Nonce, flags: byte, text: seq<byte>, b: seq<byte>)
  {
    && |text| <= 200 && |b| == 46 + |text| && b[0] == 1 && b[1] == 1 && b[14] == 3 && b[16..28] == nonce
    && Denotes(b[2..6]) == me && Denotes(b[6..10]) == dest && Denotes(b[10..14]) == msgId
    && b[15] / 16 % 2 == 1 && b[15] % 16 == flags % 16 && b[15] / 32 == flags / 32
    && Denotes(b[28..30]) == |text|
    && (b[30..30 + |text|], b[30 + |text|..]) == aead.seal(key, nonce, b[..14], text)
  }

  /** Sealing a text makes its frame. */
  lemma SealedBytes(
      aead: Aead, key: Key, me: u32, dest: u32, msgId: u32, nonce: Nonce, flags: byte, text: seq<byte>)
    requires Lawful(aead) && |text| <= 200
    ensures var s := SealText(aead, key, Draft(me, dest, msgId, nonce, flags), text);
            && s.Some? && s.value.payloadLen <= MAX_PAYLOAD
            && IsTextFrame(aead, key, me, dest, msgId, nonce, flags, text, Wire(Addressed(s.value, me)))
  {
    var d := Draft(me, dest, msgId, nonce, flags);
    SealedExactly(aead, key, d, text);
    var s := SealText(aead, key, d, text).value;
    WireLayout(Addressed(s, me));
    WithEncryptedBits(flags);
    assert Aad(Addressed(s, me)) == Aad(d);
  }

  /**
   * Whatever the number of relays and whatever the receiver's buffer held, a sealed text opens under the sender's key
   * if and only if it has at most 160 bytes, and then to exactly the sender's text.
   */
  lemma SealedTextOpens(
      aead: Aead, key: Key, me: u32, dest: u32, msgId: u32, nonce: Nonce, text: seq<byte>, flags: byte, k: nat,
      got: Packet)
    requires Lawful(aead) && k <= DEFAULT_TTL
    requires SealText(aead, key, Draft(me, dest, msgId, nonce, flags), text).Some?
    requires var p := Addressed(SealText(aead, key, Draft(me, dest, msgId, nonce, flags), text).value, me);
             p.payloadLen <= MAX_PAYLOAD && SameFrame(AfterHops(p, k), got)
    ensures OpenText(aead, key, got) == if |text| <= 160 then Some(text) else None
  {
    var d := Draft(me, dest, msgId, nonce, flags);
    SealedExactly(aead, key, d, text);
    var s := SealText(aead, key, d, text).value;
    var p := Addressed(s, me);
    EncryptedKept(flags, k, p);
    assert Aad(got) == Aad(d);
    assert got.payload[..got.payloadLen] == s.payload[..|text|];
  }

  lemma EncryptedKept(flags: byte, k: nat, p: Packet)
    requires p.flags == WithEncrypted(flags) && k <= p.ttl
    ensures HasEncrypted(AfterHops(p, k).flags)
  {
    WithEncryptedBits(flags);
    WithRelayedBits(p.flags);
  }
}
