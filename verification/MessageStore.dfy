/**
 * The message store (firmware/src/message_store.cpp): a fixed array of 32 messages, filled, evicted, expired
 * and compacted in place. `Store` is its value; the class is proved against functions on it.
 */
module MessageStore {
  import opened Words
  import opened Packets
  import opened TextMessages

  const MAX_MESSAGES := 32
  const EXPIRE_MS := 3600000
  const RETRY_MAX := 3
  const U32_MAX: u32 := 0xFFFF_FFFF
  const TEXT_SIZE := MAX_TEXT + 1

  datatype MsgState = Queued | Sending | Sent | Delivered | Read | Failed | Expired

  type TextBuf = s: seq<byte> | |s| == TEXT_SIZE witness Repeat(0, TEXT_SIZE)

  datatype Message = Message(
    msgId: u32, sender: u32, dest: u32, timestamp: u32, expireAt: u32, nextRetry: u32,
    kind: byte, flags: byte, state: MsgState, retries: byte,
    text: TextBuf, textLen: byte, incoming: bool, read: bool)

  const BLANK: TextBuf := Repeat(0, TEXT_SIZE)
  const ZERO := Message(0, 0, 0, 0, 0, 0, 0, 0, Queued, 0, BLANK, 0, false, false)

  type Slots = s: seq<Message> | |s| == MAX_MESSAGES witness Repeat(ZERO, MAX_MESSAGES)

  /** The array, the number of occupied slots and the outgoing counter. */
  datatype Store = Store(slots: Slots, count: nat, counter: u32)

  const INIT := Store(Repeat(ZERO, MAX_MESSAGES), 0, 0)

  ghost predicate InBounds(st: Store) { st.count <= MAX_MESSAGES }

  function Used(st: Store): seq<Message>
    requires st.count <= MAX_MESSAGES
  {
    st.slots[..st.count]
  }

  // ---------- Messages ----------

  /** The bytes kept of a text: at most 160, then zeros. */
  function Clipped(text: seq<byte>): seq<byte> { if |text| > MAX_TEXT then text[..MAX_TEXT] else text }

  function Padded(text: seq<byte>): TextBuf
    requires |text| <= MAX_TEXT
  {
    text + Repeat(0, TEXT_SIZE - |text|)
  }

  function Incoming(sender: u32, msgId: u32, flags: byte, text: seq<byte>, now: u32): Message
  {
    ZERO.(msgId := msgId, sender := sender, timestamp := now, expireAt := (now + EXPIRE_MS) % U32_RANGE,
          kind := KIND_TEXT, flags := flags, state := Delivered, incoming := true,
          text := Padded(Clipped(text)), textLen := |Clipped(text)|)
  }

  function Outgoing(counter: u32, dest: u32, text: seq<byte>, flags: byte, now: u32): Message
  {
    ZERO.(msgId := counter, dest := dest, timestamp := now, expireAt := (now + EXPIRE_MS) % U32_RANGE,
          kind := KIND_TEXT, flags := flags, state := Queued, read := true,
          text := Padded(Clipped(text)), textLen := |Clipped(text)|)
  }

  /** The message holds the first 160 bytes of the text, then a NUL. */
  predicate HoldsText(m: Message, text: seq<byte>)
  {
    && m.textLen == (if |text| <= 160 then |text| else 160)
    && m.text[..m.textLen] == text[..m.textLen] && m.text[m.textLen] == 0
  }

  lemma ClippedText(text: seq<byte>)
    ensures |Clipped(text)| == (if |text| <= 160 then |text| else 160)
    ensures Padded(Clipped(text))[..|Clipped(text)|] == text[..|Clipped(text)|]
    ensures Padded(Clipped(text))[|Clipped(text)|] == 0
  {
  }

  predicate Live(m: Message) { m.state != Expired }

  function Peer(m: Message): u32 { if m.incoming then m.sender else m.dest }

  /** One message's part of a tick. */
  function TickedMsg(m: Message, now: u32): Message
  {
    if m.state == Expired then m
    else if now > m.expireAt then m.(state := Expired)
    else if HasBurn(m.flags) && m.read && m.incoming then m.(state := Expired, text := BLANK)
    else if !m.incoming && m.state == Queued then
      if m.retries >= RETRY_MAX then m.(state := Failed)
      else if now >= m.nextRetry then m.(state := Sending)
      else m
    else m
  }

  // ---------- Operations on values ----------

  predicate IsStored(s: seq<Message>, sender: u32, msgId: u32)
  {
    exists i | 0 <= i < |s| :: s[i].msgId == msgId && s[i].sender == sender
  }

  /** The first expired slot, or failing that the first with the smallest timestamp. */
  predicate IsVictim(s: seq<Message>, i: int)
  {
    && 0 <= i < |s|
    && (s[i].state == Expired ==> forall j | 0 <= j < i :: s[j].state != Expired)
    && (s[i].state != Expired ==>
          && (forall j | 0 <= j < |s| :: s[j].state != Expired && s[i].timestamp <= s[j].timestamp)
          && (forall j | 0 <= j < i :: s[i].timestamp < s[j].timestamp))
  }

  /** Where the next message goes, and the occupied count once it is there. */
  ghost predicate IsSlot(st: Store, i: int, count: nat)
    requires InBounds(st)
  {
    if st.count < MAX_MESSAGES then i == st.count && count == st.count + 1
    else count == st.count && IsVictim(Used(st), i)
  }

  function Filter(s: seq<Message>): seq<Message>
  {
    if s == [] then []
    else Filter(s[..|s| - 1]) + if Live(s[|s| - 1]) then [s[|s| - 1]] else []
  }

  function TickedAll(s: seq<Message>, now: u32): (r: seq<Message>)
    ensures |r| == |s| && forall i | 0 <= i < |s| :: r[i] == TickedMsg(s[i], now)
  {
    if s == [] then [] else TickedAll(s[..|s| - 1], now) + [TickedMsg(s[|s| - 1], now)]
  }

  function CountUnread(s: seq<Message>): nat
  {
    if s == [] then 0
    else
      var m := s[|s| - 1];
      CountUnread(s[..|s| - 1]) + if m.incoming && !m.read && Live(m) then 1 else 0
  }

  predicate InConversation(m: Message, peer: u32) { Live(m) && Peer(m) == peer }

  /** Positions of the conversation's messages, oldest slot first, at most `max` of them. */
  function Conversation(s: seq<Message>, peer: u32, max: nat): (r: seq<nat>)
    ensures |r| <= max && forall k | 0 <= k < |r| :: r[k] < |s|
  {
    if s == [] then []
    else
      var r := Conversation(s[..|s| - 1], peer, max);
      if |r| < max && InConversation(s[|s| - 1], peer) then r + [|s| - 1] else r
  }

  predicate HasPeer(m: Message) { Live(m) && Peer(m) != 0 && Peer(m) != BROADCAST_ID }

  function Peers(s: seq<Message>, max: nat): (r: seq<u32>)
    ensures |r| <= max
  {
    if s == [] then []
    else
      var r, m := Peers(s[..|s| - 1], max), s[|s| - 1];
      if |r| < max && HasPeer(m) && Peer(m) !in r then r + [Peer(m)] else r
  }

  predicate IsPending(m: Message) { !m.incoming && m.state == Sending }

  // ---------- The store as the firmware keeps it ----------

  class MsgStore {
    const msgs: array<Message>
    var count: nat
    var counter: u32

    ghost predicate Valid()
      reads this
    {
      msgs.Length == MAX_MESSAGES && count <= MAX_MESSAGES
    }

    ghost function Value(): Store
      requires Valid()
      reads this, msgs
    {
      Store(msgs[..], count, counter)
    }

    constructor ()
      ensures Valid() && fresh(msgs) && Value() == INIT
    {
      msgs := new Message[MAX_MESSAGES](_ => ZERO);
      count, counter := 0, 0;
    }

    method FindSlot() returns (idx: nat)
      requires Valid()
      modifies this`count
      ensures Valid() && idx < count && IsSlot(old(Value()), idx, count)
    {
      if count < MAX_MESSAGES {
        idx := count;
        count := count + 1;
        return;
      }
      var oldestTs := U32_MAX;
      idx := 0;
      var i := 0;
      while i < MAX_MESSAGES
        invariant i <= MAX_MESSAGES && idx < MAX_MESSAGES && (i > 0 ==> idx < i)
        invariant forall j | 0 <= j < i :: msgs[j].state != Expired && oldestTs <= msgs[j].timestamp
        invariant i > 0 ==> oldestTs == msgs[idx].timestamp
        invariant i == 0 ==> oldestTs == U32_MAX && idx == 0
        invariant forall j | 0 <= j < idx :: msgs[idx].timestamp < msgs[j].timestamp
      {
        if msgs[i].state == Expired {
          return i;
        }
        if msgs[i].timestamp < oldestTs {
          oldestTs := msgs[i].timestamp;
          idx := i;
        }
        i := i + 1;
      }
    }

    /** Copy a text, cut to 160 bytes, into the slot and terminate it. */
    method WriteText(idx: nat, text: seq<byte>)
      requires Valid() && idx < MAX_MESSAGES && msgs[idx].text == BLANK
      modifies msgs
      ensures msgs[..]
              == old(msgs[..])[idx := old(msgs[idx]).(text := Padded(Clipped(text)), textLen := |Clipped(text)|)]
      ensures HoldsText(msgs[idx], text)
    {
      var copyLen := if |text| > MAX_TEXT then MAX_TEXT else |text|;
      msgs[idx] := msgs[idx].(text := text[..copyLen] + msgs[idx].text[copyLen..]);
      msgs[idx] := msgs[idx].(text := msgs[idx].text[copyLen := 0]);
      msgs[idx] := msgs[idx].(textLen := copyLen);
      ClippedText(text);
      assert msgs[idx].text == Padded(Clipped(text));
    }

    method AddIncoming(sender: u32, msgId: u32, flags: byte, text: seq<byte>, now: u32) returns (idx: int)
      requires Valid()
      modifies this`count, msgs
      ensures Valid()
      ensures idx == -1 <==> IsStored(old(Used(Value())), sender, msgId)
      ensures idx == -1 ==> Value() == old(Value())
      ensures idx != -1 ==> 0 <= idx < count && IsSlot(old(Value()), idx, count)
                            && Value() == Store(old(Value().slots)[idx := Incoming(sender, msgId, flags, text, now)],
                                                count, counter)
      ensures idx != -1 ==>
                && msgs[idx].textLen == (if |text| <= 160 then |text| else 160)
                && msgs[idx].text[..msgs[idx].textLen] == text[..msgs[idx].textLen]
                && msgs[idx].sender == sender && msgs[idx].msgId == msgId && msgs[idx].incoming && !msgs[idx].read
    {
      var i := 0;
      while i < count
        invariant i <= count && forall j | 0 <= j < i :: !(msgs[j].msgId == msgId && msgs[j].sender == sender)
      {
        if msgs[i].msgId == msgId && msgs[i].sender == sender {
          assert Used(Value())[i].msgId == msgId;
          return -1;
        }
        i := i + 1;
      }
      idx := FindSlot();
      msgs[idx] := ZERO;
      msgs[idx] := msgs[idx].(msgId := msgId, sender := sender, dest := 0);
      msgs[idx] := msgs[idx].(timestamp := now, expireAt := (now + EXPIRE_MS) % U32_RANGE);
      msgs[idx] := msgs[idx].(kind := KIND_TEXT, flags := flags, state := Delivered, incoming := true, read := false,
                              retries := 0);
      WriteText(idx, text);
    }

    method QueueOutgoing(dest: u32, text: seq<byte>, flags: byte, now: u32) returns (idx: nat)
      requires Valid()
      modifies this, msgs
      ensures Valid() && idx < count && IsSlot(old(Value()), idx, count)
      ensures counter == (old(counter) + 1) % U32_RANGE
      ensures Value() == Store(old(Value().slots)[idx := Outgoing(counter, dest, text, flags, now)], count, counter)
      ensures msgs[idx].textLen == (if |text| <= 160 then |text| else 160)
              && msgs[idx].text[..msgs[idx].textLen] == text[..msgs[idx].textLen]
              && msgs[idx].dest == dest && msgs[idx].msgId == counter && !msgs[idx].incoming
    {
      idx := FindSlot();
      msgs[idx] := ZERO;
      counter := (counter + 1) % U32_RANGE;
      msgs[idx] := msgs[idx].(msgId := counter, sender := 0, dest := dest);
      msgs[idx] := msgs[idx].(timestamp := now, expireAt := (now + EXPIRE_MS) % U32_RANGE);
      msgs[idx] := msgs[idx].(kind := KIND_TEXT, flags := flags, state := Queued, incoming := false, read := true,
                              retries := 0, nextRetry := 0);
      WriteText(idx, text);
    }

    method SetState(idx: int, state: MsgState)
      requires Valid()
      modifies msgs
      ensures Valid()
      ensures Value().slots == if 0 <= idx < count then old(Value().slots)[idx := old(msgs[idx]).(state := state)]
              else old(Value().slots)
    {
      if idx >= 0 && idx < count {
        msgs[idx] := msgs[idx].(state := state);
      }
    }

    method MarkRead(idx: int)
      requires Valid()
      modifies msgs
      ensures Valid()
      ensures Value().slots == if 0 <= idx < count then old(Value().slots)[idx := old(msgs[idx]).(read := true)]
              else old(Value().slots)
    {
      if idx >= 0 && idx < count {
        msgs[idx] := msgs[idx].(read := true);
      }
    }

    method UnreadCount() returns (n: nat)
      requires Valid()
      ensures n == CountUnread(Used(Value()))
    {
      n := 0;
      var i := 0;
      while i < count
        invariant i <= count && n == CountUnread(msgs[..i])
      {
        assert msgs[..i + 1][..i] == msgs[..i];
        if msgs[i].incoming && !msgs[i].read && msgs[i].state != Expired {
          n := n + 1;
        }
        i := i + 1;
      }
      assert Used(Value()) == msgs[..count];
    }

    method GetConversation(peer: u32, indices: array<nat>, max: nat) returns (n: nat)
      requires Valid() && max <= indices.Length
      modifies indices
      ensures n <= max && indices[..n] == Conversation(Used(Value()), peer, max)
    {
      n := 0;
      var i := 0;
      while i < count && n < max
        invariant i <= count && n <= max && indices[..n] == Conversation(msgs[..i], peer, max)
      {
        assert msgs[..i + 1][..i] == msgs[..i];
        if msgs[i].state != Expired {
          if (msgs[i].incoming && msgs[i].sender == peer) || (!msgs[i].incoming && msgs[i].dest == peer) {
            indices[n] := i;
            n := n + 1;
          }
        }
        i := i + 1;
      }
      assert msgs[..i] == Used(Value())[..i];
      FullConversation(Used(Value()), peer, max, i);
    }

    method GetPeers(peerIds: array<u32>, max: nat) returns (n: nat)
      requires Valid() && max <= peerIds.Length
      modifies peerIds
      ensures n <= max && peerIds[..n] == Peers(Used(Value()), max)
    {
      n := 0;
      var i := 0;
      while i < count && n < max
        invariant i <= count && n <= max && peerIds[..n] == Peers(msgs[..i], max)
      {
        assert msgs[..i + 1][..i] == msgs[..i];
        if msgs[i].state != Expired {
          var pid := if msgs[i].incoming then msgs[i].sender else msgs[i].dest;
          if pid != 0 && pid != BROADCAST_ID {
            var found := false;
            var j := 0;
            while j < n && !found
              invariant j <= n && (found <==> pid in peerIds[..j])
            {
              if peerIds[j] == pid {
                found := true;
              }
              j := j + 1;
            }
            assert found <==> pid in peerIds[..n];
            if !found {
              peerIds[n] := pid;
              n := n + 1;
            }
          }
        }
        i := i + 1;
      }
      assert msgs[..i] == Used(Value())[..i];
      FullPeers(Used(Value()), max, i);
    }

    method Tick(now: u32)
      requires Valid()
      modifies msgs
      ensures Valid() && Value().slots == TickedAll(old(Used(Value())), now) + old(Value().slots[count..])
    {
      ghost var was, used := msgs[..], Used(Value());
      var i := 0;
      while i < count
        invariant i <= count
        invariant forall k | 0 <= k < i :: msgs[k] == TickedMsg(was[k], now)
        invariant forall k | i <= k < MAX_MESSAGES :: msgs[k] == was[k]
      {
        TickOne(i, now);
        i := i + 1;
      }
      assert msgs[..count] == TickedAll(used, now);
      assert msgs[count..] == was[count..];
      assert msgs[..] == msgs[..count] + msgs[count..];
    }

    /** The body of the tick loop; each `return` is a `continue` there. */
    method TickOne(i: nat, now: u32)
      requires Valid() && i < count
      modifies msgs
      ensures msgs[..] == old(msgs[..])[i := TickedMsg(old(msgs[i]), now)]
    {
      if msgs[i].state == Expired {
        return;
      }
      if now > msgs[i].expireAt {
        msgs[i] := msgs[i].(state := Expired);
        return;
      }
      if HasBurn(msgs[i].flags) && msgs[i].read && msgs[i].incoming {
        msgs[i] := msgs[i].(state := Expired);
        msgs[i] := msgs[i].(text := BLANK);
        return;
      }
      if !msgs[i].incoming && msgs[i].state == Queued && msgs[i].retries < RETRY_MAX {
        if now >= msgs[i].nextRetry {
          msgs[i] := msgs[i].(state := Sending);
        }
      }
      if !msgs[i].incoming && msgs[i].state == Queued && msgs[i].retries >= RETRY_MAX {
        msgs[i] := msgs[i].(state := Failed);
      }
    }

    method NextPending() returns (idx: int)
      requires Valid()
      ensures idx == -1 ==> forall i | 0 <= i < count :: !IsPending(msgs[i])
      ensures idx != -1 ==> 0 <= idx < count && IsPending(msgs[idx]) && forall i | 0 <= i < idx :: !IsPending(msgs[i])
    {
      var i := 0;
      while i < count
        invariant i <= count && forall j | 0 <= j < i :: !IsPending(msgs[j])
      {
        if !msgs[i].incoming && msgs[i].state == Sending {
          return i;
        }
        i := i + 1;
      }
      return -1;
    }

    method Clear()
      requires Valid()
      modifies this`count, msgs
      ensures Valid() && Value() == INIT.(counter := old(counter))
    {
      var i := 0;
      while i < count
        invariant count == old(count) && i <= count
      {
        msgs[i] := msgs[i].(text := BLANK);
        i := i + 1;
      }
      forall j | 0 <= j < MAX_MESSAGES {
        msgs[j] := ZERO;
      }
      count := 0;
      assert msgs[..] == Repeat(ZERO, MAX_MESSAGES);
    }

    /** The compaction loop: live messages shifted down over expired ones. */
    method Compact() returns (write: nat)
      requires Valid()
      modifies msgs
      ensures Compacted(old(msgs[..]), count, msgs[..], write)
    {
      var readIdx := 0;
      write := 0;
      while readIdx < count
        invariant readIdx <= count && Compacted(old(msgs[..]), readIdx, msgs[..], write)
      {
        CompactStep(old(msgs[..]), readIdx, msgs[..], write);
        if msgs[readIdx].state != Expired {
          if write != readIdx {
            msgs[write] := msgs[readIdx];
          }
          write := write + 1;
        }
        readIdx := readIdx + 1;
      }
    }

    method Purge()
      requires Valid()
      modifies this`count, msgs
      ensures Valid() && counter == old(counter)
      ensures Used(Value()) == Filter(old(Used(Value())))
      ensures forall i | count <= i < old(count) :: msgs[i] == ZERO
      ensures forall i | old(count) <= i < MAX_MESSAGES :: msgs[i] == old(msgs[i])
    {
      ghost var was := msgs[..];
      var write := Compact();
      ghost var mid := msgs[..];
      CompactedTail(was, count, mid, write);
      if write < count {
        forall i | write <= i < count {
          msgs[i] := ZERO;
        }
      }
      assert msgs[..write] == mid[..write];
      assert forall i | count <= i < MAX_MESSAGES :: msgs[i] == mid[i];
      count := write;
    }
  }

  // ---------- Early exits of the listing loops change nothing ----------

  /** `s` after the first `read` messages of `was` have been compacted into its first `write` slots. */
  ghost predicate Compacted(was: seq<Message>, read: nat, s: seq<Message>, write: nat)
  {
    write <= read <= |was| == |s| && s[..write] == Filter(was[..read]) && s[read..] == was[read..]
  }

  lemma CompactedTail(was: seq<Message>, read: nat, s: seq<Message>, write: nat)
    requires Compacted(was, read, s, write)
    ensures forall i | read <= i < |was| :: s[i] == was[i]
  {
    forall i | read <= i < |was|
      ensures s[i] == was[i]
    {
      assert s[read..][i - read] == was[read..][i - read];
    }
  }

  lemma CompactStep(was: seq<Message>, read: nat, s: seq<Message>, write: nat)
    requires Compacted(was, read, s, write) && read < |was|
    ensures Live(s[read]) ==> Compacted(was, read + 1, s[write := s[read]], write + 1)
    ensures !Live(s[read]) ==> Compacted(was, read + 1, s, write)
    ensures s[read := s[read]] == s
  {
    FilterNext(was, read);
    assert s[read] == s[read..][0] == was[read];
    assert was[read + 1..] == was[read..][1..] == s[read..][1..];
    assert s[write := s[read]][..write + 1] == s[..write] + [s[read]];
  }

  lemma FilterNext(s: seq<Message>, i: nat)
    requires i < |s|
    ensures Filter(s[..i + 1]) == Filter(s[..i]) + if Live(s[i]) then [s[i]] else []
  {
    assert s[..i + 1][..i] == s[..i];
  }

  lemma {:induction false} FullConversation(s: seq<Message>, peer: u32, max: nat, i: nat)
    requires i <= |s| && (i < |s| ==> |Conversation(s[..i], peer, max)| == max)
    ensures Conversation(s, peer, max) == Conversation(s[..i], peer, max)
  {
    if i < |s| {
      var r := s[..|s| - 1];
      assert r[..i] == s[..i];
      FullConversation(r, peer, max, i);
    } else {
      assert s[..i] == s;
    }
  }

  lemma {:induction false} FullPeers(s: seq<Message>, max: nat, i: nat)
    requires i <= |s| && (i < |s| ==> |Peers(s[..i], max)| == max)
    ensures Peers(s, max) == Peers(s[..i], max)
  {
    if i < |s| {
      var r := s[..|s| - 1];
      assert r[..i] == s[..i];
      FullPeers(r, max, i);
    } else {
      assert s[..i] == s;
    }
  }
}
