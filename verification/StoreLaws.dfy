/** What the message store keeps: views across compaction, safety over all runs, expiry over time. */
module StoreLaws {
  import opened Words
  import opened Packets
  import opened TextMessages
  import opened MessageStore

  // ---------- What compaction keeps and the badge counts ----------

  /** `f` is what `s` holds at the positions `pos`, which are those not expired, in order. */
  ghost predicate Selects(s: seq<Message>, pos: seq<nat>, f: seq<Message>)
  {
    && |pos| == |f| && (forall a, b | 0 <= a < b < |pos| :: pos[a] < pos[b])
    && (forall k | 0 <= k < |pos| :: pos[k] < |s| && f[k] == s[pos[k]] && s[pos[k]].state != Expired)
    && (forall i | 0 <= i < |s| && s[i].state != Expired :: i in pos)
  }

  lemma SelectsNext(s: seq<Message>, pos: seq<nat>, f: seq<Message>, m: Message)
    requires Selects(s, pos, f)
    ensures m.state == Expired ==> Selects(s + [m], pos, f)
    ensures m.state != Expired ==> Selects(s + [m], pos + [|s|], f + [m])
  {
    var p := pos + [|s|];
    forall i | 0 <= i < |s + [m]| && (s + [m])[i].state != Expired
      ensures i in p && (m.state == Expired ==> i in pos)
    {
      if i < |s| {
        assert i in pos;
      } else {
        assert p[|pos|] == i;
      }
    }
  }

  /** Compaction keeps, in order, exactly the messages at the positions that have not expired. */
  lemma {:induction false} FilterExactly(s: seq<Message>) returns (pos: seq<nat>)
    ensures Selects(s, pos, Filter(s))
  {
    pos := [];
    if s != [] {
      var r, m := s[..|s| - 1], s[|s| - 1];
      pos := FilterExactly(r);
      SelectsNext(r, pos, Filter(r), m);
      FilterSnoc(r, m);
      assert r + [m] == s;
      if m.state != Expired {
        pos := pos + [|r|];
      }
    }
  }

  lemma FilterSnoc(r: seq<Message>, m: Message)
    ensures Filter(r + [m]) == if m.state != Expired then Filter(r) + [m] else Filter(r)
  {
    assert (r + [m])[..|r|] == r;
  }

  predicate IsUnread(m: Message) { m.incoming && !m.read && m.state != Expired }

  ghost function Unread(s: seq<Message>): set<nat> { set i: nat | i < |s| && IsUnread(s[i]) }

  lemma UnreadNext(s: seq<Message>, m: Message)
    ensures Unread(s + [m]) == if IsUnread(m) then Unread(s) + {|s|} else Unread(s)
  {
    forall i: nat
      ensures i in Unread(s + [m]) <==> i in Unread(s) || (i == |s| && IsUnread(m))
    {
    }
  }

  /** The unread count is the number of incoming messages neither read nor expired. */
  lemma {:induction false} UnreadExactly(s: seq<Message>)
    ensures CountUnread(s) == |Unread(s)|
  {
    if s != [] {
      var r, m := s[..|s| - 1], s[|s| - 1];
      UnreadExactly(r);
      UnreadNext(r, m);
      assert r + [m] == s && |r| !in Unread(r);
    }
  }

  // ---------- Compaction is invisible to every view ----------

  /** The messages at the given positions. */
  function Picked(s: seq<Message>, idx: seq<nat>): (r: seq<Message>)
    requires forall k | 0 <= k < |idx| :: idx[k] < |s|
    ensures |r| == |idx|
  {
    if idx == [] then [] else Picked(s, idx[..|idx| - 1]) + [s[idx[|idx| - 1]]]
  }

  lemma {:induction false} PickedPrefix(s: seq<Message>, n: nat, idx: seq<nat>)
    requires n <= |s| && forall k | 0 <= k < |idx| :: idx[k] < n
    ensures Picked(s, idx) == Picked(s[..n], idx)
  {
    if idx != [] {
      PickedPrefix(s, n, idx[..|idx| - 1]);
    }
  }

  /** The first `max` messages of a conversation. */
  function Exchanged(s: seq<Message>, peer: u32, max: nat): seq<Message>
  {
    if s == [] then []
    else
      var r, m := Exchanged(s[..|s| - 1], peer, max), s[|s| - 1];
      if |r| < max && InConversation(m, peer) then r + [m] else r
  }

  lemma {:induction false} ConversationNames(s: seq<Message>, peer: u32, max: nat)
    ensures Picked(s, Conversation(s, peer, max)) == Exchanged(s, peer, max)
  {
    if s != [] {
      var n := |s| - 1;
      var r := Conversation(s[..n], peer, max);
      ConversationNames(s[..n], peer, max);
      PickedPrefix(s, n, r);
      assert (r + [n])[..|r|] == r;
    }
  }

  lemma FilterLast(s: seq<Message>)
    requires s != []
    ensures Live(s[|s| - 1]) ==> Filter(s) != [] && Filter(s)[|Filter(s)| - 1] == s[|s| - 1]
                                 && Filter(s)[..|Filter(s)| - 1] == Filter(s[..|s| - 1])
    ensures !Live(s[|s| - 1]) ==> Filter(s) == Filter(s[..|s| - 1])
  {
  }

  lemma {:induction false} PurgeKeepsExchanged(s: seq<Message>, peer: u32, max: nat)
    ensures Exchanged(Filter(s), peer, max) == Exchanged(s, peer, max)
  {
    if s != [] {
      PurgeKeepsExchanged(s[..|s| - 1], peer, max);
      FilterLast(s);
    }
  }

  /** Compaction keeps the list of peers. */
  lemma {:induction false} PurgeKeepsPeers(s: seq<Message>, max: nat)
    ensures Peers(Filter(s), max) == Peers(s, max)
  {
    if s != [] {
      PurgeKeepsPeers(s[..|s| - 1], max);
      FilterLast(s);
    }
  }

  /** Compaction keeps the unread count. */
  lemma {:induction false} PurgeKeepsUnread(s: seq<Message>)
    ensures CountUnread(Filter(s)) == CountUnread(s)
  {
    if s != [] {
      PurgeKeepsUnread(s[..|s| - 1]);
      FilterLast(s);
    }
  }

  /** Compaction keeps the messages each conversation names, in order. */
  lemma PurgeKeepsConversation(s: seq<Message>, peer: u32, max: nat)
    ensures Picked(Filter(s), Conversation(Filter(s), peer, max)) == Picked(s, Conversation(s, peer, max))
  {
    ConversationNames(s, peer, max);
    ConversationNames(Filter(s), peer, max);
    PurgeKeepsExchanged(s, peer, max);
  }

  /** The first message waiting to be sent. */
  function FirstPending(s: seq<Message>): Option<Message>
  {
    if s == [] then None
    else if IsPending(s[0]) then Some(s[0])
    else FirstPending(s[1..])
  }

  lemma {:induction false} FilterConcat(a: seq<Message>, b: seq<Message>)
    ensures Filter(a + b) == Filter(a) + Filter(b)
  {
    if b == [] {
      assert a + b == a;
    } else {
      assert (a + b)[..|a + b| - 1] == a + b[..|b| - 1];
      FilterConcat(a, b[..|b| - 1]);
    }
  }

  /** Compaction keeps the message that goes out next. */
  lemma {:induction false} PurgeKeepsPending(s: seq<Message>)
    ensures FirstPending(Filter(s)) == FirstPending(s)
  {
    if s != [] {
      assert s == [s[0]] + s[1..];
      FilterConcat([s[0]], s[1..]);
      assert [s[0]][..0] == [];
      PurgeKeepsPending(s[1..]);
      if Live(s[0]) {
        assert Filter(s)[1..] == Filter(s[1..]);
      } else {
        assert Filter(s) == Filter(s[1..]);
      }
    }
  }

  /** The index form that `NextPending` returns names that message. */
  lemma {:induction false} PendingIndex(s: seq<Message>, idx: int)
    requires idx == -1 ==> forall i | 0 <= i < |s| :: !IsPending(s[i])
    requires idx != -1 ==> 0 <= idx < |s| && IsPending(s[idx]) && forall i | 0 <= i < idx :: !IsPending(s[i])
    ensures FirstPending(s) == if idx == -1 then None else Some(s[idx])
  {
    if s != [] && idx != 0 {
      PendingIndex(s[1..], if idx == -1 then -1 else idx - 1);
    }
  }

  // ---------- What the listings contain ----------

  /** A live message received from or sent to `peer`. */
  predicate Exchanges(m: Message, peer: u32)
  {
    m.state != Expired && (if m.incoming then m.sender == peer else m.dest == peer)
  }

  /** The peers listed are distinct, real, and in order of first appearance; none is missing unless the list is full. */
  lemma PeersExact(s: seq<Message>, max: nat)
    ensures var r := Peers(s, max);
            && (forall a, b | 0 <= a < b < |r| :: r[a] != r[b])
            && (forall a | 0 <= a < |r| :: r[a] != 0 && r[a] != 0xFFFF_FFFF && FirstSeen(s, r[a]) < |s|)
            && (forall a, b | 0 <= a < b < |r| :: FirstSeen(s, r[a]) < FirstSeen(s, r[b]))
            && (|r| < max ==>
                forall i, p: u32 | 0 <= i < |s| && Exchanges(s[i], p) && p != 0 && p != 0xFFFF_FFFF :: p in r)
  {
    PeersOrdered(s, max);
    if |Peers(s, max)| < max {
      PeersComplete(s, max);
    }
  }

  lemma {:induction false} PeersComplete(s: seq<Message>, max: nat)
    requires |Peers(s, max)| < max
    ensures forall i | 0 <= i < |s| && HasPeer(s[i]) :: Peer(s[i]) in Peers(s, max)
  {
    if s != [] {
      PeersComplete(s[..|s| - 1], max);
    }
  }

  /** Real peers of the messages, in order of first appearance. */
  ghost predicate Listing(s: seq<Message>, r: seq<u32>)
  {
    && (forall a | 0 <= a < |r| :: r[a] != 0 && r[a] != BROADCAST_ID && FirstSeen(s, r[a]) < |s|)
    && (forall a, b | 0 <= a < b < |r| :: FirstSeen(s, r[a]) < FirstSeen(s, r[b]))
  }

  lemma {:induction false} PeersOrdered(s: seq<Message>, max: nat)
    ensures Listing(s, Peers(s, max))
  {
    if s != [] {
      var t := s[..|s| - 1];
      PeersOrdered(t, max);
      var r := Peers(t, max);
      forall a | 0 <= a < |r|
        ensures FirstSeen(s, r[a]) == FirstSeen(t, r[a])
      {
        FirstSeenPrefix(s, r[a]);
      }
      assert Listing(s, r);
      if Peers(s, max) != r {
        NewPeer(s, max);
      }
    }
  }

  /** A peer just added to the list is first seen in the last message. */
  lemma NewPeer(s: seq<Message>, max: nat)
    requires s != [] && Peers(s, max) != Peers(s[..|s| - 1], max)
    ensures var p := Peer(s[|s| - 1]);
            && Peers(s, max) == Peers(s[..|s| - 1], max) + [p] && p != 0 && p != BROADCAST_ID
            && FirstSeen(s, p) == |s| - 1
  {
    var t, p := s[..|s| - 1], Peer(s[|s| - 1]);
    PeersComplete(t, max);
    FirstSeenPrefix(s, p);
    FirstSeenExact(t, p);
    FirstSeenExact(s, p);
  }

  /** The position of the first live message exchanged with `peer`, or the length if there is none. */
  function FirstSeen(s: seq<Message>, peer: u32): (i: nat)
    ensures i <= |s|
  {
    if s == [] then 0
    else
      var i := FirstSeen(s[..|s| - 1], peer);
      if i < |s| - 1 || Exchanges(s[|s| - 1], peer) then i else |s|
  }

  lemma {:induction false} FirstSeenExact(s: seq<Message>, peer: u32)
    ensures var i := FirstSeen(s, peer);
            && (i < |s| ==> Exchanges(s[i], peer)) && (forall j | 0 <= j < i :: !Exchanges(s[j], peer))
  {
    if s != [] {
      FirstSeenExact(s[..|s| - 1], peer);
    }
  }

  lemma FirstSeenPrefix(s: seq<Message>, peer: u32)
    requires s != []
    ensures var i := FirstSeen(s[..|s| - 1], peer);
            FirstSeen(s, peer) == if i < |s| - 1 || Exchanges(s[|s| - 1], peer) then i else |s|
  {
  }

  /** A conversation lists increasing positions of exactly its live messages, none missing unless the list is full. */
  lemma {:induction false} ConversationExact(s: seq<Message>, peer: u32, max: nat)
    ensures var r := Conversation(s, peer, max);
            && (forall a, b | 0 <= a < b < |r| :: r[a] < r[b])
            && (forall a | 0 <= a < |r| :: Exchanges(s[r[a]], peer))
            && (|r| < max || |s| <= max ==> forall i | 0 <= i < |s| && Exchanges(s[i], peer) :: i in r)
            && |r| <= |s|
  {
    if s != [] {
      ConversationExact(s[..|s| - 1], peer, max);
    }
  }

  // ---------- Safety over all runs ----------

  /** A text record: at most 160 bytes, NUL at its end. */
  ghost predicate TextOk(m: Message) { m.textLen <= MAX_TEXT && m.text[m.textLen] == 0 }

  ghost predicate Safe(st: Store)
  {
    && st.count <= MAX_MESSAGES
    && (forall i | 0 <= i < MAX_MESSAGES :: TextOk(st.slots[i]))
    && (forall i | st.count <= i < MAX_MESSAGES :: st.slots[i] == ZERO)
    && (forall i, j | 0 <= i < j < st.count && st.slots[i].incoming && st.slots[j].incoming ::
          (st.slots[i].sender, st.slots[i].msgId) != (st.slots[j].sender, st.slots[j].msgId))
  }

  datatype Op =
    | Add(sender: u32, msgId: u32, flags: byte, text: seq<byte>, now: u32)
    | Queue(dest: u32, text: seq<byte>, flags: byte, now: u32)
    | Mark(idx: int)
    | Move(idx: int, state: MsgState)
    | Tick(now: u32)
    | Purge
    | Clear

  /** The transitions that the class's methods are proved to make. */
  ghost predicate Step(a: Store, op: Op, b: Store)
    requires InBounds(a)
  {
    match op
    case Add(sender, msgId, flags, text, now) =>
      if IsStored(Used(a), sender, msgId) then b == a
      else exists i :: Inserts(a, i, Incoming(sender, msgId, flags, text, now), b) && b.counter == a.counter
    case Queue(dest, text, flags, now) =>
      && b.counter == (a.counter + 1) % U32_RANGE
      && exists i :: Inserts(a, i, Outgoing(b.counter, dest, text, flags, now), b)
    case Mark(i) => b == if 0 <= i < a.count then a.(slots := a.slots[i := a.slots[i].(read := true)]) else a
    case Move(i, s) => b == if 0 <= i < a.count then a.(slots := a.slots[i := a.slots[i].(state := s)]) else a
    case Tick(now) => b == a.(slots := TickedAll(Used(a), now) + a.slots[a.count..])
    case Purge =>
      && InBounds(b) && b.counter == a.counter && Used(b) == Filter(Used(a))
      && (forall i | b.count <= i < a.count :: b.slots[i] == ZERO)
      && (forall i | a.count <= i < MAX_MESSAGES :: b.slots[i] == a.slots[i])
    case Clear => b == INIT.(counter := a.counter)
  }

  ghost predicate Inserts(a: Store, i: int, m: Message, b: Store)
    requires InBounds(a)
  {
    && 0 <= i < MAX_MESSAGES && IsSlot(a, i, b.count) && b.slots == a.slots[i := m]
  }

  ghost predicate Before(s: seq<Message>, x: Message, y: Message)
  {
    exists k, l :: 0 <= k < l < |s| && s[k] == x && s[l] == y
  }

  /** `f` is drawn from `s` in its order. */
  ghost predicate DrawnFrom(s: seq<Message>, f: seq<Message>)
  {
    |f| <= |s| && (forall m | m in f :: m in s && Live(m)) && forall i, j | 0 <= i < j < |f| :: Before(s, f[i], f[j])
  }

  lemma {:induction false} FilterProps(s: seq<Message>)
    ensures DrawnFrom(s, Filter(s))
  {
    if s != [] {
      FilterProps(s[..|s| - 1]);
      DrawnNext(s, Filter(s[..|s| - 1]));
    }
  }

  lemma DrawnNext(s: seq<Message>, f: seq<Message>)
    requires s != [] && DrawnFrom(s[..|s| - 1], f)
    ensures DrawnFrom(s, f) && (Live(s[|s| - 1]) ==> DrawnFrom(s, f + [s[|s| - 1]]))
  {
    var r, g := s[..|s| - 1], f + [s[|s| - 1]];
    forall i, j | 0 <= i < j < |g|
      ensures Before(s, g[i], g[j])
    {
      if j < |f| {
        assert Before(r, f[i], f[j]);
        var k, l :| 0 <= k < l < |r| && r[k] == f[i] && r[l] == f[j];
        assert s[k] == f[i] && s[l] == f[j];
      } else {
        assert f[i] in r;
        var k :| 0 <= k < |r| && r[k] == f[i];
        assert s[k] == f[i] && s[|s| - 1] == g[j];
      }
    }
    forall i, j | 0 <= i < j < |f|
      ensures Before(s, f[i], f[j])
    {
      assert g[i] == f[i] && g[j] == f[j];
    }
  }

  lemma NewMessageOk(sender: u32, msgId: u32, flags: byte, text: seq<byte>, now: u32)
    ensures TextOk(Incoming(sender, msgId, flags, text, now)) && TextOk(Outgoing(msgId, sender, text, flags, now))
  {
  }

  lemma PurgeSafe(a: Store, b: Store)
    requires Safe(a) && Step(a, Purge, b)
    ensures Safe(b)
  {
    FilterProps(Used(a));
    forall i | 0 <= i < b.count
      ensures TextOk(b.slots[i])
    {
      assert Used(b)[i] in Filter(Used(a));
    }
    forall i, j | 0 <= i < j < b.count && b.slots[i].incoming && b.slots[j].incoming
      ensures (b.slots[i].sender, b.slots[i].msgId) != (b.slots[j].sender, b.slots[j].msgId)
    {
      var s := Used(a);
      assert Used(b)[i] == b.slots[i] && Used(b)[j] == b.slots[j];
      assert Before(s, b.slots[i], b.slots[j]);
      var k, l :| 0 <= k < l < |s| && s[k] == b.slots[i] && s[l] == b.slots[j];
    }
  }

  lemma InsertSafe(a: Store, i: int, m: Message, b: Store)
    requires Safe(a) && Inserts(a, i, m, b) && TextOk(m)
    requires m.incoming ==> !IsStored(Used(a), m.sender, m.msgId)
    ensures Safe(b)
  {
    forall j | 0 <= j < a.count && m.incoming
      ensures (a.slots[j].sender, a.slots[j].msgId) != (m.sender, m.msgId)
    {
      assert Used(a)[j] == a.slots[j];
    }
  }

  /** Every operation keeps the store safe. */
  lemma StepSafe(a: Store, op: Op, b: Store)
    requires Safe(a) && Step(a, op, b)
    ensures Safe(b)
  {
    match op
    case Add(sender, msgId, flags, text, now) =>
      if !IsStored(Used(a), sender, msgId) {
        var m := Incoming(sender, msgId, flags, text, now);
        var i :| Inserts(a, i, m, b);
        NewMessageOk(sender, msgId, flags, text, now);
        InsertSafe(a, i, m, b);
      }
    case Queue(dest, text, flags, now) =>
      var m := Outgoing(b.counter, dest, text, flags, now);
      var i :| Inserts(a, i, m, b);
      NewMessageOk(dest, b.counter, flags, text, now);
      InsertSafe(a, i, m, b);
    case Purge => PurgeSafe(a, b);
    case Tick(now) => TickSafe(a, now, b);
    case _ =>
  }

  lemma TickedMsgKeeps(m: Message, now: u32)
    requires TextOk(m)
    ensures var t := TickedMsg(m, now);
            TextOk(t) && t.incoming == m.incoming && t.sender == m.sender && t.msgId == m.msgId
  {
  }

  lemma TickSafe(a: Store, now: u32, b: Store)
    requires Safe(a) && Step(a, Tick(now), b)
    ensures Safe(b)
  {
    forall i | 0 <= i < MAX_MESSAGES
      ensures TextOk(b.slots[i]) && (i >= a.count ==> b.slots[i] == a.slots[i])
      ensures b.slots[i].incoming == a.slots[i].incoming && b.slots[i].sender == a.slots[i].sender
              && b.slots[i].msgId == a.slots[i].msgId
    {
      TickedMsgKeeps(a.slots[i], now);
      assert i < a.count ==> Used(a)[i] == a.slots[i] && b.slots[i] == TickedMsg(a.slots[i], now);
    }
  }

  /** Every method of the class makes the transition of its operation. */
  method Perform(st: MsgStore, op: Op)
    requires st.Valid()
    modifies st, st.msgs
    ensures st.Valid() && Step(old(st.Value()), op, st.Value())
  {
    ghost var a := st.Value();
    match op
    case Add(sender, msgId, flags, text, now) =>
      var idx := st.AddIncoming(sender, msgId, flags, text, now);
      assert idx != -1 ==> Inserts(a, idx, Incoming(sender, msgId, flags, text, now), st.Value());
    case Queue(dest, text, flags, now) =>
      var idx := st.QueueOutgoing(dest, text, flags, now);
      assert Inserts(a, idx, Outgoing(st.counter, dest, text, flags, now), st.Value());
    case Mark(idx) => st.MarkRead(idx);
    case Move(idx, state) => st.SetState(idx, state);
    case Tick(now) => st.Tick(now);
    case Purge =>
      st.Purge();
      FilterProps(Used(a));
    case Clear => st.Clear();
  }

  /** A run: successive stores, each reached from the one before by its operation. */
  ghost predicate IsRun(run: seq<Store>, ops: seq<Op>)
  {
    |run| == |ops| + 1 && run[0] == INIT && forall i | 0 <= i < |ops| ::
      InBounds(run[i]) && Step(run[i], ops[i], run[i + 1])
  }

  /** At most 32 messages, texts terminated, no incoming message stored twice, after any sequence of operations. */
  lemma {:induction false} AlwaysSafe(run: seq<Store>, ops: seq<Op>, n: nat)
    requires IsRun(run, ops) && n < |run|
    ensures Safe(run[n])
  {
    if n > 0 {
      AlwaysSafe(run, ops, n - 1);
      StepSafe(run[n - 1], ops[n - 1], run[n]);
    }
  }

  // ---------- Texts over all runs ----------

  /** The message is the one that this operation put in: nothing but its state, read mark and burnt text may differ. */
  ghost predicate From(m: Message, op: Op)
  {
    match op
    case Add(sender, msgId, flags, text, now) =>
      && m.incoming && m.sender == sender && m.msgId == msgId && m.flags == flags && m.timestamp == now
      && (HoldsText(m, text) || (m.text == BLANK && flags % 2 == 1))
    case Queue(dest, text, flags, now) =>
      !m.incoming && m.dest == dest && m.flags == flags && m.timestamp == now && HoldsText(m, text)
    case _ => false
  }

  /** How many texts have been queued. */
  function QueuedIn(past: seq<Op>): nat
  {
    if past == [] then 0 else QueuedIn(past[..|past| - 1]) + if past[|past| - 1].Queue? then 1 else 0
  }

  /** The message was put in by the operation at `k`; a queued one is numbered in its turn, as a 32-bit count. */
  ghost predicate PutInAt(m: Message, past: seq<Op>, k: nat)
    requires k < |past|
  {
    From(m, past[k]) && (past[k].Queue? ==> m.msgId == (QueuedIn(past[..k]) + 1) % 0x1_0000_0000)
  }

  ghost predicate PutInBy(m: Message, past: seq<Op>) { exists k: nat :: k < |past| && PutInAt(m, past, k) }

  ghost predicate Faithful(st: Store, past: seq<Op>)
  {
    && InBounds(st) && st.counter == QueuedIn(past) % 0x1_0000_0000
    && forall i | 0 <= i < st.count :: PutInBy(st.slots[i], past)
  }

  lemma QueuedNext(past: seq<Op>, op: Op)
    ensures QueuedIn(past + [op]) == QueuedIn(past) + if op.Queue? then 1 else 0
  {
    assert (past + [op])[..|past|] == past;
  }

  lemma PutInEarlier(m: Message, past: seq<Op>, op: Op)
    ensures PutInBy(m, past) ==> PutInBy(m, past + [op])
    ensures From(m, op) && (op.Queue? ==> m.msgId == (QueuedIn(past) + 1) % 0x1_0000_0000) ==> PutInBy(m, past + [op])
  {
    var all := past + [op];
    if PutInBy(m, past) {
      var k: nat :| k < |past| && PutInAt(m, past, k);
      assert all[..k] == past[..k] && PutInAt(m, all, k);
    }
    assert all[..|past|] == past;
    if From(m, op) && (op.Queue? ==> m.msgId == (QueuedIn(past) + 1) % 0x1_0000_0000) {
      assert PutInAt(m, all, |past|);
    }
  }

  /** What happens to a message in place takes nothing back. */
  lemma SameOrigin(m: Message, past: seq<Op>, state: MsgState, now: u32)
    requires PutInBy(m, past)
    ensures PutInBy(m.(state := state), past) && PutInBy(m.(read := true), past) && PutInBy(TickedMsg(m, now), past)
  {
    var k: nat :| k < |past| && PutInAt(m, past, k);
    assert PutInAt(m.(state := state), past, k) && PutInAt(m.(read := true), past, k);
    assert PutInAt(TickedMsg(m, now), past, k);
  }

  lemma NewFrom(sender: u32, msgId: u32, flags: byte, text: seq<byte>, now: u32)
    ensures From(Incoming(sender, msgId, flags, text, now), Add(sender, msgId, flags, text, now))
    ensures From(Outgoing(msgId, sender, text, flags, now), Queue(sender, text, flags, now))
  {
    var m := Incoming(sender, msgId, flags, text, now);
    assert m.text[..m.textLen] == text[..m.textLen];
  }

  lemma InsertFaithful(a: Store, i: int, m: Message, b: Store, past: seq<Op>, op: Op)
    requires Faithful(a, past) && Inserts(a, i, m, b) && From(m, op)
    requires b.counter == (if op.Queue? then (a.counter + 1) % 0x1_0000_0000 else a.counter)
    requires op.Queue? ==> m.msgId == b.counter
    ensures Faithful(b, past + [op])
  {
    QueuedNext(past, op);
    forall j | 0 <= j < b.count
      ensures PutInBy(b.slots[j], past + [op])
    {
      if j != i {
        assert PutInBy(a.slots[j], past);
      }
      PutInEarlier(b.slots[j], past, op);
    }
  }

  lemma PurgeFaithful(a: Store, b: Store, past: seq<Op>)
    requires Faithful(a, past) && Step(a, Purge, b)
    ensures Faithful(b, past)
  {
    FilterProps(Used(a));
    forall j | 0 <= j < b.count
      ensures PutInBy(b.slots[j], past)
    {
      assert Used(b)[j] in Used(a);
    }
  }

  lemma MovedFaithful(a: Store, op: Op, b: Store, past: seq<Op>)
    requires Faithful(a, past) && Step(a, op, b) && (op.Mark? || op.Move? || op.Tick?)
    ensures Faithful(b, past)
  {
    forall j | 0 <= j < b.count
      ensures PutInBy(b.slots[j], past)
    {
      var s, now := if op.Move? then op.state else Queued, if op.Tick? then op.now else 0;
      assert PutInBy(a.slots[j], past);
      SameOrigin(a.slots[j], past, s, now);
      if op.Tick? {
        assert Used(a)[j] == a.slots[j] && b.slots[j] == TickedAll(Used(a), now)[j];
      }
    }
  }

  lemma WeakerFaithful(b: Store, past: seq<Op>, op: Op)
    requires Faithful(b, past) && !op.Queue?
    ensures Faithful(b, past + [op])
  {
    QueuedNext(past, op);
    forall j | 0 <= j < b.count
      ensures PutInBy(b.slots[j], past + [op])
    {
      assert PutInBy(b.slots[j], past);
      PutInEarlier(b.slots[j], past, op);
    }
  }

  lemma StepFaithful(a: Store, op: Op, b: Store, past: seq<Op>)
    requires Faithful(a, past) && Step(a, op, b)
    ensures Faithful(b, past + [op])
  {
    match op
    case Add(sender, msgId, flags, text, now) =>
      if IsStored(Used(a), sender, msgId) {
        WeakerFaithful(b, past, op);
      } else {
        var i :| Inserts(a, i, Incoming(sender, msgId, flags, text, now), b) && b.counter == a.counter;
        NewFrom(sender, msgId, flags, text, now);
        InsertFaithful(a, i, Incoming(sender, msgId, flags, text, now), b, past, op);
      }
    case Queue(dest, text, flags, now) =>
      var i :| Inserts(a, i, Outgoing(b.counter, dest, text, flags, now), b);
      NewFrom(dest, b.counter, flags, text, now);
      InsertFaithful(a, i, Outgoing(b.counter, dest, text, flags, now), b, past, op);
    case Purge =>
      PurgeFaithful(a, b, past);
      WeakerFaithful(b, past, op);
    case Clear => QueuedNext(past, op);
    case _ =>
      MovedFaithful(a, op, b, past);
      WeakerFaithful(b, past, op);
  }

  /**
   * After any sequence of operations every message in the store is one that was put in: an outgoing one holds the
   * first 160 bytes of the text that was queued and its addressee, an incoming one those of the text received and its
   * sender, unless it was burnt. Queued texts are numbered in the order of queueing.
   */
  lemma {:induction false} TextsKept(run: seq<Store>, ops: seq<Op>, n: nat)
    requires IsRun(run, ops) && n < |run|
    ensures Faithful(run[n], ops[..n])
  {
    if n > 0 {
      TextsKept(run, ops, n - 1);
      StepFaithful(run[n - 1], ops[n - 1], run[n], ops[..n - 1]);
      assert ops[..n - 1] + [ops[n - 1]] == ops[..n];
    }
  }

  /** Every message expires an hour after its time stamp, as the 32-bit clock counts. */
  ghost predicate Hourly(m: Message) { m.expireAt == (m.timestamp + 3600000) % 0x1_0000_0000 }

  ghost predicate AllHourly(st: Store) { InBounds(st) && forall i | 0 <= i < st.count :: Hourly(st.slots[i]) }

  lemma InsertHourly(a: Store, i: int, m: Message, b: Store)
    requires AllHourly(a) && Inserts(a, i, m, b) && Hourly(m)
    ensures AllHourly(b)
  {
    assert forall j | 0 <= j < b.count && j != i :: b.slots[j] == a.slots[j];
  }

  lemma PurgeHourly(a: Store, b: Store)
    requires AllHourly(a) && Step(a, Purge, b)
    ensures AllHourly(b)
  {
    FilterProps(Used(a));
    forall i | 0 <= i < b.count
      ensures Hourly(b.slots[i])
    {
      assert Used(b)[i] in Used(a);
    }
  }

  lemma TickHourly(a: Store, now: u32, b: Store)
    requires AllHourly(a) && Step(a, Tick(now), b)
    ensures AllHourly(b)
  {
    forall i | 0 <= i < b.count
      ensures Hourly(b.slots[i])
    {
      assert Used(a)[i] == a.slots[i] && b.slots[i] == TickedMsg(a.slots[i], now);
    }
  }

  lemma StepHourly(a: Store, op: Op, b: Store)
    requires AllHourly(a) && Step(a, op, b)
    ensures AllHourly(b)
  {
    match op
    case Add(sender, msgId, flags, text, now) =>
      if !IsStored(Used(a), sender, msgId) {
        var i :| Inserts(a, i, Incoming(sender, msgId, flags, text, now), b);
        InsertHourly(a, i, Incoming(sender, msgId, flags, text, now), b);
      }
    case Queue(dest, text, flags, now) =>
      var i :| Inserts(a, i, Outgoing(b.counter, dest, text, flags, now), b);
      InsertHourly(a, i, Outgoing(b.counter, dest, text, flags, now), b);
    case Purge => PurgeHourly(a, b);
    case Tick(now) => TickHourly(a, now, b);
    case _ =>
  }

  lemma {:induction false} AlwaysHourly(run: seq<Store>, ops: seq<Op>, n: nat)
    requires IsRun(run, ops) && n < |run|
    ensures AllHourly(run[n])
  {
    if n > 0 {
      AlwaysHourly(run, ops, n - 1);
      StepHourly(run[n - 1], ops[n - 1], run[n]);
    }
  }

  /**
   * In every reachable state a tick leaves an incoming message that has not expired alone until its hour is over, and
   * then only expires it, except that it burns one that is to be burnt once it has been read.
   */
  lemma IncomingUntilExpiry(run: seq<Store>, ops: seq<Op>, n: nat, i: nat, now: u32)
    requires IsRun(run, ops) && n < |run| && i < run[n].count <= MAX_MESSAGES
    requires var m := run[n].slots[i]; m.incoming && m.state != Expired
    ensures var m := run[n].slots[i]; var over := now > (m.timestamp + 3600000) % 0x1_0000_0000;
            TickedMsg(m, now) ==
            if over then m.(state := Expired)
            else if m.flags % 2 == 1 && m.read then m.(state := Expired, text := BLANK)
            else m
  {
    AlwaysHourly(run, ops, n);
    assert Hourly(run[n].slots[i]);
  }

  // ---------- Retries ----------

  /** Never retried: the retry count and the time of the next retry are still zero. */
  predicate Untried(m: Message) { m.retries == 0 && m.nextRetry == 0 }

  ghost predicate AllUntried(st: Store) { forall i | 0 <= i < MAX_MESSAGES :: Untried(st.slots[i]) }

  lemma StepUntried(a: Store, op: Op, b: Store)
    requires InBounds(a) && AllUntried(a) && Step(a, op, b)
    ensures InBounds(b) && AllUntried(b)
  {
    if op.Purge? {
      FilterProps(Used(a));
      forall i | 0 <= i < b.count
        ensures Untried(b.slots[i])
      {
        assert Used(b)[i] in Filter(Used(a));
      }
    }
  }

  lemma {:induction false} AlwaysUntried(run: seq<Store>, ops: seq<Op>, n: nat)
    requires IsRun(run, ops) && n < |run|
    ensures InBounds(run[n]) && AllUntried(run[n])
  {
    AlwaysSafe(run, ops, n);
    if n > 0 {
      AlwaysSafe(run, ops, n - 1);
      AlwaysUntried(run, ops, n - 1);
      StepUntried(run[n - 1], ops[n - 1], run[n]);
    }
  }

  /**
   * No retry is ever counted, so in every reachable state a tick hands each queued outgoing message out again
   * until it expires, and never gives one up.
   */
  lemma QueuedUntilExpiry(run: seq<Store>, ops: seq<Op>, n: nat, i: nat, now: u32)
    requires IsRun(run, ops) && n < |run| && i < run[n].count <= MAX_MESSAGES
    ensures var m := run[n].slots[i]; var t := TickedMsg(m, now).state;
            && (!m.incoming && m.state == Queued ==> t == if now > m.expireAt then Expired else Sending)
            && (t == Failed ==> m.state == Failed)
  {
    AlwaysUntried(run, ops, n);
    assert Untried(run[n].slots[i]);
  }

  // ---------- What an insertion costs ----------

  ghost function LiveSet(s: seq<Message>): multiset<Message> { multiset(Filter(s)) }

  lemma LiveSetUpdate(s: seq<Message>, i: nat, m: Message)
    requires i < |s| && Live(m)
    ensures LiveSet(s[i := m]) == LiveSet(s) - (if Live(s[i]) then multiset{s[i]} else multiset{}) + multiset{m}
  {
    var a, b := s[..i], s[i + 1..];
    assert s == a + [s[i]] + b && s[i := m] == a + [m] + b;
    assert [s[i]][..0] == [] && [m][..0] == [];
    FilterConcat(a + [s[i]], b);
    FilterConcat(a + [m], b);
    FilterConcat(a, [s[i]]);
    FilterConcat(a, [m]);
  }

  lemma InsertWithRoom(a: Store, i: int, m: Message, b: Store)
    requires InBounds(a) && Inserts(a, i, m, b) && Live(m) && a.count < MAX_MESSAGES
    ensures InBounds(b) && LiveSet(Used(b)) == LiveSet(Used(a)) + multiset{m}
  {
    assert Used(b) == Used(a) + [m];
    FilterConcat(Used(a), [m]);
    assert [m][..0] == [];
  }

  lemma InsertWhenFull(a: Store, i: int, m: Message, b: Store)
    requires InBounds(a) && Inserts(a, i, m, b) && Live(m) && a.count == MAX_MESSAGES
    ensures InBounds(b) && IsVictim(a.slots, i)
    ensures LiveSet(Used(b))
            == LiveSet(Used(a)) - (if Live(a.slots[i]) then multiset{a.slots[i]} else multiset{}) + multiset{m}
    ensures Live(a.slots[i]) ==> a.slots[i] in LiveSet(Used(a))
  {
    assert Used(a) == a.slots && Used(b) == b.slots == a.slots[i := m];
    LiveSetUpdate(a.slots, i, m);
    if Live(a.slots[i]) {
      FilterHas(a.slots, i);
    }
  }

  /**
   * An insertion adds the new message to the live ones and removes nothing, except when the store is full and
   * nothing in it has expired: then exactly one message of smallest timestamp goes.
   */
  lemma InsertionEvicts(a: Store, i: int, m: Message, b: Store)
    requires InBounds(a) && Inserts(a, i, m, b) && Live(m)
    ensures InBounds(b)
    ensures a.count < MAX_MESSAGES || (exists k | 0 <= k < a.count :: !Live(a.slots[k])) ==>
              LiveSet(Used(b)) == LiveSet(Used(a)) + multiset{m}
    ensures a.count == MAX_MESSAGES && (forall k | 0 <= k < a.count :: Live(a.slots[k])) ==>
              && a.slots[i] in LiveSet(Used(a))
              && (forall k | 0 <= k < a.count :: a.slots[i].timestamp <= a.slots[k].timestamp)
              && LiveSet(Used(b)) == LiveSet(Used(a)) - multiset{a.slots[i]} + multiset{m}
  {
    if a.count < MAX_MESSAGES {
      InsertWithRoom(a, i, m, b);
    } else {
      InsertWhenFull(a, i, m, b);
    }
  }

  lemma FilterHas(s: seq<Message>, i: nat)
    requires i < |s| && Live(s[i])
    ensures s[i] in LiveSet(s)
  {
    assert s == s[..i] + [s[i]] + s[i + 1..] && [s[i]][..0] == [];
    FilterConcat(s[..i] + [s[i]], s[i + 1..]);
    FilterConcat(s[..i], [s[i]]);
  }

  // ---------- Time ----------

  /** A read burn-after-read message waiting to be burnt. */
  predicate BurnDue(m: Message) { Live(m) && HasBurn(m.flags) && m.read && m.incoming }

  /**
   * Two ticks leave every message in the state of the later one alone, and leave everything as the later one
   * alone except the text of a burn message that the first burnt and the second would only have expired.
   */
  lemma TickCoalesces(m: Message, t1: u32, t2: u32)
    requires t1 <= t2
    ensures TickedMsg(TickedMsg(m, t1), t2).state == TickedMsg(m, t2).state
    ensures TickedMsg(TickedMsg(m, t1), t2).(text := m.text) == TickedMsg(m, t2).(text := m.text)
    ensures TickedMsg(TickedMsg(m, t1), t2) == TickedMsg(m, t2) <==>
            !(BurnDue(m) && t1 <= m.expireAt < t2 && m.text != BLANK)
  {
    var a := TickedMsg(m, t1);
    assert a.expireAt == m.expireAt && a.retries == m.retries && a.nextRetry == m.nextRetry;
  }

  /** The texts do differ: burning first clears a text that expiry alone would keep. */
  lemma BurnThenExpireDiffers()
    ensures var m := Incoming(7, 9, 1, [65], 0).(read := true);
            TickedMsg(TickedMsg(m, 10), 4000000) != TickedMsg(m, 4000000)
  {
    var m := Incoming(7, 9, 1, [65], 0).(read := true);
    assert m.text[0] == 65 && BLANK[0] == 0;
    TickCoalesces(m, 10, 4000000);
  }

  lemma TickedTwice(s: seq<Message>, t1: u32, t2: u32)
    requires t1 <= t2
    ensures var once, twice := TickedAll(s, t2), TickedAll(TickedAll(s, t1), t2);
            && |once| == |twice| && (forall i | 0 <= i < |once| :: once[i].state == twice[i].state)
            && (t1 == t2 ==> once == twice)
  {
    forall i | 0 <= i < |s|
      ensures TickedAll(s, t2)[i].state == TickedAll(TickedAll(s, t1), t2)[i].state
      ensures t1 == t2 ==> TickedAll(s, t2)[i] == TickedAll(TickedAll(s, t1), t2)[i]
    {
      TickCoalesces(s[i], t1, t2);
    }
  }

  /** After a tick no live message is past its expiry and no read incoming burn message is live. */
  lemma TickClears(s: seq<Message>, now: u32, i: nat)
    requires i < |s|
    ensures var m := TickedAll(s, now)[i]; Live(m) ==> now <= m.expireAt && !BurnDue(m)
  {
    assert TickedAll(s, now)[i] == TickedMsg(s[i], now);
  }
}
