/**
 * The mesh as a transition system: nodes running the routing engine and the text handler, frame copies in
 * flight, and the steps deliver, lose, send, purge and wait. Logs, transmissions and receipts are history.
 */
module Network {
  import opened Words
  import opened Packets
  import opened Dedup
  import opened Mesh
  import opened TextMessages

  datatype Node = Node(id: u32, key: Key, ring: Ring, log: seq<Seen>)

  /** The cipher and who is within radio range of whom. */
  datatype World = World(aead: Aead, hears: (nat, nat) -> bool)

  /** A packet as first transmitted, by whom, and the text sealed in it (None for an acknowledgement). */
  datatype Origin = Origin(src: nat, packet: Packet, text: Option<seq<byte>>)

  /** One undelivered copy of a frame; `path` lists the nodes that transmitted it, originator first. */
  datatype Copy = Copy(to: nat, frame: seq<byte>, origin: Origin, path: seq<nat>)

  /** A transmission: by whom, of which packet, and whether it was a relay. */
  datatype Sent = Sent(node: nat, sender: u32, msgId: u32, relayed: bool, origin: Origin)

  /** An accepted frame: what was handed to the text handler and the text it opened. */
  datatype Receipt = Receipt(node: nat, sender: u32, msgId: u32, origin: Origin, path: seq<nat>, handed: Option<Packet>,
                             text: Option<seq<byte>>)

  datatype Net = Net(nodes: seq<Node>, air: seq<Copy>, now: nat, sent: seq<Sent>, receipts: seq<Receipt>)

  datatype Step =
    | Deliver(k: nat, scratch: Packet)
    | Lose(k: nat)
    | SendText(src: nat, dest: u32, msgId: u32, nonce: Nonce, text: seq<byte>, flags: byte)
    | Purge(node: nat)
    | Wait(ms: nat)

  /** One copy for every node below `n` in range of the transmitter. */
  function Fan(w: World, n: nat, src: nat, frame: seq<byte>, origin: Origin, path: seq<nat>): seq<Copy>
  {
    if n == 0 then []
    else
      Fan(w, n - 1, src, frame, origin, path) +
      if n - 1 != src && w.hears(src, n - 1) then [Copy(n - 1, frame, origin, path)] else []
  }

  /** Node `i` adds a key to its duplicate cache. */
  function Cached(net: Net, i: nat, sender: u32, msgId: u32): Net
    requires i < |net.nodes|
  {
    var v := net.nodes[i];
    net.(nodes := net.nodes[i := v.(ring := Added(v.ring, sender, msgId, Millis(net.now)),
                                    log := v.log + [Seen(sender, msgId, net.now)])])
  }

  /** Node `i` puts a frame on the air. */
  function Transmitted(
      w: World, net: Net, i: nat, frame: seq<byte>, p: Packet, origin: Origin, path: seq<nat>, relayed: bool): Net
  {
    net.(air := net.air + Fan(w, |net.nodes|, i, frame, origin, path),
         sent := net.sent + [Sent(i, p.sender, p.msgId, relayed, origin)])
  }

  /** `send_packet` on node `i`. */
  function Launched(w: World, net: Net, i: nat, p: Packet, text: Option<seq<byte>>): Net
    requires i < |net.nodes| && p.payloadLen <= MAX_PAYLOAD
  {
    var q := Addressed(p, net.nodes[i].id);
    Transmitted(w, Cached(net, i, q.sender, q.msgId), i, Wire(q), q, Origin(i, q, text), [i], false)
  }

  /** The radio hands up no empty and no oversized frame. */
  predicate Readable(c: Copy, net: Net)
  {
    c.to < |net.nodes| && 0 < |c.frame| <= MAX_FRAME
  }

  function Judged(net: Net, c: Copy, scratch: Packet): Outcome
    requires Readable(c, net)
  {
    Handle(net.nodes[c.to].ring, c.frame, net.nodes[c.to].id, Millis(net.now), scratch)
  }

  function Opened(w: World, key: Key, handed: Option<Packet>): Option<seq<byte>>
  {
    match handed
    case None => None
    case Some(p) => if p.kind == KIND_TEXT then OpenText(w.aead, key, p) else None
  }

  /** An accepting node caches the key and relays what the engine gives it. */
  function Relaying(w: World, net: Net, c: Copy, p: Packet, o: Outcome): Net
    requires c.to < |net.nodes|
  {
    var n := Cached(net, c.to, p.sender, p.msgId);
    if o.relay.Some? then Transmitted(w, n, c.to, o.relay.value, p, c.origin, c.path + [c.to], true) else n
  }

  function Noted(w: World, net: Net, c: Copy, p: Packet, o: Outcome): Net
    requires c.to < |net.nodes|
  {
    net.(receipts := net.receipts +
         [Receipt(c.to, p.sender, p.msgId, c.origin, c.path, o.delivered, Opened(w, net.nodes[c.to].key, o.delivered))])
  }

  /** A text that opens and asks for it is acknowledged. */
  function Acking(w: World, net: Net, i: nat, handed: Option<Packet>): Net
    requires i < |net.nodes|
  {
    match handed
    case None => net
    case Some(q) =>
      match Reply(w.aead, net.nodes[i].key, q)
      case None => net
      case Some(ack) => Launched(w, net, i, ack, None)
  }

  function Accepting(w: World, net: Net, c: Copy, p: Packet, o: Outcome): Net
    requires c.to < |net.nodes|
  {
    Acking(w, Noted(w, Relaying(w, net, c, p, o), c, p, o), c.to, o.delivered)
  }

  /** Node `c.to` reads copy `c`. */
  function Received(w: World, net: Net, c: Copy, scratch: Packet): Net
  {
    if !Readable(c, net) then net
    else
      var o := Judged(net, c, scratch);
      match o.verdict
      case Accepted => Accepting(w, net, c, Parse(c.frame, scratch).value, o)
      case BadTtl => var p := Parse(c.frame, scratch).value; Cached(net, c.to, p.sender, p.msgId)
      case _ => net
  }

  function Without(net: Net, k: nat): Net
    requires k < |net.air|
  {
    net.(air := net.air[..k] + net.air[k + 1..])
  }

  /** Whether a step can be taken. */
  predicate Enabled(net: Net, s: Step)
  {
    match s
    case Deliver(k, _) => k < |net.air|
    case Lose(k) => k < |net.air|
    case SendText(src, _, _, _, _, _) => src < |net.nodes|
    case Purge(i) => i < |net.nodes|
    case Wait(_) => true
  }

  function Next(w: World, net: Net, s: Step): Net
    requires Enabled(net, s)
  {
    match s
    case Deliver(k, scratch) => Received(w, Without(net, k), net.air[k], scratch)
    case Lose(k) => Without(net, k)
    case SendText(src, dest, msgId, nonce, text, flags) =>
      (match SealText(w.aead, net.nodes[src].key, Draft(net.nodes[src].id, dest, msgId, nonce, flags), text)
       case None => net
       case Some(p) => if p.payloadLen <= MAX_PAYLOAD then Launched(w, net, src, p, Some(text)) else net)
    case Purge(i) =>
      var v := net.nodes[i];
      net.(nodes := net.nodes[i := v.(ring := Ticked(v.ring, Millis(net.now)))])
    case Wait(ms) => net.(now := net.now + ms)
  }

  /** Every step of the run can be taken. */
  predicate IsRun(w: World, net: Net, run: seq<Step>)
    decreases |run|, 0
  {
    run == [] ||
    (IsRun(w, net, run[..|run| - 1]) && Enabled(After(w, net, run[..|run| - 1]), run[|run| - 1]))
  }

  function After(w: World, net: Net, run: seq<Step>): Net
    requires IsRun(w, net, run)
    decreases |run|, 1
  {
    if run == [] then net else Next(w, After(w, net, run[..|run| - 1]), run[|run| - 1])
  }

  /** A network of idle nodes with empty caches. */
  ghost predicate Fresh(net: Net)
  {
    && net.air == [] && net.sent == [] && net.receipts == []
    && (forall i | 0 <= i < |net.nodes| :: net.nodes[i].ring == INIT && net.nodes[i].log == [])
  }

  /**
   * Identifiers neither zero nor the broadcast address, as provisioning hands them out, and distinct, which its
   * random numbers make likely and these theorems assume.
   */
  ghost predicate GoodIds(net: Net)
  {
    && (forall i | 0 <= i < |net.nodes| :: net.nodes[i].id != 0 && net.nodes[i].id != BROADCAST_ID)
    && (forall i, j | 0 <= i < j < |net.nodes| :: net.nodes[i].id != net.nodes[j].id)
  }

  lemma {:induction false} FanCopies(w: World, n: nat, src: nat, frame: seq<byte>, origin: Origin, path: seq<nat>)
    ensures var f := Fan(w, n, src, frame, origin, path);
            && |f| <= n && (src < n ==> |f| < n)
            && (forall c | c in f ::
                c == Copy(c.to, frame, origin, path) && c.to < n && c.to != src && w.hears(src, c.to))
            && (forall j | 0 <= j < n && j != src && w.hears(src, j) :: Copy(j, frame, origin, path) in f)
  {
    if n > 0 {
      FanCopies(w, n - 1, src, frame, origin, path);
    }
  }

  /** Identities and keys are the same; time, logs, transmissions and receipts have only grown. */
  ghost predicate Grown(a: Net, b: Net)
  {
    && |a.nodes| == |b.nodes| && a.now <= b.now && a.sent <= b.sent && a.receipts <= b.receipts
    && (forall i | 0 <= i < |a.nodes| :: SameNode(a.nodes[i], b.nodes[i]))
  }

  ghost predicate SameNode(u: Node, v: Node)
  {
    u.id == v.id && u.key == v.key && u.log <= v.log
  }

  lemma AcceptingGrows(w: World, net: Net, c: Copy, p: Packet, o: Outcome)
    requires c.to < |net.nodes|
    ensures Grown(net, Accepting(w, net, c, p, o))
  {
    var n := Noted(w, Relaying(w, net, c, p, o), c, p, o);
    assert Grown(net, n);
    if o.delivered.Some? && Reply(w.aead, n.nodes[c.to].key, o.delivered.value).Some? {
      LaunchedGrows(w, n, c.to, Reply(w.aead, n.nodes[c.to].key, o.delivered.value).value, None);
    }
  }

  lemma LaunchedGrows(w: World, net: Net, i: nat, p: Packet, text: Option<seq<byte>>)
    requires i < |net.nodes| && p.payloadLen <= MAX_PAYLOAD
    ensures Grown(net, Launched(w, net, i, p, text))
  {
  }

  /** No step changes an identity or a key, or takes anything back from the history. */
  lemma StepGrows(w: World, net: Net, s: Step)
    requires Enabled(net, s)
    ensures Grown(net, Next(w, net, s))
  {
    match s
    case Deliver(k, scratch) =>
      var c, n0 := net.air[k], Without(net, k);
      if Readable(c, n0) && Judged(n0, c, scratch).verdict == Accepted {
        AcceptingGrows(w, n0, c, Parse(c.frame, scratch).value, Judged(n0, c, scratch));
      }
    case SendText(src, dest, msgId, nonce, text, flags) =>
      var p := SealText(w.aead, net.nodes[src].key, Draft(net.nodes[src].id, dest, msgId, nonce, flags), text);
      if p.Some? && p.value.payloadLen <= MAX_PAYLOAD {
        LaunchedGrows(w, net, src, p.value, Some(text));
      }
    case _ =>
  }

  lemma RunSnoc(w: World, net: Net, run: seq<Step>, s: Step)
    requires IsRun(w, net, run) && Enabled(After(w, net, run), s)
    ensures IsRun(w, net, run + [s]) && After(w, net, run + [s]) == Next(w, After(w, net, run), s)
  {
    assert (run + [s])[..|run|] == run;
  }

  lemma {:induction false} RunGrows(w: World, net: Net, run: seq<Step>, k: nat)
    requires IsRun(w, net, run) && k <= |run|
    ensures IsRun(w, net, run[..k]) && Grown(After(w, net, run[..k]), After(w, net, run))
  {
    if k == |run| {
      assert run[..k] == run;
    } else {
      var r := run[..|run| - 1];
      RunGrows(w, net, r, k);
      assert r[..k] == run[..k];
      StepGrows(w, After(w, net, r), run[|run| - 1]);
    }
  }
}
