/**
 * Shared conversation links (apps/server/src/agents/linkGuard.ts) and the tier limit of the route that creates them
 * (apps/server/src/routes/share.ts). Tokens are arbitrary strings and the PIN hash is any function.
 */
module ShareLinks {
  import opened Words

  const RETENTION_MS := 86400000
  const MAX_ADDRESSES := 5

  datatype Access = Access(ip: string, timestamp: int, agent: string)

  datatype Link = Link(
    conversation: string, createdBy: string, expiresAt: int, maxViews: int, currentViews: int, pinHash: Option<string>,
    whitelist: seq<string>, oneTime: bool, active: bool, log: seq<Access>, createdAt: int)

  datatype Request = Request(
    conversation: string, minutes: int, maxViews: int, pin: string, oneTime: bool, whitelist: seq<string>)

  datatype Reason = Unknown | Revoked | Expired | Exhausted | Address | WrongPin | Suspicious

  datatype Verdict = Granted(conversation: string) | Refused(reason: Reason)

  datatype Tier = Free | Secure | Fortress

  datatype Outcome = BadRequest | NotFound | LimitReached(count: nat, allowed: int) | Created(token: string)

  type Links = map<string, Link>

  /** Links a user may share at once; -1 for no limit. */
  function MaxSharedLinks(tier: Tier): int
  {
    match tier
    case Free => 5
    case Secure => 25
    case Fortress => -1
  }

  function Addresses(log: seq<Access>): set<string> { set a | a in log :: a.ip }

  // ---------- Operations on values ----------

  function NewLink(user: string, r: Request, hash: string -> string, now: int): Link
  {
    Link(r.conversation, user, now + r.minutes * 60000, r.maxViews, 0, if r.pin == "" then None else Some(hash(r.pin)),
         r.whitelist, r.oneTime, true, [], now)
  }

  predicate PinMissing(l: Link, pin: string, hash: string -> string)
  {
    l.pinHash.Some? && l.pinHash.value != "" && (pin == "" || hash(pin) != l.pinHash.value)
  }

  function Judged(links: Links, token: string, ip: string, pin: string, hash: string -> string, now: int): Verdict
  {
    if token !in links then Refused(Unknown)
    else
      var l := links[token];
      if !l.active then Refused(Revoked)
      else if now > l.expiresAt then Refused(Expired)
      else if l.currentViews >= l.maxViews then Refused(Exhausted)
      else if l.whitelist != [] && ip !in l.whitelist then Refused(Address)
      else if PinMissing(l, pin, hash) then Refused(WrongPin)
      else if |Addresses(l.log)| > MAX_ADDRESSES && ip !in Addresses(l.log) then Refused(Suspicious)
      else Granted(l.conversation)
  }

  function Viewed(l: Link, ip: string, agent: string, now: int): Link
  {
    l.(currentViews := l.currentViews + 1, log := l.log + [Access(ip, now, agent)], active := l.active && !l.oneTime)
  }

  function Accessed(
      links: Links, token: string, ip: string, agent: string, pin: string, hash: string -> string, now: int): Links
  {
    match Judged(links, token, ip, pin, hash, now)
    case Granted(_) => links[token := Viewed(links[token], ip, agent, now)]
    case Refused(reason) =>
      if reason in {Expired, Exhausted, Suspicious} then links[token := links[token].(active := false)] else links
  }

  predicate MayRevoke(links: Links, token: string, user: string) { token in links && links[token].createdBy == user }

  function Withdrawn(links: Links, token: string, user: string): Links
  {
    if MayRevoke(links, token, user) then links[token := links[token].(active := false)] else links
  }

  predicate Listed(l: Link, user: string, now: int) { l.createdBy == user && l.active && now < l.expiresAt }

  function UserLinks(links: Links, user: string, now: int): set<string>
  {
    set t | t in links && Listed(links[t], user, now)
  }

  predicate Stale(l: Link, now: int) { now > l.expiresAt || (!l.active && now - l.createdAt > RETENTION_MS) }

  function Swept(links: Links, now: int): Links { map t | t in links && !Stale(links[t], now) :: links[t] }

  function Answer(
      links: Links, user: string, valid: bool, participant: bool, tier: Tier, token: string, now: int): Outcome
  {
    var count := |UserLinks(links, user, now)|;
    if !valid then BadRequest
    else if !participant then NotFound
    else if MaxSharedLinks(tier) != -1 && count >= MaxSharedLinks(tier) then LimitReached(count, MaxSharedLinks(tier))
    else Created(token)
  }

  function Posted(
      links: Links, user: string, r: Request, valid: bool, participant: bool, tier: Tier, token: string,
      hash: string -> string, now: int): Links
  {
    if Answer(links, user, valid, participant, tier, token, now).Created?
      then links[token := NewLink(user, r, hash, now)] else links
  }

  // ---------- The agent and the route ----------

  class LinkGuard {
    const hash: string -> string
    var links: Links

    constructor (hash: string -> string)
      ensures links == map[] && this.hash == hash
    {
      this.hash := hash;
      links := map[];
    }

    /** `token` comes from the random generator. */
    method CreateShareLink(user: string, r: Request, token: string, now: int)
      modifies this
      ensures links == old(links)[token := NewLink(user, r, hash, now)]
    {
      var pinHash := None;
      if r.pin != "" {
        pinHash := Some(hash(r.pin));
      }
      links := links[token :=
        Link(r.conversation, user, now + r.minutes * 60000, r.maxViews, 0, pinHash, r.whitelist, r.oneTime, true, [],
             now)];
    }

    method ValidateLinkAccess(token: string, ip: string, agent: string, pin: string, now: int)
      returns (verdict: Verdict)
      modifies this
      ensures verdict == Judged(old(links), token, ip, pin, hash, now)
      ensures links == Accessed(old(links), token, ip, agent, pin, hash, now)
    {
      if token !in links {
        return Refused(Unknown);
      }
      var link := links[token];
      if !link.active {
        return Refused(Revoked);
      }
      if now > link.expiresAt {
        links := links[token := link.(active := false)];
        return Refused(Expired);
      }
      if link.currentViews >= link.maxViews {
        links := links[token := link.(active := false)];
        return Refused(Exhausted);
      }
      if link.whitelist != [] && ip !in link.whitelist {
        return Refused(Address);
      }
      if link.pinHash.Some? && link.pinHash.value != "" && (pin == "" || hash(pin) != link.pinHash.value) {
        return Refused(WrongPin);
      }
      var uniqueIPs := Addresses(link.log);
      if |uniqueIPs| > MAX_ADDRESSES && ip !in uniqueIPs {
        links := links[token := link.(active := false)];
        return Refused(Suspicious);
      }
      link := link.(currentViews := link.currentViews + 1);
      link := link.(log := link.log + [Access(ip, now, agent)]);
      if link.oneTime {
        link := link.(active := false);
      }
      links := links[token := link];
      return Granted(link.conversation);
    }

    method RevokeLink(token: string, user: string) returns (done: bool)
      modifies this
      ensures links == Withdrawn(old(links), token, user) && (done <==> MayRevoke(old(links), token, user))
    {
      if token !in links || links[token].createdBy != user {
        return false;
      }
      links := links[token := links[token].(active := false)];
      return true;
    }

    /** The periodic cleanup, in any order. */
    method Cleanup(now: int)
      modifies this
      ensures links == Swept(old(links), now)
    {
      ghost var before := links;
      var todo := links.Keys;
      while todo != {}
        invariant todo <= links.Keys <= before.Keys
        invariant forall t | t in links :: links[t] == before[t]
        invariant forall t | t in before && t !in todo :: t in links <==> !Stale(before[t], now)
        decreases todo
      {
        var token :| token in todo;
        var link := links[token];
        if now > link.expiresAt || (!link.active && now - link.createdAt > RETENTION_MS) {
          links := links - {token};
        }
        todo := todo - {token};
      }
    }
  }

  /** The checks of the creating route, in order, then the creation. */
  method PostShare(
      guard: LinkGuard, user: string, r: Request, valid: bool, participant: bool, tier: Tier, token: string, now: int)
    returns (outcome: Outcome)
    modifies guard
    ensures outcome == Answer(old(guard.links), user, valid, participant, tier, token, now)
    ensures guard.links == Posted(old(guard.links), user, r, valid, participant, tier, token, guard.hash, now)
  {
    if !valid {
      return BadRequest;
    }
    if !participant {
      return NotFound;
    }
    var existing := UserLinks(guard.links, user, now);
    if MaxSharedLinks(tier) != -1 && |existing| >= MaxSharedLinks(tier) {
      return LimitReached(|existing|, MaxSharedLinks(tier));
    }
    guard.CreateShareLink(user, r, token, now);
    return Created(token);
  }

  // ---------- Runs ----------

  datatype Op =
    | Post(user: string, r: Request, valid: bool, participant: bool, tier: Tier, token: string, now: int)
    | Open(token: string, ip: string, agent: string, pin: string, now: int)
    | Withdraw(token: string, user: string, now: int)
    | Sweep(now: int)

  function Apply(links: Links, op: Op, hash: string -> string): Links
  {
    match op
    case Post(user, r, valid, participant, tier, token, now) =>
      Posted(links, user, r, valid, participant, tier, token, hash, now)
    case Open(token, ip, agent, pin, now) => Accessed(links, token, ip, agent, pin, hash, now)
    case Withdraw(token, user, _) => Withdrawn(links, token, user)
    case Sweep(now) => Swept(links, now)
  }

  ghost predicate IsRun(run: seq<Links>, ops: seq<Op>, hash: string -> string)
  {
    && |run| == |ops| + 1 && run[0] == map[]
    && (forall i | 0 <= i < |ops| :: run[i + 1] == Apply(run[i], ops[i], hash))
    && (forall i, j | 0 <= i <= j < |ops| :: ops[i].now <= ops[j].now)
  }

  // ---------- Every link stays within its limits ----------

  function Bound(l: Link): nat
  {
    if l.maxViews <= 0 then 0 else if l.oneTime then 1 else l.maxViews
  }

  /** Views counted by the log and within the limits, a used one-time link inactive, at most six addresses. */
  ghost predicate Sound(l: Link)
  {
    && l.currentViews == |l.log| <= Bound(l)
    && (l.oneTime && l.currentViews > 0 ==> !l.active)
    && |Addresses(l.log)| <= MAX_ADDRESSES + 1
  }

  ghost predicate AllSound(links: Links) { forall t | t in links :: Sound(links[t]) }

  lemma SmallerSet(a: set<string>, b: set<string>)
    requires a <= b
    ensures |a| <= |b|
  {
    assert b == a + (b - a);
  }

  lemma AddressAdded(log: seq<Access>, a: Access)
    ensures Addresses(log + [a]) == Addresses(log) + {a.ip}
  {
    assert a in log + [a];
    assert forall x | x in log :: x in log + [a];
  }

  lemma ViewedSound(
      links: Links, token: string, ip: string, agent: string, pin: string, hash: string -> string, now: int)
    requires token in links && Sound(links[token]) && Judged(links, token, ip, pin, hash, now).Granted?
    ensures Sound(Viewed(links[token], ip, agent, now))
  {
    AddressAdded(links[token].log, Access(ip, now, agent));
    if ip in Addresses(links[token].log) {
      assert Addresses(links[token].log) + {ip} == Addresses(links[token].log);
    }
  }

  lemma StepSound(links: Links, op: Op, hash: string -> string)
    requires AllSound(links)
    ensures AllSound(Apply(links, op, hash))
  {
    if op.Open? && Judged(links, op.token, op.ip, op.pin, hash, op.now).Granted? {
      ViewedSound(links, op.token, op.ip, op.agent, op.pin, hash, op.now);
    }
  }

  /** In every reachable state every link is within its view, one-time and address limits. */
  lemma {:induction false} AlwaysSound(run: seq<Links>, ops: seq<Op>, hash: string -> string, n: nat)
    requires IsRun(run, ops, hash) && n < |run|
    ensures AllSound(run[n])
  {
    if n > 0 {
      AlwaysSound(run, ops, hash, n - 1);
      StepSound(run[n - 1], ops[n - 1], hash);
    }
  }

  // ---------- Counting accesses ----------

  predicate GrantedAt(links: Links, op: Op, token: string, hash: string -> string)
  {
    op.Open? && op.token == token && Judged(links, token, op.ip, op.pin, hash, op.now).Granted?
  }

  predicate Creates(links: Links, op: Op, token: string)
  {
    op.Post? && op.token == token && Answer(links, op.user, op.valid, op.participant, op.tier, token, op.now).Created?
  }

  /** Accesses granted to the token by operations i to n. */
  ghost function Grants(run: seq<Links>, ops: seq<Op>, token: string, hash: string -> string, i: nat, n: nat): nat
    requires i <= n <= |ops| && |run| == |ops| + 1
    decreases n
  {
    if n == i then 0
    else Grants(run, ops, token, hash, i, n - 1) + if GrantedAt(run[n - 1], ops[n - 1], token, hash) then 1 else 0
  }

  /** The token is created by operation i and by no later one up to n. */
  ghost predicate CreatedOnce(run: seq<Links>, ops: seq<Op>, token: string, i: nat, n: nat)
    requires i < n <= |ops| && |run| == |ops| + 1
  {
    Creates(run[i], ops[i], token) && forall m | i < m < n :: !Creates(run[m], ops[m], token)
  }

  /** The limits never change, and the counter is the number of accesses granted. */
  ghost predicate Counts(l: Link, first: Link, grants: nat)
  {
    l.maxViews == first.maxViews && l.oneTime == first.oneTime && l.expiresAt == first.expiresAt
      && l.currentViews == grants
  }

  lemma CountStep(links: Links, op: Op, token: string, hash: string -> string, first: Link, grants: nat)
    requires token in links ==> Counts(links[token], first, grants)
    requires !Creates(links, op, token)
    ensures var b := Apply(links, op, hash);
            token in b ==> Counts(b[token], first, if GrantedAt(links, op, token, hash) then grants + 1 else grants)
    ensures GrantedAt(links, op, token, hash) ==> token in links && token in Apply(links, op, hash)
    ensures token !in links ==> token !in Apply(links, op, hash)
  {
  }

  /**
   * However a link is used, revoked and swept, the accesses granted to it never exceed its view limit, nor one
   * for a one-time link; while it is stored they are exactly its view counter.
   */
  lemma {:induction false} GrantsBounded(
      run: seq<Links>, ops: seq<Op>, token: string, hash: string -> string, i: nat, n: nat)
    requires IsRun(run, ops, hash) && i < n <= |ops| && CreatedOnce(run, ops, token, i, n)
    ensures var first, g := NewLink(ops[i].user, ops[i].r, hash, ops[i].now), Grants(run, ops, token, hash, i, n);
            g <= Bound(first) && (token in run[n] ==> Counts(run[n][token], first, g))
    decreases n
  {
    var first := NewLink(ops[i].user, ops[i].r, hash, ops[i].now);
    assert run[n] == Apply(run[n - 1], ops[n - 1], hash);
    if n == i + 1 {
      assert Grants(run, ops, token, hash, i, i) == 0;
    } else {
      GrantsBounded(run, ops, token, hash, i, n - 1);
      CountStep(run[n - 1], ops[n - 1], token, hash, first, Grants(run, ops, token, hash, i, n - 1));
      AlwaysSound(run, ops, hash, n);
    }
  }

  /** A visitor from the whitelist with the right PIN, in time. */
  predicate Welcome(l: Link, ip: string, pin: string, hash: string -> string, now: int)
  {
    now <= l.expiresAt && (l.whitelist == [] || ip in l.whitelist) && !PinMissing(l, pin, hash)
  }

  datatype Visit = Visit(ip: string, agent: string, pin: string, now: int)

  function Visited(links: Links, token: string, hash: string -> string, visits: seq<Visit>): Links
  {
    if visits == [] then links
    else
      var v := visits[|visits| - 1];
      Accessed(Visited(links, token, hash, visits[..|visits| - 1]), token, v.ip, v.agent, v.pin, hash, v.now)
  }

  /** A link after a number of welcome visits from a few known addresses. */
  ghost predicate Used(l: Link, first: Link, known: set<string>, visits: nat)
  {
    && l == first.(currentViews := l.currentViews, log := l.log, active := l.active)
    && l.currentViews == (if visits < Bound(first) then visits else Bound(first))
    && (visits < Bound(first) ==> l.active)
    && (first.oneTime && l.currentViews > 0 ==> !l.active)
    && Addresses(l.log) <= known
  }

  lemma FullSubset(a: set<string>, b: set<string>)
    requires a <= b && |a| >= |b|
    ensures a == b
  {
    assert b == a + (b - a);
  }

  lemma VisitStep(
      links: Links, token: string, first: Link, known: set<string>, hash: string -> string, v: Visit, n: nat)
    requires token in links && Used(links[token], first, known, n)
    requires |known| <= MAX_ADDRESSES + 1 && v.ip in known && Welcome(first, v.ip, v.pin, hash, v.now)
    ensures var b := Accessed(links, token, v.ip, v.agent, v.pin, hash, v.now);
            token in b && Used(b[token], first, known, n + 1)
    ensures Judged(links, token, v.ip, v.pin, hash, v.now).Granted? <==> n < Bound(first)
  {
    var l := links[token];
    if |Addresses(l.log)| > MAX_ADDRESSES {
      FullSubset(Addresses(l.log), known);
    }
    AddressAdded(l.log, Access(v.ip, v.now, v.agent));
  }

  /** Welcome visitors from at most six addresses are let in exactly as often as the limits say. */
  lemma {:induction false} AllowsExactly(
      links: Links, token: string, user: string, r: Request, at: int, known: set<string>, hash: string -> string,
      visits: seq<Visit>, next: Visit)
    requires token in links && links[token] == NewLink(user, r, hash, at) && |known| <= MAX_ADDRESSES + 1
    requires forall v | v in visits + [next] :: v.ip in known && Welcome(links[token], v.ip, v.pin, hash, v.now)
    ensures var b := Visited(links, token, hash, visits);
            && token in b && Used(b[token], links[token], known, |visits|)
            && (Judged(b, token, next.ip, next.pin, hash, next.now).Granted? <==> |visits| < Bound(links[token]))
    decreases |visits|
  {
    assert next in visits + [next];
    if visits != [] {
      var init, v := visits[..|visits| - 1], visits[|visits| - 1];
      assert v in visits + [next] && init + [v] == visits;
      AllowsExactly(links, token, user, r, at, known, hash, init, v);
      VisitStep(Visited(links, token, hash, init), token, links[token], known, hash, v, |init|);
    }
    VisitStep(Visited(links, token, hash, visits), token, links[token], known, hash, next, |visits|);
  }

  // ---------- Who gets in, by the creating request ----------

  /** The addresses let in by operations i to n. */
  ghost function Visitors(run: seq<Links>, ops: seq<Op>, token: string, hash: string -> string, i: nat, n: nat)
    : set<string>
    requires i <= n <= |ops| && |run| == |ops| + 1
    decreases n
  {
    if n == i then {}
    else
      Visitors(run, ops, token, hash, i, n - 1) +
      if GrantedAt(run[n - 1], ops[n - 1], token, hash) then {ops[n - 1].ip} else {}
  }

  /** The link is as requested, and its counter and log are what has been let in. */
  ghost predicate Recorded(l: Link, first: Link, grants: nat, visitors: set<string>)
  {
    l == first.(currentViews := grants, log := l.log, active := l.active) && Addresses(l.log) == visitors
  }

  lemma RecordStep(
      links: Links, op: Op, token: string, hash: string -> string, first: Link, grants: nat, visitors: set<string>)
    requires token in links ==> Recorded(links[token], first, grants, visitors)
    requires !Creates(links, op, token)
    ensures var b, in' := Apply(links, op, hash), GrantedAt(links, op, token, hash);
            token in b ==>
              Recorded(b[token], first, if in' then grants + 1 else grants,
                       if in' then visitors + {op.ip} else visitors)
  {
    if GrantedAt(links, op, token, hash) {
      AddressAdded(links[token].log, Access(op.ip, op.now, op.agent));
    }
  }

  lemma {:induction false} AlwaysRecorded(
      run: seq<Links>, ops: seq<Op>, token: string, hash: string -> string, i: nat, n: nat)
    requires IsRun(run, ops, hash) && i < n <= |ops| && CreatedOnce(run, ops, token, i, n)
    ensures var first := NewLink(ops[i].user, ops[i].r, hash, ops[i].now);
            token in run[n] ==>
              Recorded(run[n][token], first, Grants(run, ops, token, hash, i, n), Visitors(run, ops, token, hash, i, n))
    decreases n
  {
    var first := NewLink(ops[i].user, ops[i].r, hash, ops[i].now);
    assert run[n] == Apply(run[n - 1], ops[n - 1], hash);
    if n == i + 1 {
      assert Grants(run, ops, token, hash, i, i) == 0 && Visitors(run, ops, token, hash, i, i) == {};
      assert Addresses(first.log) == {};
    } else {
      AlwaysRecorded(run, ops, token, hash, i, n - 1);
      RecordStep(run[n - 1], ops[n - 1], token, hash, first, Grants(run, ops, token, hash, i, n - 1),
                 Visitors(run, ops, token, hash, i, n - 1));
    }
  }

  /** In time and with views left, as requested at `at`. */
  predicate InLimits(r: Request, at: int, grants: nat, now: int)
  {
    now <= at + r.minutes * 60000 && grants < r.maxViews
  }

  /** The request lets this address in, and the PIN given is the one requested, as far as its hash tells. */
  predicate Invited(r: Request, hash: string -> string, ip: string, pin: string)
  {
    && (r.whitelist == [] || ip in r.whitelist)
    && (r.pin == "" || hash(r.pin) == "" || (pin != "" && hash(pin) == hash(r.pin)))
  }

  /** Not one address too many: at most five others, or a known one. */
  predicate Familiar(visitors: set<string>, ip: string) { |visitors| <= 5 || ip in visitors }

  /** The link made by operation i is still open after n. */
  predicate IsOpen(links: Links, token: string) { token in links && links[token].active }

  /**
   * Over every run, by the request that created the link: an access is let in if and only if the link is open, in time
   * and has views left, the address is invited, the PIN is the requested one, and the address is not one too many; it
   * is given the requested conversation.
   */
  lemma LetInExactly(run: seq<Links>, ops: seq<Op>, token: string, hash: string -> string, i: nat, n: nat)
    requires IsRun(run, ops, hash) && i < n < |ops| && CreatedOnce(run, ops, token, i, n)
    requires ops[n].Open? && ops[n].token == token
    ensures var r, o, g := ops[i].r, ops[n], Grants(run, ops, token, hash, i, n);
            var verdict := Judged(run[n], token, o.ip, o.pin, hash, o.now);
            && (verdict.Granted? <==>
                && IsOpen(run[n], token) && InLimits(r, ops[i].now, g, o.now) && Invited(r, hash, o.ip, o.pin)
                && Familiar(Visitors(run, ops, token, hash, i, n), o.ip))
            && (verdict.Granted? ==> verdict.conversation == r.conversation)
            && (verdict.Refused? ==>
                verdict.reason == if token !in run[n] then Unknown
                                  else if !IsOpen(run[n], token) then Revoked
                                  else if o.now > ops[i].now + r.minutes * 60000 then Expired
                                  else if g >= r.maxViews then Exhausted
                                  else if !(r.whitelist == [] || o.ip in r.whitelist) then Address
                                  else if !Invited(r, hash, o.ip, o.pin) then WrongPin
                                  else Suspicious)
  {
    AlwaysRecorded(run, ops, token, hash, i, n);
  }

  /** What closes an open link: its creator, an access too late or too often, a stranger after six, a single view. */
  ghost predicate Closes(
      r: Request, creator: string, at: int, grants: nat, visitors: set<string>, token: string, hash: string -> string,
      op: Op)
  {
    match op
    case Withdraw(t, user, _) => t == token && user == creator
    case Sweep(now) => now > at + r.minutes * 60000
    case Open(t, ip, _, pin, now) =>
      t == token &&
      (|| !InLimits(r, at, grants, now)
       || (Invited(r, hash, ip, pin) && (r.oneTime || !Familiar(visitors, ip))))
    case _ => false
  }

  /**
   * An open link is closed by an operation if and only if this is its revocation by the creator, an access out of its
   * limits, an invited visitor from one address too many, the visit of a one-time link, or a cleanup after its time: no
   * stranger's revocation, no refused PIN or address and no creation of another link does it.
   */
  lemma ClosedExactly(run: seq<Links>, ops: seq<Op>, token: string, hash: string -> string, i: nat, n: nat)
    requires IsRun(run, ops, hash) && i < n < |ops| && CreatedOnce(run, ops, token, i, n) && IsOpen(run[n], token)
    ensures !IsOpen(run[n + 1], token) <==>
            Closes(ops[i].r, ops[i].user, ops[i].now, Grants(run, ops, token, hash, i, n),
                   Visitors(run, ops, token, hash, i, n), token, hash, ops[n])
  {
    AlwaysRecorded(run, ops, token, hash, i, n);
    assert run[n + 1] == Apply(run[n], ops[n], hash);
  }

  /** Only the creator of a stored link is told that it is revoked, and a closed one is dropped a day after creation. */
  lemma RevokersExactly(
      run: seq<Links>, ops: seq<Op>, token: string, hash: string -> string, i: nat, n: nat, user: string, now: int)
    requires IsRun(run, ops, hash) && i < n <= |ops| && CreatedOnce(run, ops, token, i, n)
    ensures MayRevoke(run[n], token, user) <==> token in run[n] && user == ops[i].user
    ensures token in Swept(run[n], now) <==>
            && token in run[n] && now <= ops[i].now + ops[i].r.minutes * 60000
            && (run[n][token].active || now <= ops[i].now + 86400000)
  {
    AlwaysRecorded(run, ops, token, hash, i, n);
  }

  /** A well-formed request of a participant creates a link unless the user's tier has none left. */
  lemma CreatedExactly(links: Links, op: Op)
    requires op.Post?
    ensures var mine := set t | t in links && links[t].createdBy == op.user && links[t].active
                                && op.now < links[t].expiresAt;
            Creates(links, op, op.token) <==>
            && op.valid && op.participant
            && (op.tier == Fortress || |mine| < if op.tier == Free then 5 else 25)
  {
    var mine := set t | t in links && links[t].createdBy == op.user && links[t].active && op.now < links[t].expiresAt;
    assert UserLinks(links, op.user, op.now) == mine;
  }

  // ---------- Revocation is final ----------

  predicate Dead(links: Links, token: string) { token in links ==> !links[token].active }

  /** An inactive or deleted link comes back if and only if its token is created again. */
  lemma RevivedIff(links: Links, op: Op, token: string, hash: string -> string)
    requires Dead(links, token)
    ensures !Dead(Apply(links, op, hash), token) <==> Creates(links, op, token)
  {
  }

  /** A revoked, used up, suspicious or deleted link is never opened again. */
  lemma {:induction false} DeadStaysDead(
      run: seq<Links>, ops: seq<Op>, token: string, hash: string -> string, i: nat, n: nat)
    requires IsRun(run, ops, hash) && i <= n < |run| && Dead(run[i], token)
    requires forall m | i <= m < n :: !Creates(run[m], ops[m], token)
    ensures Dead(run[n], token) && Grants(run, ops, token, hash, i, n) == 0
    ensures n < |ops| ==> !GrantedAt(run[n], ops[n], token, hash)
    decreases n
  {
    if i < n {
      DeadStaysDead(run, ops, token, hash, i, n - 1);
      RevivedIff(run[n - 1], ops[n - 1], token, hash);
    }
  }

  // ---------- The tier limit ----------

  /** Every link the user creates up to operation n is created under a limited tier of at most that many links. */
  ghost predicate LimitedTo(ops: seq<Op>, user: string, cap: nat, n: nat)
    requires n <= |ops|
  {
    forall m | 0 <= m < n && ops[m].Post? && ops[m].user == user :: 0 <= MaxSharedLinks(ops[m].tier) <= cap
  }

  lemma TierStep(links: Links, op: Op, hash: string -> string, user: string, cap: nat, then': int)
    requires |UserLinks(links, user, op.now)| <= cap && then' >= op.now
    requires op.Post? && op.user == user ==> 0 <= MaxSharedLinks(op.tier) <= cap
    ensures |UserLinks(Apply(links, op, hash), user, then')| <= cap
  {
    var a, b := UserLinks(links, user, op.now), UserLinks(Apply(links, op, hash), user, then');
    if op.Post? && op.user == user && Creates(links, op, op.token) {
      SmallerSet(b, a + {op.token});
    } else {
      SmallerSet(b, a);
    }
  }

  /** Under a limited tier a user never has more unexpired active links than the tier allows, now or later. */
  lemma {:induction false} TierCap(
      run: seq<Links>, ops: seq<Op>, hash: string -> string, user: string, cap: nat, n: nat, now: int)
    requires IsRun(run, ops, hash) && n <= |ops| && LimitedTo(ops, user, cap, n)
    requires n > 0 ==> now >= ops[n - 1].now
    ensures |UserLinks(run[n], user, now)| <= cap
  {
    if n == 0 {
      assert UserLinks(run[0], user, now) == {};
    } else {
      assert n > 1 ==> ops[n - 2].now <= ops[n - 1].now;
      TierCap(run, ops, hash, user, cap, n - 1, ops[n - 1].now);
      assert run[n] == Apply(run[n - 1], ops[n - 1], hash);
      TierStep(run[n - 1], ops[n - 1], hash, user, cap, now);
    }
  }

  /**
   * At its expiry instant a link no longer counts for the limit but still opens: the two clock tests are not
   * complements.
   */
  lemma ExpiryInstant(links: Links, token: string, ip: string, pin: string, hash: string -> string, now: int)
    requires Judged(links, token, ip, pin, hash, now).Granted?
    ensures token in UserLinks(links, links[token].createdBy, now) <==> now != links[token].expiresAt
  {
  }

  // ---------- Cleanup ----------

  /** A cleanup changes revocation: afterwards the creator of a link it took is told there is none. */
  lemma SweepEndsRevocation(links: Links, clean: int, token: string, user: string)
    ensures MayRevoke(Swept(links, clean), token, user) <==>
            MayRevoke(links, token, user) && !Stale(links[token], clean)
  {
  }

  function After(ops: seq<Op>, hash: string -> string): Links
  {
    if ops == [] then map[] else Apply(After(ops[..|ops| - 1], hash), ops[|ops| - 1], hash)
  }

  datatype Decision = Answered(outcome: Outcome) | Opened(conversation: Option<string>)

  /** What creations and accesses are told; the reason of a refusal and the answer to a revocation are left out. */
  function Decided(links: Links, op: Op, hash: string -> string): seq<Decision>
  {
    match op
    case Post(user, r, valid, participant, tier, token, now) =>
      [Answered(Answer(links, user, valid, participant, tier, token, now))]
    case Open(token, ip, _, pin, now) =>
      (match Judged(links, token, ip, pin, hash, now)
       case Granted(c) => [Opened(Some(c))]
       case Refused(_) => [Opened(None)])
    case _ => []
  }

  function Decisions(ops: seq<Op>, hash: string -> string): seq<Decision>
  {
    if ops == [] then []
    else Decisions(ops[..|ops| - 1], hash) + Decided(After(ops[..|ops| - 1], hash), ops[|ops| - 1], hash)
  }

  function WithoutSweeps(ops: seq<Op>): seq<Op>
  {
    if ops == [] then []
    else WithoutSweeps(ops[..|ops| - 1]) + if ops[|ops| - 1].Sweep? then [] else [ops[|ops| - 1]]
  }

  ghost predicate InOrder(ops: seq<Op>) { forall i, j | 0 <= i <= j < |ops| :: ops[i].now <= ops[j].now }

  /** A link that will never be opened or listed again. */
  predicate Over(l: Link, now: int) { !l.active || now > l.expiresAt }

  /** `a` is `b` without some links that are over. */
  ghost predicate Pruned(a: Links, b: Links, now: int)
  {
    && (forall t | t in a :: t in b && a[t] == b[t])
    && (forall t | t in b && t !in a :: Over(b[t], now))
  }

  lemma PrunedLists(a: Links, b: Links, now: int, user: string)
    requires Pruned(a, b, now)
    ensures UserLinks(a, user, now) == UserLinks(b, user, now)
  {
  }

  lemma PrunedPost(a: Links, b: Links, op: Op, hash: string -> string)
    requires Pruned(a, b, op.now) && op.Post?
    ensures Pruned(Apply(a, op, hash), Apply(b, op, hash), op.now) && Decided(a, op, hash) == Decided(b, op, hash)
  {
    PrunedLists(a, b, op.now, op.user);
  }

  lemma PrunedOpen(a: Links, b: Links, op: Op, hash: string -> string)
    requires Pruned(a, b, op.now) && op.Open?
    ensures Pruned(Apply(a, op, hash), Apply(b, op, hash), op.now) && Decided(a, op, hash) == Decided(b, op, hash)
  {
    if op.token in a {
      assert Judged(a, op.token, op.ip, op.pin, hash, op.now) == Judged(b, op.token, op.ip, op.pin, hash, op.now);
    } else if op.token in b {
      assert Over(b[op.token], op.now);
    }
  }

  lemma PrunedWithdraw(a: Links, b: Links, op: Op, hash: string -> string)
    requires Pruned(a, b, op.now) && op.Withdraw?
    ensures Pruned(Apply(a, op, hash), Apply(b, op, hash), op.now)
  {
  }

  lemma PrunedSweep(a: Links, b: Links, now: int)
    requires Pruned(a, b, now)
    ensures Pruned(Swept(a, now), b, now)
  {
  }

  lemma PrunedLater(a: Links, b: Links, now: int, then': int)
    requires Pruned(a, b, now) && now <= then'
    ensures Pruned(a, b, then')
  {
  }

  lemma AfterNext(ops: seq<Op>, op: Op, hash: string -> string)
    ensures After(ops + [op], hash) == Apply(After(ops, hash), op, hash)
    ensures Decisions(ops + [op], hash) == Decisions(ops, hash) + Decided(After(ops, hash), op, hash)
  {
    assert (ops + [op])[..|ops|] == ops;
  }

  /** The run and the run without its cleanups have answered alike and differ in links that are over. */
  ghost predicate Alike(ops: seq<Op>, hash: string -> string, now: int)
  {
    && Decisions(ops, hash) == Decisions(WithoutSweeps(ops), hash)
    && Pruned(After(ops, hash), After(WithoutSweeps(ops), hash), now)
  }

  lemma AlikeNext(r: seq<Op>, op: Op, hash: string -> string)
    requires Alike(r, hash, op.now)
    ensures Alike(r + [op], hash, op.now)
  {
    var a, b := After(r, hash), After(WithoutSweeps(r), hash);
    AfterNext(r, op, hash);
    assert (r + [op])[..|r|] == r;
    match op
    case Sweep(now) =>
      assert WithoutSweeps(r + [op]) == WithoutSweeps(r);
      PrunedSweep(a, b, now);
    case Post(_, _, _, _, _, _, _) =>
      AfterNext(WithoutSweeps(r), op, hash);
      PrunedPost(a, b, op, hash);
    case Open(_, _, _, _, _) =>
      AfterNext(WithoutSweeps(r), op, hash);
      PrunedOpen(a, b, op, hash);
    case Withdraw(_, _, _) =>
      AfterNext(WithoutSweeps(r), op, hash);
      PrunedWithdraw(a, b, op, hash);
  }

  lemma AlikeLater(ops: seq<Op>, hash: string -> string, now: int, then': int)
    requires Alike(ops, hash, now) && now <= then'
    ensures Alike(ops, hash, then')
  {
    PrunedLater(After(ops, hash), After(WithoutSweeps(ops), hash), now, then');
  }

  lemma {:induction false} AlwaysAlike(ops: seq<Op>, hash: string -> string, now: int)
    requires InOrder(ops) && (ops != [] ==> ops[|ops| - 1].now <= now)
    ensures Alike(ops, hash, now)
  {
    if ops != [] {
      var r, op := ops[..|ops| - 1], ops[|ops| - 1];
      AlwaysAlike(r, hash, op.now);
      AlikeNext(r, op, hash);
      assert r + [op] == ops;
      AlikeLater(ops, hash, op.now, now);
    }
  }

  /** Leaving all cleanups out of a run changes no answer to a creation or an access, and no list of links. */
  lemma CleanupInvisible(ops: seq<Op>, hash: string -> string, now: int, user: string)
    requires InOrder(ops) && (ops != [] ==> ops[|ops| - 1].now <= now)
    ensures Decisions(ops, hash) == Decisions(WithoutSweeps(ops), hash)
    ensures UserLinks(After(ops, hash), user, now) == UserLinks(After(WithoutSweeps(ops), hash), user, now)
  {
    AlwaysAlike(ops, hash, now);
    PrunedLists(After(ops, hash), After(WithoutSweeps(ops), hash), now, user);
  }
}
