/**
 * Session tracking (apps/server/src/agents/sessionProtector.ts): the session table, its per-user index and the
 * eviction of the oldest session. Fingerprints are inputs; a set keeps its insertion order.
 */
module Sessions {
  import opened Words

  const MAX_CONCURRENT := 3
  const INACTIVE_MS := 900000
  const MAX_PER_SECOND := 10

  datatype Session = Session(
    user: string, fingerprint: string, ip: string, agent: string,
    createdAt: int, lastSeen: int, requests: nat, suspicious: bool)

  type Table = map<string, Session>
  type Index = map<string, seq<string>>

  datatype State = State(sessions: Table, index: Index)

  const EMPTY := State(map[], map[])

  // ---------- Ordered sets ----------

  ghost predicate Distinct(s: seq<string>) { forall i, j | 0 <= i < j < |s| :: s[i] != s[j] }

  function Added(s: seq<string>, x: string): seq<string> { if x in s then s else s + [x] }

  function Without(s: seq<string>, x: string): seq<string>
  {
    if s == [] then []
    else Without(s[..|s| - 1], x) + if s[|s| - 1] == x then [] else [s[|s| - 1]]
  }

  function Known(s: seq<string>, t: Table): seq<string>
  {
    if s == [] then []
    else Known(s[..|s| - 1], t) + if s[|s| - 1] in t then [s[|s| - 1]] else []
  }

  lemma DistinctSnoc(s: seq<string>, x: string)
    requires Distinct(s) && x !in s
    ensures Distinct(s + [x])
  {
  }

  lemma DistinctInit(s: seq<string>)
    requires s != [] && Distinct(s)
    ensures Distinct(s[..|s| - 1]) && s[|s| - 1] !in s[..|s| - 1]
  {
  }

  ghost predicate Removal(s: seq<string>, x: string, r: seq<string>)
  {
    (forall y :: y in r <==> y in s && y != x) && |r| <= |s| && (x !in s ==> r == s)
  }

  lemma RemovalNext(t: seq<string>, l: string, x: string, r: seq<string>)
    requires Removal(t, x, r)
    ensures Removal(t + [l], x, r + if l == x then [] else [l])
  {
    var r' := r + if l == x then [] else [l];
    forall y
      ensures y in r' <==> y in t + [l] && y != x
    {
      assert y in r <==> y in t && y != x;
    }
  }

  lemma {:induction false} WithoutMembers(s: seq<string>, x: string)
    ensures Removal(s, x, Without(s, x))
  {
    if s != [] {
      WithoutMembers(s[..|s| - 1], x);
      RemovalNext(s[..|s| - 1], s[|s| - 1], x, Without(s[..|s| - 1], x));
      assert s[..|s| - 1] + [s[|s| - 1]] == s;
    }
  }

  lemma {:induction false} WithoutProps(s: seq<string>, x: string)
    ensures var r := Without(s, x);
            && (forall y :: y in r <==> y in s && y != x) && |r| <= |s| && (x !in s ==> r == s)
            && (Distinct(s) ==> Distinct(r) && (x in s ==> |r| == |s| - 1))
  {
    WithoutMembers(s, x);
    if s != [] && Distinct(s) {
      var t, l := s[..|s| - 1], s[|s| - 1];
      DistinctInit(s);
      WithoutProps(t, x);
      if l != x {
        WithoutMembers(t, x);
        DistinctSnoc(Without(t, x), l);
      }
    }
  }

  lemma {:induction false} KnownAll(s: seq<string>, t: Table)
    requires forall y | y in s :: y in t
    ensures Known(s, t) == s
  {
    if s != [] {
      KnownAll(s[..|s| - 1], t);
    }
  }

  lemma KnownStart(s: seq<string>, t: Table)
    ensures Known(s[..0], t) + s[0..] == s
  {
  }

  lemma KnownEnd(s: seq<string>, t: Table)
    ensures Known(s[..|s|], t) + s[|s|..] == Known(s, t)
  {
    assert s[..|s|] == s && s[|s|..] == [];
  }

  /** Deleting the entry at the front of the unread part, or passing over it. */
  lemma KnownStep(s: seq<string>, i: nat, t: Table)
    requires i < |s|
    ensures var all, n := Known(s[..i], t) + s[i..], |Known(s[..i], t)|;
            && |all| > n && Known(s[..i + 1], t) + s[i + 1..] == (if s[i] in t then all else all[..n] + all[n + 1..])
            && |Known(s[..i + 1], t)| == if s[i] in t then n + 1 else n
  {
    assert s[..i + 1][..i] == s[..i] && s[i..] == [s[i]] + s[i + 1..];
  }

  // ---------- Operations on values ----------

  function Members(x: Index, user: string): seq<string> { if user in x then x[user] else [] }

  /** The first session of the set with the earliest creation time. */
  function Oldest(s: seq<string>, t: Table): (r: Option<string>)
    ensures r.Some? ==> r.value in s && r.value in t
  {
    if s == [] then None
    else
      var r, j := Oldest(s[..|s| - 1], t), s[|s| - 1];
      if j in t && (r == None || t[j].createdAt < t[r.value].createdAt) then Some(j) else r
  }

  /** The user's set, created if missing, without tokens that have no session. */
  function Dropped(st: State, user: string): State
  {
    st.(index := st.index[user := Known(Members(st.index, user), st.sessions)])
  }

  /** The session to evict: none below the limit, and none when the oldest has the empty name. */
  function Victim(st: State, user: string): Option<string>
  {
    var s := Members(st.index, user);
    var r := Oldest(s, st.sessions);
    if |s| >= MAX_CONCURRENT && r != Some("") then r else None
  }

  function Evicted(st: State, user: string): State
  {
    match Victim(st, user)
    case None => st
    case Some(o) => State(st.sessions - {o}, st.index[user := Without(Members(st.index, user), o)])
  }

  function Entered(
      st: State, jti: string, user: string, fingerprint: string, ip: string, agent: string, now: int): State
  {
    State(st.sessions[jti := Session(user, fingerprint, ip, agent, now, now, 0, false)],
          st.index[user := Added(Members(st.index, user), jti)])
  }

  function Registered(
      st: State, jti: string, user: string, fingerprint: string, ip: string, agent: string, now: int): State
  {
    Entered(Evicted(Dropped(st, user), user), jti, user, fingerprint, ip, agent, now)
  }

  predicate TooFast(s: Session, now: int)
  {
    now > s.createdAt && s.requests * 1000 > MAX_PER_SECOND * (now - s.createdAt)
  }

  function Seen(s: Session, now: int): Session { s.(lastSeen := now, requests := s.requests + 1) }

  predicate Accepts(st: State, jti: string, fingerprint: string, now: int)
  {
    jti in st.sessions ==> fingerprint == st.sessions[jti].fingerprint && !TooFast(Seen(st.sessions[jti], now), now)
  }

  function Validated(st: State, jti: string, fingerprint: string, now: int): State
  {
    if jti !in st.sessions then st
    else
      var s := Seen(st.sessions[jti], now);
      st.(sessions := st.sessions[jti := s.(suspicious := s.suspicious || !Accepts(st, jti, fingerprint, now))])
  }

  function Removed(st: State, jti: string): State
  {
    if jti !in st.sessions then st
    else
      var u := st.sessions[jti].user;
      State(st.sessions - {jti}, if u in st.index then st.index[u := Without(st.index[u], jti)] else st.index)
  }

  predicate Inactive(s: Session, now: int) { s.lastSeen < now - INACTIVE_MS }

  /** Removing the sessions of a set, one by one, in any order, gives this. */
  ghost predicate IsCleaned(a: State, now: int, b: State)
  {
    && b.sessions == (map j | j in a.sessions && !Inactive(a.sessions[j], now) :: a.sessions[j])
    && b.index.Keys == a.index.Keys
    && (forall u | u in a.index :: (Distinct(a.index[u]) ==> Distinct(b.index[u])) && |b.index[u]| <= |a.index[u]| &&
          forall j :: j in b.index[u] <==>
            j in a.index[u] && !(j in a.sessions && a.sessions[j].user == u && Inactive(a.sessions[j], now)))
  }

  // ---------- The agent ----------

  class SessionProtector {
    var sessions: Table
    var userSessions: Index

    ghost function Value(): State
      reads this
    {
      State(sessions, userSessions)
    }

    constructor ()
      ensures Value() == EMPTY
    {
      sessions, userSessions := map[], map[];
    }

    method RegisterSession(jti: string, user: string, fingerprint: string, ip: string, agent: string, now: int)
      returns (allowed: bool)
      modifies this
      ensures allowed && Value() == Registered(old(Value()), jti, user, fingerprint, ip, agent, now)
    {
      DropUnknown(user);
      EvictOldest(user);
      sessions := sessions[jti := Session(user, fingerprint, ip, agent, now, now, 0, false)];
      userSessions := userSessions[user := Added(userSessions[user], jti)];
      return true;
    }

    /** At the limit, the oldest session goes, unless its name is empty. */
    method EvictOldest(user: string)
      requires user in userSessions
      modifies this
      ensures Value() == Evicted(old(Value()), user) && user in userSessions
    {
      if |userSessions[user]| >= MAX_CONCURRENT {
        var oldest := FindOldest(userSessions[user]);
        if oldest.Some? && oldest.value != "" {
          sessions := sessions - {oldest.value};
          userSessions := userSessions[user := Without(userSessions[user], oldest.value)];
        }
      }
    }

    /** The loop that forgets index entries without a session. */
    method DropUnknown(user: string)
      modifies this`userSessions
      ensures Value() == Dropped(old(Value()), user) && user in userSessions
    {
      if user !in userSessions {
        userSessions := userSessions[user := []];
      }
      var s := userSessions[user];
      ghost var before := userSessions;
      var i, kept := 0, 0;
      KnownStart(s, sessions);
      while i < |s|
        invariant i <= |s| && user in userSessions && userSessions == before[user := userSessions[user]]
        invariant kept == |Known(s[..i], sessions)| && userSessions[user] == Known(s[..i], sessions) + s[i..]
      {
        KnownStep(s, i, sessions);
        if s[i] !in sessions {
          userSessions := userSessions[user := userSessions[user][..kept] + userSessions[user][kept + 1..]];
        } else {
          kept := kept + 1;
        }
        i := i + 1;
      }
      KnownEnd(s, sessions);
    }

    method FindOldest(s: seq<string>) returns (oldest: Option<string>)
      ensures oldest == Oldest(s, sessions)
    {
      oldest := None;
      var oldestTime: Option<int> := None;
      var i := 0;
      while i < |s|
        invariant i <= |s| && oldest == Oldest(s[..i], sessions)
        invariant oldestTime == if oldest.Some? then Some(sessions[oldest.value].createdAt) else None
      {
        assert s[..i + 1][..i] == s[..i];
        if s[i] in sessions && (oldestTime == None || sessions[s[i]].createdAt < oldestTime.value) {
          oldestTime := Some(sessions[s[i]].createdAt);
          oldest := Some(s[i]);
        }
        i := i + 1;
      }
      assert s[..|s|] == s;
    }

    method ValidateSession(jti: string, fingerprint: string, now: int) returns (valid: bool)
      modifies this`sessions
      ensures Value() == Validated(old(Value()), jti, fingerprint, now)
      ensures valid <==> Accepts(old(Value()), jti, fingerprint, now)
    {
      if jti !in sessions {
        return true;
      }
      sessions := sessions[jti := sessions[jti].(lastSeen := now)];
      sessions := sessions[jti := sessions[jti].(requests := sessions[jti].requests + 1)];
      if fingerprint != sessions[jti].fingerprint {
        sessions := sessions[jti := sessions[jti].(suspicious := true)];
        return false;
      }
      var age := now - sessions[jti].createdAt;
      if age > 0 {
        if sessions[jti].requests * 1000 > MAX_PER_SECOND * age {
          sessions := sessions[jti := sessions[jti].(suspicious := true)];
          return false;
        }
      }
      return true;
    }

    method RemoveSession(jti: string)
      modifies this
      ensures Value() == Removed(old(Value()), jti)
    {
      if jti in sessions {
        var user := sessions[jti].user;
        if user in userSessions {
          userSessions := userSessions[user := Without(userSessions[user], jti)];
        }
        sessions := sessions - {jti};
      }
    }

    /** The periodic cleanup. */
    method Cleanup(now: int)
      modifies this
      ensures IsCleaned(old(Value()), now, Value())
    {
      var todo := sessions.Keys;
      ghost var a := Value();
      while todo != {}
        invariant todo <= sessions.Keys <= a.sessions.Keys
        invariant forall j | j in sessions :: sessions[j] == a.sessions[j]
        invariant forall j | j in a.sessions && j !in todo :: j in sessions <==> !Inactive(a.sessions[j], now)
        invariant userSessions.Keys == a.index.Keys
        invariant forall u | u in a.index :: CleanedSet(a, now, todo, u, userSessions[u])
        decreases todo
      {
        var jti :| jti in todo;
        ghost var index := userSessions;
        if sessions[jti].lastSeen < now - INACTIVE_MS {
          Forget(jti);
        }
        forall u | u in a.index
          ensures CleanedSet(a, now, todo - {jti}, u, userSessions[u])
        {
          NextCleaned(a, now, todo, u, index[u], jti);
        }
        todo := todo - {jti};
      }
    }

    /** Drop an inactive session and its index entry. */
    method Forget(jti: string)
      requires jti in sessions
      modifies this
      ensures sessions == old(sessions) - {jti} && userSessions.Keys == old(userSessions).Keys
      ensures forall u | u in userSessions ::
                userSessions[u] == if u == old(sessions)[jti].user then Without(old(userSessions)[u], jti)
                  else old(userSessions)[u]
    {
      var user := sessions[jti].user;
      if user in userSessions {
        userSessions := userSessions[user := Without(userSessions[user], jti)];
      }
      sessions := sessions - {jti};
    }
  }

  lemma NextCleaned(a: State, now: int, todo: set<string>, u: string, s: seq<string>, jti: string)
    requires u in a.index && jti in todo && jti in a.sessions && CleanedSet(a, now, todo, u, s)
    ensures CleanedSet(a, now, todo - {jti}, u,
                       if Inactive(a.sessions[jti], now) && a.sessions[jti].user == u then Without(s, jti) else s)
  {
    WithoutProps(s, jti);
  }

  /** One user's set once the sessions outside `todo` have been looked at. */
  ghost predicate CleanedSet(a: State, now: int, todo: set<string>, u: string, s: seq<string>)
    requires u in a.index
  {
    && (Distinct(a.index[u]) ==> Distinct(s)) && |s| <= |a.index[u]|
    && forall j :: j in s <==>
         j in a.index[u] && !(j in a.sessions && j !in todo && a.sessions[j].user == u && Inactive(a.sessions[j], now))
  }

  // ---------- Exactness of the index ----------

  /** The index of each user lists, without repetition, exactly that user's sessions. */
  ghost predicate Exact(st: State)
  {
    && (forall u | u in st.index :: Owned(st, u))
    && (forall j | j in st.sessions :: Listed(st, j))
  }

  ghost predicate Owned(st: State, u: string)
    requires u in st.index
  {
    Distinct(st.index[u]) && forall j | j in st.index[u] :: j in st.sessions && st.sessions[j].user == u
  }

  ghost predicate Listed(st: State, j: string)
    requires j in st.sessions
  {
    st.sessions[j].user in st.index && j in st.index[st.sessions[j].user]
  }

  ghost predicate Capped(st: State) { forall u | u in st.index :: |st.index[u]| <= 3 }

  ghost predicate Named(st: State) { "" !in st.sessions }

  lemma {:induction false} OldestIsMinimal(s: seq<string>, t: Table)
    requires forall j | j in s :: j in t
    ensures s != [] ==> Oldest(s, t).Some? && forall j | j in s :: t[Oldest(s, t).value].createdAt <= t[j].createdAt
  {
    if s != [] {
      OldestIsMinimal(s[..|s| - 1], t);
    }
  }

  /** A registration keeps the index exact if and only if the token is new or already the same user's. */
  lemma RegisterExactIff(st: State, jti: string, user: string, fingerprint: string, ip: string, agent: string, now: int)
    requires Exact(st)
    ensures Exact(Registered(st, jti, user, fingerprint, ip, agent, now)) <==>
            jti !in st.sessions || st.sessions[jti].user == user
  {
    var r := Registered(st, jti, user, fingerprint, ip, agent, now);
    RegisteredSet(st, jti, user, fingerprint, ip, agent, now);
    SparedSet(st, user);
    if jti in st.sessions && st.sessions[jti].user != user {
      var v := st.sessions[jti].user;
      assert Listed(st, jti);
      assert !Owned(r, v);
    } else {
      forall u | u in r.index
        ensures Owned(r, u)
      {
        RegisterKeepsOwned(st, jti, user, fingerprint, ip, agent, now, u);
      }
      forall j | j in r.sessions
        ensures Listed(r, j)
      {
        assert j != jti ==> j in st.sessions && Listed(st, j);
      }
    }
  }

  lemma RegisterKeepsOwned(
      st: State, jti: string, user: string, fingerprint: string, ip: string, agent: string, now: int, u: string)
    requires Exact(st) && (jti !in st.sessions || st.sessions[jti].user == user)
    requires u in Registered(st, jti, user, fingerprint, ip, agent, now).index
    ensures Owned(Registered(st, jti, user, fingerprint, ip, agent, now), u)
  {
    RegisteredSet(st, jti, user, fingerprint, ip, agent, now);
    SparedSet(st, user);
    if u != user {
      assert Owned(st, u);
      assert Victim(st, user).Some? ==> Owned(st, user);
    } else if user in st.index {
      assert Owned(st, user);
    }
  }

  lemma DroppedExact(st: State, user: string)
    requires Exact(st)
    ensures Dropped(st, user) == st.(index := st.index[user := Members(st.index, user)])
    ensures Victim(Dropped(st, user), user) == Victim(st, user)
  {
    if user in st.index {
      assert Owned(st, user);
    }
    KnownAll(Members(st.index, user), st.sessions);
  }

  /** The registered user's set before the new token is added. */
  function Spared(st: State, user: string): seq<string>
  {
    var s, e := Members(st.index, user), Victim(st, user);
    if e.Some? then Without(s, e.value) else s
  }

  lemma SparedSet(st: State, user: string)
    requires Exact(st)
    ensures var s, r, e := Members(st.index, user), Spared(st, user), Victim(st, user);
            && Distinct(r) && (forall j :: j in r <==> j in s && e != Some(j)) && (e.Some? ==> e.value in s)
            && |r| == if e.Some? then |s| - 1 else |s|
  {
    var s, e := Members(st.index, user), Victim(st, user);
    if user in st.index {
      assert Owned(st, user);
    }
    if e.Some? {
      WithoutProps(s, e.value);
    }
  }

  lemma EvictedSet(st: State, user: string)
    requires Exact(st)
    ensures Evicted(Dropped(st, user), user)
            == State(if Victim(st, user).Some? then st.sessions - {Victim(st, user).value} else st.sessions,
                     st.index[user := Spared(st, user)])
  {
    DroppedExact(st, user);
    var d := st.(index := st.index[user := Members(st.index, user)]);
    assert Members(d.index, user) == Members(st.index, user);
    if Victim(st, user).Some? {
      assert d.index[user := Spared(st, user)] == st.index[user := Spared(st, user)];
    }
  }

  lemma AddedDistinct(s: seq<string>, x: string)
    requires Distinct(s)
    ensures Distinct(Added(s, x))
  {
    if x !in s {
      DistinctSnoc(s, x);
    }
  }

  lemma EnteredSet(st: State, t: seq<string>, jti: string, user: string, s: Session)
    requires s == Session(user, s.fingerprint, s.ip, s.agent, s.createdAt, s.createdAt, 0, false)
    ensures Entered(State(st.sessions, st.index[user := t]), jti, user, s.fingerprint, s.ip, s.agent, s.createdAt)
            == State(st.sessions[jti := s], st.index[user := Added(t, jti)])
  {
    var index := st.index[user := t];
    assert Members(index, user) == t;
    assert index[user := Added(t, jti)] == st.index[user := Added(t, jti)];
  }

  /** The registered user's set: its other sessions, less the evicted one, and the new token. */
  lemma RegisteredSet(st: State, jti: string, user: string, fingerprint: string, ip: string, agent: string, now: int)
    requires Exact(st)
    ensures var r, e, t := Registered(st, jti, user, fingerprint, ip, agent, now), Victim(st, user), Spared(st, user);
            && r.index == st.index[user := Added(t, jti)]
            && r.sessions
               == (if e.Some? then st.sessions - {e.value}
                   else st.sessions)[jti := Session(user, fingerprint, ip, agent, now, now, 0, false)]
            && Distinct(Added(t, jti))
  {
    var e, t, s := Victim(st, user), Spared(st, user), Session(user, fingerprint, ip, agent, now, now, 0, false);
    EvictedSet(st, user);
    SparedSet(st, user);
    EnteredSet(st.(sessions := if e.Some? then st.sessions - {e.value} else st.sessions), t, jti, user, s);
    AddedDistinct(t, jti);
  }

  /** It keeps the cap unless the user is at the limit, the oldest session has the empty name and the token is new. */
  lemma RegisterCappedIff(
      st: State, jti: string, user: string, fingerprint: string, ip: string, agent: string, now: int)
    requires Exact(st) && Capped(st)
    ensures var s := Members(st.index, user);
            Capped(Registered(st, jti, user, fingerprint, ip, agent, now)) <==>
            !(|s| == MAX_CONCURRENT && jti !in s && Oldest(s, st.sessions) == Some(""))
  {
    RegisteredSet(st, jti, user, fingerprint, ip, agent, now);
    SparedSet(st, user);
    var s := Members(st.index, user);
    if s != [] {
      OldestOfMany(st, user);
    }
    var r := Registered(st, jti, user, fingerprint, ip, agent, now);
    assert r.index[user] == Added(Spared(st, user), jti);
    if |r.index[user]| <= MAX_CONCURRENT {
      forall u | u in r.index
        ensures |r.index[u]| <= MAX_CONCURRENT
      {
        assert u != user ==> r.index[u] == st.index[u];
      }
    }
  }

  lemma OldestOfMany(st: State, user: string)
    requires Exact(st) && Members(st.index, user) != []
    ensures var o := Oldest(Members(st.index, user), st.sessions);
            && o.Some? && o.value in Members(st.index, user)
            && forall j | j in st.sessions && st.sessions[j].user == user ::
               st.sessions[o.value].createdAt <= st.sessions[j].createdAt
  {
    var s := Members(st.index, user);
    OldestIsMinimal(s, st.sessions);
    forall j | j in st.sessions && st.sessions[j].user == user
      ensures j in s
    {
      assert j in st.index[user];
    }
  }

  /** At the limit, exactly one session goes, and none of that user's was created earlier. */
  lemma EvictsOldest(st: State, user: string)
    requires Exact(st) && |Members(st.index, user)| >= MAX_CONCURRENT && Named(st)
    ensures var e := Victim(st, user);
            && e.Some? && e.value in st.sessions && st.sessions[e.value].user == user
            && Evicted(st, user).sessions == st.sessions - {e.value}
            && forall j | j in st.sessions && st.sessions[j].user == user ::
               st.sessions[e.value].createdAt <= st.sessions[j].createdAt
  {
    OldestOfMany(st, user);
  }

  datatype Op =
    | Register(jti: string, user: string, fingerprint: string, ip: string, agent: string, now: int)
    | Validate(jti: string, fingerprint: string, now: int)
    | Remove(jti: string)
    | Clean(now: int)

  ghost predicate Step(a: State, op: Op, b: State)
  {
    match op
    case Register(jti, user, fp, ip, agent, now) => b == Registered(a, jti, user, fp, ip, agent, now)
    case Validate(jti, fp, now) => b == Validated(a, jti, fp, now)
    case Remove(jti) => b == Removed(a, jti)
    case Clean(now) => IsCleaned(a, now, b)
  }

  /** Token identifiers are non-empty and never reused for another user. */
  ghost predicate ProperUse(a: State, op: Op)
  {
    op.Register? ==> op.jti != "" && (op.jti in a.sessions ==> a.sessions[op.jti].user == op.user)
  }

  lemma StepExact(a: State, op: Op, b: State)
    requires Exact(a) && Capped(a) && Named(a) && Step(a, op, b) && ProperUse(a, op)
    ensures Exact(b) && Capped(b) && Named(b)
  {
    match op
    case Register(jti, user, fp, ip, agent, now) =>
      RegisterExactIff(a, jti, user, fp, ip, agent, now);
      RegisterCappedIff(a, jti, user, fp, ip, agent, now);
    case Validate(jti, fp, now) =>
      ValidateKeepsExact(a, jti, fp, now);
    case Remove(jti) =>
      RemoveKeepsExact(a, jti);
    case Clean(now) =>
      CleanKeepsExact(a, now, b);
  }

  lemma ValidateKeepsExact(a: State, jti: string, fingerprint: string, now: int)
    requires Exact(a)
    ensures Exact(Validated(a, jti, fingerprint, now))
  {
    var b := Validated(a, jti, fingerprint, now);
    forall u | u in b.index
      ensures Owned(b, u)
    {
      assert Owned(a, u);
    }
    forall j | j in b.sessions
      ensures Listed(b, j)
    {
      assert Listed(a, j);
    }
  }

  lemma RemoveKeepsExact(a: State, jti: string)
    requires Exact(a) && Capped(a)
    ensures Exact(Removed(a, jti)) && Capped(Removed(a, jti))
  {
    if jti in a.sessions {
      var b := Removed(a, jti);
      assert Listed(a, jti);
      WithoutProps(a.index[a.sessions[jti].user], jti);
      forall u | u in b.index
        ensures Owned(b, u) && |b.index[u]| <= MAX_CONCURRENT
      {
        assert Owned(a, u);
      }
      forall j | j in b.sessions
        ensures Listed(b, j)
      {
        assert Listed(a, j);
      }
    }
  }

  lemma CleanKeepsExact(a: State, now: int, b: State)
    requires Exact(a) && Capped(a) && IsCleaned(a, now, b)
    ensures Exact(b) && Capped(b)
  {
    forall u | u in b.index
      ensures Owned(b, u) && |b.index[u]| <= MAX_CONCURRENT
    {
      assert Owned(a, u);
    }
    forall j | j in b.sessions
      ensures Listed(b, j)
    {
      assert Listed(a, j);
    }
  }

  ghost predicate IsRun(run: seq<State>, ops: seq<Op>)
  {
    && |run| == |ops| + 1 && run[0] == EMPTY
    && forall i | 0 <= i < |ops| :: Step(run[i], ops[i], run[i + 1]) && ProperUse(run[i], ops[i])
  }

  /**
   * In every reachable state the index of each user is exactly the set of that user's sessions and no user has
   * more than three.
   */
  lemma {:induction false} AlwaysExact(run: seq<State>, ops: seq<Op>, n: nat)
    requires IsRun(run, ops) && n < |run|
    ensures Exact(run[n]) && Capped(run[n]) && Named(run[n])
  {
    if n > 0 {
      AlwaysExact(run, ops, n - 1);
      StepExact(run[n - 1], ops[n - 1], run[n]);
    }
  }

  // ---------- What ends a session ----------

  /** The session at `p` is the earliest created, and the first in the set of those. */
  ghost predicate EarliestAt(s: seq<string>, t: Table, p: nat)
    requires p < |s| && forall j | j in s :: j in t
  {
    && (forall k | 0 <= k < |s| :: t[s[p]].createdAt <= t[s[k]].createdAt)
    && (forall k | 0 <= k < p :: t[s[p]].createdAt < t[s[k]].createdAt)
  }

  ghost predicate IsEarliest(s: seq<string>, t: Table, j: string)
    requires forall x | x in s :: x in t
  {
    exists p :: 0 <= p < |s| && s[p] == j && EarliestAt(s, t, p)
  }

  lemma {:induction false} OldestIsEarliest(s: seq<string>, t: Table) returns (p: nat)
    requires s != [] && forall j | j in s :: j in t
    ensures p < |s| && Oldest(s, t) == Some(s[p]) && EarliestAt(s, t, p)
  {
    var r, n := s[..|s| - 1], |s| - 1;
    if r == [] {
      assert Oldest(r, t) == None;
      p := 0;
    } else {
      p := OldestIsEarliest(r, t);
      if t[s[n]].createdAt < t[r[p]].createdAt {
        p := n;
      }
    }
  }

  lemma OldestIff(s: seq<string>, t: Table, j: string)
    requires forall x | x in s :: x in t
    ensures Oldest(s, t) == Some(j) <==> IsEarliest(s, t, j)
  {
    if s != [] {
      var p := OldestIsEarliest(s, t);
      if IsEarliest(s, t, j) {
        var q :| 0 <= q < |s| && s[q] == j && EarliestAt(s, t, q);
        assert p == q;
      }
    }
  }

  /** Why a session ends with an operation: removed, unseen for a quarter of an hour at a cleanup, or evicted. */
  ghost predicate Ends(a: State, op: Op, jti: string)
    requires Exact(a) && jti in a.sessions
  {
    var s := a.sessions[jti];
    match op
    case Remove(j) => j == jti
    case Clean(now) => s.lastSeen < now - 900000
    case Register(j, user, _, _, _, _) =>
      user == s.user && j != jti && user in a.index && Owned(a, user) && |a.index[user]| == 3
      && IsEarliest(a.index[user], a.sessions, jti)
    case Validate(_, _, _) => false
  }

  /**
   * A session is over after an operation if and only if it was removed, a cleanup found it unseen for over 900
   * seconds, or its user, having three, registered under another token and it was the earliest of the three.
   */
  lemma EndsExactly(a: State, op: Op, b: State, jti: string)
    requires Exact(a) && Capped(a) && Named(a) && Step(a, op, b) && ProperUse(a, op) && jti in a.sessions
    ensures jti !in b.sessions <==> Ends(a, op, jti)
  {
    if op.Register? {
      RegisteredSet(a, op.jti, op.user, op.fingerprint, op.ip, op.agent, op.now);
      assert Listed(a, jti);
      if op.user in a.index {
        assert Owned(a, op.user);
        OldestIff(a.index[op.user], a.sessions, jti);
        EvictedOwned(a, op.user, jti);
      }
    }
  }

  lemma EvictedOwned(a: State, user: string, jti: string)
    requires Exact(a) && Capped(a) && Named(a) && user in a.index && jti in a.sessions
    ensures Victim(a, user) == Some(jti) <==> |a.index[user]| == 3 && Oldest(a.index[user], a.sessions) == Some(jti)
    ensures Victim(a, user) == Some(jti) ==> a.sessions[jti].user == user
  {
    assert Owned(a, user);
    assert jti != "";
  }

  // ---------- When a session is valid ----------

  /** The session of token `jti` was registered by operation i and by no later one up to n. */
  ghost predicate RegisteredOnce(ops: seq<Op>, jti: string, i: nat, n: nat)
    requires i < n <= |ops|
  {
    && ops[i].Register? && ops[i].jti == jti
    && forall m | i < m < n :: !(ops[m].Register? && ops[m].jti == jti)
  }

  predicate Checks(op: Op, jti: string) { op.Validate? && op.jti == jti }

  /** How often the token has been checked since. */
  function ChecksOf(ops: seq<Op>, jti: string, i: nat, n: nat): nat
    requires i < n <= |ops|
    decreases n
  {
    if n == i + 1 then 0 else ChecksOf(ops, jti, i, n - 1) + if Checks(ops[n - 1], jti) then 1 else 0
  }

  /** When it was last checked, or registered. */
  function SeenAt(ops: seq<Op>, jti: string, i: nat, n: nat): int
    requires i < n <= |ops| && ops[i].Register?
    decreases n
  {
    if n == i + 1 then ops[i].now
    else if Checks(ops[n - 1], jti) then ops[n - 1].now
    else SeenAt(ops, jti, i, n - 1)
  }

  /** A check with the registered fingerprint, at no more than ten a second since registration, itself included. */
  predicate Passable(ops: seq<Op>, jti: string, i: nat, n: nat)
    requires i < n < |ops| && ops[i].Register? && ops[n].Validate?
  {
    && ops[n].fingerprint == ops[i].fingerprint
    && (ops[n].now <= ops[i].now || (ChecksOf(ops, jti, i, n) + 1) * 1000 <= 10 * (ops[n].now - ops[i].now))
  }

  /** Some check since was refused. */
  predicate Flagged(ops: seq<Op>, jti: string, i: nat, n: nat)
    requires i < n <= |ops| && ops[i].Register?
    decreases n
  {
    n > i + 1 && (Flagged(ops, jti, i, n - 1) || (Checks(ops[n - 1], jti) && !Passable(ops, jti, i, n - 1)))
  }

  /** A session is what its registration and the checks since have made of it. */
  ghost predicate Tracked(s: Session, ops: seq<Op>, jti: string, i: nat, n: nat)
    requires i < n <= |ops| && ops[i].Register?
  {
    s == Session(ops[i].user, ops[i].fingerprint, ops[i].ip, ops[i].agent, ops[i].now, SeenAt(ops, jti, i, n),
                 ChecksOf(ops, jti, i, n), Flagged(ops, jti, i, n))
  }

  /** Only its own registrations and checks change a session. */
  lemma OthersKeep(a: State, op: Op, b: State, jti: string)
    requires Step(a, op, b) && jti in b.sessions && !(op.Register? && op.jti == jti) && !Checks(op, jti)
    ensures jti in a.sessions && b.sessions[jti] == a.sessions[jti]
  {
  }

  lemma {:induction false} AlwaysTracked(run: seq<State>, ops: seq<Op>, jti: string, i: nat, n: nat)
    requires IsRun(run, ops) && i < n <= |ops| && RegisteredOnce(ops, jti, i, n) && jti in run[n].sessions
    ensures Tracked(run[n].sessions[jti], ops, jti, i, n)
    decreases n
  {
    assert Step(run[n - 1], ops[n - 1], run[n]);
    if n > i + 1 {
      if !Checks(ops[n - 1], jti) {
        OthersKeep(run[n - 1], ops[n - 1], run[n], jti);
      }
      AlwaysTracked(run, ops, jti, i, n - 1);
    }
  }

  /**
   * Over every run a check is passed if and only if the token has no session, or it comes with the fingerprint it was
   * registered with and at no more than ten checks a second since; a session is suspicious exactly after a refusal.
   */
  lemma ValidExactly(run: seq<State>, ops: seq<Op>, jti: string, i: nat, n: nat)
    requires IsRun(run, ops) && i < n < |ops| && RegisteredOnce(ops, jti, i, n) && Checks(ops[n], jti)
    ensures Accepts(run[n], jti, ops[n].fingerprint, ops[n].now) <==>
            jti !in run[n].sessions || Passable(ops, jti, i, n)
    ensures jti in run[n].sessions ==>
              && jti in run[n + 1].sessions
              && (run[n + 1].sessions[jti].suspicious <==> Flagged(ops, jti, i, n) || !Passable(ops, jti, i, n))
  {
    assert Step(run[n], ops[n], run[n + 1]);
    if jti in run[n].sessions {
      AlwaysTracked(run, ops, jti, i, n);
    }
  }

  /** With an empty token first, a user can hold four sessions: the empty name reads as "nothing to evict". */
  lemma EmptyTokenBreaksCap(t: Table)
    requires t.Keys == {"", "b", "c"} && (forall j | j in t :: t[j].user == "u")
    requires t[""].createdAt < t["b"].createdAt < t["c"].createdAt
    ensures var st := State(t, map["u" := ["", "b", "c"]]);
            Exact(st) && Capped(st) && !Capped(Registered(st, "d", "u", "f", "i", "a", 4))
  {
    var s := ["", "b", "c"];
    var st := State(t, map["u" := s]);
    assert s[0] == "" && s[1] == "b" && s[2] == "c" && |s[1]| == 1 && s[1][0] != s[2][0];
    assert Exact(st);
    OldestIsMinimal(s, t);
    assert Oldest(s, t).value in s;
    assert "d"[0] != "b"[0] && "d"[0] != "c"[0] && |"d"| == 1;
    RegisterCappedIff(st, "d", "u", "f", "i", "a", 4);
  }

  lemma NothingEvicted(st: State, jti: string, user: string, fingerprint: string, ip: string, agent: string, now: int)
    requires Exact(st) && Victim(st, user) == None && jti !in st.sessions && jti !in Members(st.index, user)
    ensures var r := Registered(st, jti, user, fingerprint, ip, agent, now);
            && Exact(r) && r.index == st.index[user := Members(st.index, user) + [jti]]
            && r.sessions == st.sessions[jti := Session(user, fingerprint, ip, agent, now, now, 0, false)]
  {
    RegisteredSet(st, jti, user, fingerprint, ip, agent, now);
    RegisterExactIff(st, jti, user, fingerprint, ip, agent, now);
  }

  lemma {:induction false} FirstIsOldest(s: seq<string>, t: Table)
    requires s != [] && s[0] in t && forall j | j in s && j in t :: t[s[0]].createdAt <= t[j].createdAt
    ensures Oldest(s, t) == Some(s[0])
  {
    var r := s[..|s| - 1];
    if r == [] {
      assert Oldest(r, t) == None;
    } else {
      assert r[0] == s[0] && forall j | j in r :: j in s;
      FirstIsOldest(r, t);
    }
  }

  /** The user holds exactly these sessions, the first of them the oldest. */
  ghost predicate Holding(st: State, user: string, tokens: seq<string>, at: int)
  {
    && Exact(st) && tokens != [] && Members(st.index, user) == tokens
    && (forall j :: j in st.sessions <==> j in tokens)
    && (forall j | j in st.sessions ::
        tokens[0] in st.sessions && st.sessions[tokens[0]].createdAt <= st.sessions[j].createdAt <= at)
  }

  lemma HoldOneMore(a: State, user: string, tokens: seq<string>, op: Op, b: State)
    requires op.Register? && op.user == user && op.jti !in tokens && Step(a, op, b)
    requires tokens != [] && tokens[0] == "" && Holding(a, user, tokens, op.now)
    ensures Holding(b, user, tokens + [op.jti], op.now)
  {
    FirstIsOldest(tokens, a.sessions);
    NothingEvicted(a, op.jti, user, op.fingerprint, op.ip, op.agent, op.now);
  }

  lemma HoldFirst(op: Op, b: State)
    requires op.Register? && Step(EMPTY, op, b)
    ensures Holding(b, op.user, [op.jti], op.now)
  {
    NothingEvicted(EMPTY, op.jti, op.user, op.fingerprint, op.ip, op.agent, op.now);
  }

  /** The tokens registered, in order. */
  function Tokens(ops: seq<Op>): seq<string>
  {
    if ops == [] then []
    else Tokens(ops[..|ops| - 1]) + if ops[|ops| - 1].Register? then [ops[|ops| - 1].jti] else []
  }

  /** Registrations of one user with new tokens, in time order, lead from the start to this state. */
  ghost predicate Reached(ops: seq<Op>, user: string, st: State)
  {
    if ops == [] then st == EMPTY
    else
      var r, op := ops[..|ops| - 1], ops[|ops| - 1];
      && op.Register? && op.user == user && op.jti !in Tokens(r)
      && (r != [] && r[|r| - 1].Register? ==> r[|r| - 1].now <= op.now)
      && exists a: State :: Reached(r, user, a) && Step(a, op, st)
  }

  /** Any further registration with a new token can follow. */
  lemma ReachedNext(r: seq<Op>, op: Op, user: string, a: State) returns (b: State)
    requires Reached(r, user, a) && op.Register? && op.user == user && op.jti !in Tokens(r)
    requires r != [] && r[|r| - 1].Register? ==> r[|r| - 1].now <= op.now
    ensures Reached(r + [op], user, b)
  {
    b := Registered(a, op.jti, op.user, op.fingerprint, op.ip, op.agent, op.now);
    assert (r + [op])[..|r|] == r;
    assert Step(a, op, b);
  }

  lemma HoldLater(st: State, user: string, tokens: seq<string>, at: int, then': int)
    requires Holding(st, user, tokens, at) && at <= then'
    ensures Holding(st, user, tokens, then')
  {
  }

  lemma {:induction false} EmptyTokenHolds(ops: seq<Op>, user: string, st: State)
    requires Reached(ops, user, st) && ops != [] && Tokens(ops) != [] && Tokens(ops)[0] == ""
    ensures Holding(st, user, Tokens(ops), ops[|ops| - 1].now)
  {
    var r, op := ops[..|ops| - 1], ops[|ops| - 1];
    var a: State :| Reached(r, user, a) && Step(a, op, st);
    if r == [] {
      HoldFirst(op, st);
      assert Tokens(ops) == [op.jti];
    } else {
      TokensStart(r);
      EmptyTokenHolds(r, user, a);
      HoldLater(a, user, Tokens(r), r[|r| - 1].now, op.now);
      HoldOneMore(a, user, Tokens(r), op, st);
    }
  }

  lemma TokensStart(r: seq<Op>)
    requires r != [] && r[|r| - 1].Register?
    ensures Tokens(r) != []
  {
  }

  /**
   * From the start, if a user's first registration has the empty token there is no cap: every later one stays too,
   * however many. The server's own tokens are never empty, so only a direct caller can do this.
   */
  lemma EmptyTokenRun(ops: seq<Op>, user: string, st: State)
    requires Reached(ops, user, st) && ops != [] && Tokens(ops) != [] && Tokens(ops)[0] == ""
    ensures Members(st.index, user) == Tokens(ops) && st.sessions.Keys == (set j | j in Tokens(ops))
    ensures |Tokens(ops)| > MAX_CONCURRENT ==> !Capped(st)
  {
    EmptyTokenHolds(ops, user, st);
    HoldingMeans(st, user, Tokens(ops), ops[|ops| - 1].now);
  }

  lemma HoldingMeans(st: State, user: string, tokens: seq<string>, at: int)
    requires Holding(st, user, tokens, at)
    ensures Members(st.index, user) == tokens && st.sessions.Keys == (set j | j in tokens)
    ensures |tokens| > MAX_CONCURRENT ==> !Capped(st)
  {
  }

  lemma TokensNext(r: seq<Op>, op: Op)
    requires op.Register?
    ensures Tokens(r + [op]) == Tokens(r) + [op.jti]
  {
    assert (r + [op])[..|r|] == r;
  }

  ghost predicate RegistersAll(ops: seq<Op>, tokens: seq<string>, user: string, at: int, st: State) {
    && |ops| == |tokens| && Tokens(ops) == tokens && Reached(ops, user, st)
    && (ops != [] ==> ops[|ops| - 1].Register? && ops[|ops| - 1].now == at + |ops| - 1)
  }

  lemma RegisterOne(
      r: seq<Op>, tokens: seq<string>, user: string, at: int, a: State, op: Op) returns (st: State)
    requires RegistersAll(r, tokens, user, at, a)
    requires op.Register? && op.user == user && op.now == at + |r| && op.jti !in tokens
    ensures RegistersAll(r + [op], tokens + [op.jti], user, at, st)
  {
    st := ReachedNext(r, op, user, a);
    TokensNext(r, op);
  }

  /** Any distinct tokens can be registered one after the other. */
  lemma {:induction false} RegisterEach(
      tokens: seq<string>, user: string, fingerprint: string, ip: string, agent: string, at: int)
    returns (ops: seq<Op>, st: State)
    requires Distinct(tokens)
    ensures RegistersAll(ops, tokens, user, at, st)
  {
    if tokens == [] {
      ops, st := [], EMPTY;
    } else {
      var n := |tokens| - 1;
      DistinctInit(tokens);
      var r, a := RegisterEach(tokens[..n], user, fingerprint, ip, agent, at);
      var op := Register(tokens[n], user, fingerprint, ip, agent, at + n);
      st := RegisterOne(r, tokens[..n], user, at, a, op);
      ops := r + [op];
      assert tokens[..n] + [tokens[n]] == tokens;
    }
  }

  /** So every number of sessions of one user is reached from the start, if the first token is empty. */
  lemma UncappedRun(tokens: seq<string>, user: string, fingerprint: string, ip: string, agent: string, at: int)
    returns (ops: seq<Op>, st: State)
    requires Distinct(tokens) && |tokens| > MAX_CONCURRENT && tokens[0] == ""
    ensures Reached(ops, user, st) && Members(st.index, user) == tokens && !Capped(st)
  {
    ops, st := RegisterEach(tokens, user, fingerprint, ip, agent, at);
    EmptyTokenRun(ops, user, st);
  }
}
