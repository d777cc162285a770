/**
 * Threat scoring (apps/server/src/agents/threatIntelligence.ts): reports, the weighted score, the graduated response,
 * quarantine and decay. Scores are computed over the reals and rounded half up; times are milliseconds.
 */
module Threats {
  import opened Words

  const QUARANTINE_MS := 3600000
  const MAX_SIGNALS := 50

  datatype Action = Allow | Warn | Throttle | Block | Quarantine

  datatype Signal = Signal(source: string, severity: real, message: string, timestamp: nat)

  datatype Record = Record(
    score: int, signals: seq<Signal>, lastAction: Action, lastUpdated: nat, quarantineUntil: Option<nat>)

  type Database = map<string, Record>

  const THRESHOLDS: seq<(Action, int)> := [(Allow, 0), (Warn, 20), (Throttle, 40), (Block, 60), (Quarantine, 80)]

  // ---------- Scores ----------

  function Max(x: real, y: real): real { if x >= y then x else y }

  /** Rounding to the nearest integer, halves upwards. */
  function Round(x: real): int { (x + 0.5).Floor }

  /** One for a signal of this instant, down to a tenth for one of an hour ago. */
  function Weight(s: Signal, now: nat): real { Max(0.1, 1.0 - (now - s.timestamp) as real / 60000.0 / 60.0) }

  function Weighted(s: seq<Signal>, now: nat): real
  {
    if s == [] then 0.0
    else Weighted(s[..|s| - 1], now) + s[|s| - 1].severity * Weight(s[|s| - 1], now) * 10.0
  }

  function Total(s: seq<Signal>, now: nat): (r: real)
    ensures r >= 0.0
  {
    if s == [] then 0.0 else Total(s[..|s| - 1], now) + Weight(s[|s| - 1], now)
  }

  function Capped(n: int): int { if n > 100 then 100 else n }

  function Score(s: seq<Signal>, now: nat): int { Capped(Round(Weighted(s, now) / Max(1.0, Total(s, now)))) }

  function ActionFor(score: int): Action
  {
    if score >= 80 then Quarantine
    else if score >= 60 then Block
    else if score >= 40 then Throttle
    else if score >= 20 then Warn
    else Allow
  }

  /** The signals kept after a report. */
  function Kept(s: seq<Signal>): (r: seq<Signal>)
  {
    if |s| > MAX_SIGNALS then s[|s| - MAX_SIGNALS..] else s
  }

  // ---------- Operations on values ----------

  function Found(db: Database, target: string, now: nat): Record
  {
    if target in db then db[target] else Record(0, [], Allow, now, None)
  }

  function Scored(r: Record, x: Signal): Record
  {
    var now := x.timestamp;
    var signals := Kept(r.signals + [x]);
    var score := Score(signals, now);
    var action := ActionFor(score);
    Record(score, signals, action, now, if action == Quarantine then Some(now + QUARANTINE_MS) else r.quarantineUntil)
  }

  function Reported(db: Database, target: string, x: Signal): Database
  {
    db[target := Scored(Found(db, target, x.timestamp), x)]
  }

  predicate Held(r: Record, now: nat) { r.quarantineUntil.Some? && now < r.quarantineUntil.value }

  predicate Lapsed(r: Record, now: nat) { r.quarantineUntil.Some? && now >= r.quarantineUntil.value }

  function Lowered(score: int, points: int): int { if score - points > 0 then score - points else 0 }

  function Released(r: Record): Record
  {
    r.(quarantineUntil := None, score := Lowered(r.score, 30), lastAction := Allow)
  }

  function Checked(db: Database, target: string, now: nat): Database
  {
    if target in db && Lapsed(db[target], now) then db[target := Released(db[target])] else db
  }

  predicate Denied(db: Database, target: string, now: nat)
  {
    target in db &&
    (Held(db[target], now) || (!Lapsed(db[target], now) && db[target].lastAction in {Block, Quarantine}))
  }

  function Faded(r: Record, now: nat): Record
  {
    var age := now - r.lastUpdated;
    if age > 3600000 then r.(score := Lowered(r.score, 10))
    else if age > 300000 then r.(score := Lowered(r.score, 2))
    else r
  }

  predicate Forgotten(r: Record, now: nat)
  {
    now - r.lastUpdated > 3600000 && Faded(r, now).score == 0 && r.quarantineUntil == None
  }

  function Decayed(db: Database, now: nat): Database
  {
    map t | t in db && !Forgotten(db[t], now) :: Faded(db[t], now)
  }

  // ---------- The agent ----------

  class ThreatIntelligence {
    var threats: Database

    constructor ()
      ensures threats == map[]
    {
      threats := map[];
    }

    method ReportThreatSignal(target: string, source: string, severity: real, message: string, now: nat)
      returns (action: Action, score: int)
      modifies this
      ensures threats == Reported(old(threats), target, Signal(source, severity, message, now))
      ensures target in threats && action == threats[target].lastAction && score == threats[target].score
    {
      if target !in threats {
        threats := threats[target := Record(0, [], Allow, now, None)];
      }
      var record := Rescore(threats[target], Signal(source, severity, message, now));
      threats := threats[target := record];
      return record.lastAction, record.score;
    }

    method CheckThreatStatus(target: string, now: nat) returns (allowed: bool, action: Action, score: int)
      modifies this
      ensures threats == Checked(old(threats), target, now)
      ensures allowed <==> !Denied(old(threats), target, now)
      ensures action == if target !in old(threats) then Allow
                        else if Held(old(threats)[target], now) then Quarantine else threats[target].lastAction
      ensures score == if target in old(threats) then threats[target].score else 0
    {
      if target !in threats {
        return true, Allow, 0;
      }
      if threats[target].quarantineUntil.Some? && now < threats[target].quarantineUntil.value {
        return false, Quarantine, threats[target].score;
      }
      if threats[target].quarantineUntil.Some? && now >= threats[target].quarantineUntil.value {
        threats := threats[target := threats[target].(quarantineUntil := None)];
        threats := threats[target := threats[target].(score := Lowered(threats[target].score, 30))];
        threats := threats[target := threats[target].(lastAction := Allow)];
      }
      var last := threats[target].lastAction;
      return last != Block && last != Quarantine, last, threats[target].score;
    }

    /** The periodic pass over all records, in any order. */
    method Decay(now: nat)
      modifies this
      ensures threats == Decayed(old(threats), now)
    {
      ghost var before := threats;
      var todo := threats.Keys;
      while todo != {}
        invariant todo <= threats.Keys <= before.Keys
        invariant forall t | t in todo :: threats[t] == before[t]
        invariant forall t | t in before && t !in todo :: t in threats <==> !Forgotten(before[t], now)
        invariant forall t | t in threats && t !in todo :: threats[t] == Faded(before[t], now)
        decreases todo
      {
        var target :| target in todo;
        var record := threats[target];
        var age := now - record.lastUpdated;
        if age > 3600000 {
          record := record.(score := Lowered(record.score, 10));
          threats := threats[target := record];
          if record.score == 0 && record.quarantineUntil == None {
            threats := threats - {target};
          }
        } else if age > 300000 {
          threats := threats[target := record.(score := Lowered(record.score, 2))];
        }
        todo := todo - {target};
      }
    }
  }

  /** What a report does to a record. */
  method Rescore(was: Record, signal: Signal) returns (record: Record)
    ensures record == Scored(was, signal)
  {
    record := was.(signals := was.signals + [signal], lastUpdated := signal.timestamp);
    if |record.signals| > MAX_SIGNALS {
      record := record.(signals := record.signals[|record.signals| - MAX_SIGNALS..]);
    }
    var score := ComputeScore(record.signals, signal.timestamp);
    var action := PickAction(score);
    record := record.(score := score, lastAction := action);
    if action == Quarantine {
      record := record.(quarantineUntil := Some(signal.timestamp + QUARANTINE_MS));
    }
  }

  /** The scoring loop. */
  method ComputeScore(signals: seq<Signal>, now: nat) returns (score: int)
    ensures score == Score(signals, now)
  {
    var weightedScore, totalWeight := 0.0, 0.0;
    var i := 0;
    while i < |signals|
      invariant i <= |signals| && weightedScore == Weighted(signals[..i], now)
                && totalWeight == Total(signals[..i], now)
    {
      assert signals[..i + 1][..i] == signals[..i];
      var age := (now - signals[i].timestamp) as real / 60000.0;
      var weight := Max(0.1, 1.0 - age / 60.0);
      weightedScore := weightedScore + signals[i].severity * weight * 10.0;
      totalWeight := totalWeight + weight;
      i := i + 1;
    }
    assert signals[..|signals|] == signals;
    return Capped(Round(weightedScore / Max(1.0, totalWeight)));
  }

  /** The threshold loop: the last threshold reached wins. */
  method PickAction(score: int) returns (action: Action)
    ensures action == ActionFor(score)
  {
    action := Allow;
    var i := 0;
    while i < |THRESHOLDS|
      invariant 0 <= i <= |THRESHOLDS|
      invariant action == ActionFor(if i == 0 then 0 else if score < THRESHOLDS[i - 1].1 then score
                                    else THRESHOLDS[i - 1].1)
    {
      if score >= THRESHOLDS[i].1 {
        action := THRESHOLDS[i].0;
      }
      i := i + 1;
    }
  }

  // ---------- The score is a weighted mean ----------

  lemma Scale(a: real, b: real, w: real)
    requires a <= b && w >= 0.0
    ensures a * w <= b * w
  {
  }

  lemma Quotient(a: real, b: real, c: real)
    requires b > 0.0
    ensures a <= c * b ==> a / b <= c
    ensures a >= c * b ==> a / b >= c
  {
    assert a == (a / b) * b;
    if a / b > c {
      Grows(c, a / b, b);
    }
    if a / b < c {
      Grows(a / b, c, b);
    }
  }

  lemma Grows(a: real, b: real, w: real)
    requires a < b && w > 0.0
    ensures a * w < b * w
  {
    assert (b - a) * w > 0.0;
  }

  lemma NextTerm(lo: real, hi: real, sum: real, t: real, x: real, w: real)
    requires Between(lo, hi, sum, t) && lo <= 10.0 * x <= hi && w >= 0.0
    ensures Between(lo, hi, sum + x * w * 10.0, t + w)
  {
    Scale(lo, 10.0 * x, w);
    Scale(10.0 * x, hi, w);
    assert lo * (t + w) == lo * t + lo * w && hi * (t + w) == hi * t + hi * w;
  }

  ghost predicate Between(lo: real, hi: real, sum: real, t: real) { lo * t <= sum <= hi * t }

  lemma {:induction false} WeightedBetween(s: seq<Signal>, now: nat, lo: real, hi: real)
    requires forall i | 0 <= i < |s| :: lo <= 10.0 * s[i].severity <= hi
    ensures Between(lo, hi, Weighted(s, now), Total(s, now))
  {
    if s != [] {
      var init, x := s[..|s| - 1], s[|s| - 1];
      assert Between(lo, hi, Weighted(init, now), Total(init, now)) by {
        WeightedBetween(init, now, lo, hi);
      }
      var w, sum, t := Weight(x, now), Weighted(init, now), Total(init, now);
      assert Weighted(s, now) == sum + x.severity * w * 10.0;
      assert Total(s, now) == t + w;
      NextTerm(lo, hi, sum, t, x.severity, w);
    }
  }

  /** The signal of this instant has full weight, so the divisor is the total weight itself. */
  lemma FullWeight(s: seq<Signal>, now: nat)
    requires s != [] && s[|s| - 1].timestamp == now
    ensures Total(s, now) >= 1.0 && Max(1.0, Total(s, now)) == Total(s, now)
  {
  }

  lemma RoundMonotone(x: real, y: real)
    requires x <= y
    ensures Round(x) <= Round(y)
  {
  }

  /** The score lies between ten times the least and ten times the greatest severity, rounded and capped at 100. */
  lemma ScoreBetween(s: seq<Signal>, now: nat, lo: real, hi: real)
    requires s != [] && s[|s| - 1].timestamp == now
    requires forall x | x in s :: lo <= x.severity <= hi
    ensures Capped(Round(10.0 * lo)) <= Score(s, now) <= Capped(Round(10.0 * hi))
  {
    WeightedBetween(s, now, 10.0 * lo, 10.0 * hi);
    FullWeight(s, now);
    var w, t := Weighted(s, now), Total(s, now);
    Quotient(w, t, 10.0 * lo);
    Quotient(w, t, 10.0 * hi);
    RoundMonotone(10.0 * lo, w / t);
    RoundMonotone(w / t, 10.0 * hi);
  }

  /** Rounded to the nearest whole number, halves upwards, and at most 100. */
  lemma ScoreNearest(s: seq<Signal>, now: nat, mean: real)
    requires mean * Max(1.0, Total(s, now)) == Weighted(s, now)
    ensures mean < 99.5 ==> (Score(s, now) as real) - 0.5 <= mean < (Score(s, now) as real) + 0.5
    ensures mean >= 99.5 ==> Score(s, now) == 100
  {
    var t := Max(1.0, Total(s, now));
    Quotient(Weighted(s, now), t, mean);
    assert Weighted(s, now) / t == mean;
  }

  // ---------- Old signals count less ----------

  /** A signal counts fully at its instant and linearly less until the 54th minute, and a tenth from then on. */
  lemma WeightExactly(s: Signal, now: nat)
    ensures var age := now - s.timestamp;
            Weight(s, now) == if age <= 3240000 then 1.0 - age as real / 3600000.0 else 0.1
  {
    var age := now - s.timestamp;
    assert age as real / 60000.0 / 60.0 == age as real / 3600000.0;
    if age <= 3240000 {
      Quotient(age as real, 3600000.0, 0.9);
    } else {
      Quotient(age as real, 3600000.0, 0.9);
    }
  }

  lemma OlderWeighsLess(s: Signal, older: Signal, now: nat)
    requires older.timestamp <= s.timestamp
    ensures Weight(older, now) <= Weight(s, now)
    ensures older.timestamp < s.timestamp && now - s.timestamp < 3240000 ==> Weight(older, now) < Weight(s, now)
  {
    var x, y := (now - s.timestamp) as real, (now - older.timestamp) as real;
    WeightExactly(s, now);
    WeightExactly(older, now);
    Quotient(x, 3600000.0, y / 3600000.0);
    assert y / 3600000.0 * 3600000.0 == y;
    Quotient(y, 3600000.0, 0.9);
    Quotient(x, 3600000.0, 0.9);
  }

  /** What one signal adds to the weighted sum. */
  function Term(s: Signal, now: nat): real { s.severity * Weight(s, now) * 10.0 }

  lemma LastSums(s: seq<Signal>, now: nat)
    requires s != []
    ensures Weighted(s, now) == Weighted(s[..|s| - 1], now) + Term(s[|s| - 1], now)
    ensures Total(s, now) == Total(s[..|s| - 1], now) + Weight(s[|s| - 1], now)
  {
  }

  /** Both sums after one signal is replaced. */
  ghost predicate Replaced(s: seq<Signal>, u: seq<Signal>, dw: real, dt: real, now: nat)
  {
    Weighted(u, now) == Weighted(s, now) + dw && Total(u, now) == Total(s, now) + dt
  }

  lemma {:induction false} SumsUpdated(s: seq<Signal>, i: nat, x: Signal, now: nat)
    requires i < |s|
    ensures Replaced(s, s[i := x], Term(x, now) - Term(s[i], now), Weight(x, now) - Weight(s[i], now), now)
  {
    var n, u := |s| - 1, s[i := x];
    LastSums(s, now);
    LastSums(u, now);
    if i < n {
      SumsUpdated(s[..n], i, x, now);
      assert u[..n] == s[..n][i := x] && u[n] == s[n];
    } else {
      assert u[..n] == s[..n];
    }
  }

  /** Taking weight `d` from a value `v` of a weighted mean moves the mean away from it. */
  lemma LighterMean(w: real, t: real, v: real, d: real)
    requires t > 0.0 && t - d > 0.0 && d >= 0.0
    ensures w <= v * t ==> (w - v * d) / (t - d) <= w / t
    ensures w >= v * t ==> (w - v * d) / (t - d) >= w / t
  {
    var m := w / t;
    assert m * t == w;
    assert m * (t - d) == w - m * d;
    Quotient(w, t, v);
    if w <= v * t {
      Scale(m, v, d);
    }
    if w >= v * t {
      Scale(v, m, d);
    }
    Quotient(w - v * d, t - d, m);
  }

  /** Making a past signal older takes some weight off its severity. */
  lemma OlderSums(s: seq<Signal>, now: nat, i: nat, at: nat) returns (d: real)
    requires i < |s| - 1 && s[|s| - 1].timestamp == now && at <= s[i].timestamp
    ensures d >= 0.0 && Replaced(s, s[i := s[i].(timestamp := at)], -(10.0 * s[i].severity * d), -d, now)
    ensures Total(s, now) >= 1.0 && Total(s[i := s[i].(timestamp := at)], now) >= 1.0
  {
    var x := s[i].(timestamp := at);
    d := Weight(s[i], now) - Weight(x, now);
    SumsUpdated(s, i, x, now);
    OlderWeighsLess(s[i], x, now);
    FullWeight(s, now);
    FullWeight(s[i := x], now);
    TermsDiffer(s[i].severity, Weight(s[i], now), Weight(x, now));
  }

  lemma ScoreOrder(a: seq<Signal>, b: seq<Signal>, now: nat)
    requires Total(a, now) >= 1.0 && Total(b, now) >= 1.0
    requires Weighted(a, now) / Total(a, now) <= Weighted(b, now) / Total(b, now)
    ensures Score(a, now) <= Score(b, now)
  {
    RoundMonotone(Weighted(a, now) / Total(a, now), Weighted(b, now) / Total(b, now));
  }

  /** The weighted mean, as far as it goes without dividing. */
  ghost predicate MeanAtMost(s: seq<Signal>, now: nat, v: real) { Weighted(s, now) <= v * Total(s, now) }

  ghost predicate MeanAtLeast(s: seq<Signal>, now: nat, v: real) { Weighted(s, now) >= v * Total(s, now) }

  /**
   * The older a past signal, the less it draws the score: made older, one at least as severe as the mean does not raise
   * the score, and one at most as severe does not lower it.
   */
  lemma OlderDrawsLess(s: seq<Signal>, now: nat, i: nat, at: nat)
    requires i < |s| - 1 && s[|s| - 1].timestamp == now && at <= s[i].timestamp
    ensures MeanAtMost(s, now, 10.0 * s[i].severity) ==>
              Score(s[i := s[i].(timestamp := at)], now) <= Score(s, now)
    ensures MeanAtLeast(s, now, 10.0 * s[i].severity) ==>
              Score(s[i := s[i].(timestamp := at)], now) >= Score(s, now)
  {
    var v := 10.0 * s[i].severity;
    var d := OlderSums(s, now, i, at);
    LighterScore(s, s[i := s[i].(timestamp := at)], now, v, d, v * d);
  }

  lemma LighterScore(s: seq<Signal>, u: seq<Signal>, now: nat, v: real, d: real, p: real)
    requires d >= 0.0 && p == v * d && Replaced(s, u, -p, -d, now) && Total(s, now) >= 1.0 && Total(u, now) >= 1.0
    ensures Weighted(s, now) <= v * Total(s, now) ==> Score(u, now) <= Score(s, now)
    ensures Weighted(s, now) >= v * Total(s, now) ==> Score(u, now) >= Score(s, now)
  {
    LighterMean(Weighted(s, now), Total(s, now), v, d);
    if Weighted(u, now) / Total(u, now) <= Weighted(s, now) / Total(s, now) {
      ScoreOrder(u, s, now);
    }
    if Weighted(u, now) / Total(u, now) >= Weighted(s, now) / Total(s, now) {
      ScoreOrder(s, u, now);
    }
  }

  lemma TermsDiffer(x: real, w: real, y: real)
    ensures x * w * 10.0 - x * y * 10.0 == 10.0 * x * (w - y)
  {
  }

  lemma RoundWhole(n: int)
    ensures Round(n as real) == n
  {
  }

  /**
   * A report whose retained signals all have severities between two whole numbers up to ten scores between ten
   * times the one and ten times the other, whatever the clock did before.
   */
  lemma ReportScore(r: Record, x: Signal, lo: int, hi: int)
    requires lo <= hi <= 10
    requires forall y | y in Kept(r.signals + [x]) :: lo as real <= y.severity <= hi as real
    ensures 10 * lo <= Scored(r, x).score <= 10 * hi
    ensures Scored(r, x).signals == Kept(r.signals + [x]) && Scored(r, x).signals[|Scored(r, x).signals| - 1] == x
  {
    var s := Kept(r.signals + [x]);
    assert s[|s| - 1] == x;
    ScoreBetween(s, x.timestamp, lo as real, hi as real);
    assert 10.0 * (lo as real) == (10 * lo) as real && 10.0 * (hi as real) == (10 * hi) as real;
    RoundWhole(10 * lo);
    RoundWhole(10 * hi);
  }

  /** The second list has the same instants and severities at least as high. */
  ghost predicate Worse(a: seq<Signal>, b: seq<Signal>)
  {
    |a| == |b| && forall i | 0 <= i < |a| :: a[i].timestamp == b[i].timestamp && a[i].severity <= b[i].severity
  }

  lemma NextLarger(p: real, q: real, x: real, y: real, w: real)
    requires p <= q && x <= y && w >= 0.0
    ensures p + x * w * 10.0 <= q + y * w * 10.0
  {
    Scale(x, y, w);
    var u, v := x * w, y * w;
    assert u * 10.0 <= v * 10.0;
  }

  lemma {:induction false} WeightedGrows(a: seq<Signal>, b: seq<Signal>, now: nat)
    requires Worse(a, b)
    ensures Total(a, now) == Total(b, now) && Weighted(a, now) <= Weighted(b, now)
  {
    if a != [] {
      var i := |a| - 1;
      WeightedGrows(a[..i], b[..i], now);
      NextLarger(Weighted(a[..i], now), Weighted(b[..i], now), a[i].severity, b[i].severity, Weight(a[i], now));
    }
  }

  function Rank(a: Action): int
  {
    match a
    case Allow => 0
    case Warn => 1
    case Throttle => 2
    case Block => 3
    case Quarantine => 4
  }

  /** The action is the highest one whose threshold the score reaches, or allow below all of them. */
  lemma ActionIsHighest(score: int, i: nat)
    requires i < |THRESHOLDS| && THRESHOLDS[i].1 <= score
    ensures Rank(THRESHOLDS[i].0) <= Rank(ActionFor(score)) && THRESHOLDS[Rank(ActionFor(score))].1 <= score
    ensures THRESHOLDS[Rank(ActionFor(score))].0 == ActionFor(score)
  {
  }

  /** Each twenty points are one step harder, up to quarantine. */
  lemma ActionExactly(score: int)
    ensures Rank(ActionFor(score)) == if score < 0 then 0 else if score >= 80 then 4 else score / 20
  {
  }

  /**
   * What a report leaves: the last fifty signals with the new one at the end, the action of the score, and a
   * quarantine of an hour from now if that is the action, else the one there was.
   */
  lemma ReportExactly(r: Record, x: Signal)
    ensures var b, s := Scored(r, x), r.signals + [x];
            && b.lastUpdated == x.timestamp && b.signals == (if |s| <= 50 then s else s[|s| - 50..])
            && b.score <= 100 && b.lastAction == ActionFor(b.score)
            && b.quarantineUntil == if b.score >= 80 then Some(x.timestamp + 3600000) else r.quarantineUntil
  {
    ActionExactly(Scored(r, x).score);
  }

  /** Raising severities never lowers the score or softens the action. */
  lemma ResponseMonotone(a: seq<Signal>, b: seq<Signal>, now: nat)
    requires Worse(a, b)
    ensures Score(a, now) <= Score(b, now) && Rank(ActionFor(Score(a, now))) <= Rank(ActionFor(Score(b, now)))
  {
    WeightedGrows(a, b, now);
    var t := Max(1.0, Total(a, now));
    Quotient(Weighted(b, now), t, Weighted(b, now) / t);
    assert Weighted(b, now) / t * t == Weighted(b, now);
    Quotient(Weighted(a, now), t, Weighted(b, now) / t);
    RoundMonotone(Weighted(a, now) / t, Weighted(b, now) / t);
  }

  // ---------- Whole runs ----------

  datatype Op = Report(target: string, signal: Signal) | Check(target: string, now: nat) | Fade(now: nat)

  function Time(op: Op): nat { if op.Report? then op.signal.timestamp else op.now }

  function Apply(db: Database, op: Op): Database
  {
    match op
    case Report(target, x) => Reported(db, target, x)
    case Check(target, now) => Checked(db, target, now)
    case Fade(now) => Decayed(db, now)
  }

  /** Any interleaving of reports, checks and decay passes under a clock that does not go back. */
  ghost predicate IsRun(run: seq<Database>, ops: seq<Op>)
  {
    && |run| == |ops| + 1
    && (forall i | 0 <= i < |ops| :: run[i + 1] == Apply(run[i], ops[i]))
    && (forall i, j | 0 <= i <= j < |ops| :: Time(ops[i]) <= Time(ops[j]))
  }

  predicate HeldUntil(db: Database, target: string, until: nat)
  {
    target in db && db[target].quarantineUntil.Some? && db[target].quarantineUntil.value >= until
  }

  lemma HoldStays(db: Database, op: Op, target: string, until: nat)
    requires HeldUntil(db, target, until) && Time(op) < until <= Time(op) + QUARANTINE_MS
    ensures HeldUntil(Apply(db, op), target, until)
  {
  }

  lemma {:induction false} HoldLasts(run: seq<Database>, ops: seq<Op>, target: string, until: nat, i: nat, n: nat)
    requires IsRun(run, ops) && i <= n < |run| && HeldUntil(run[i], target, until)
    requires forall m | i <= m < n :: Time(ops[m]) < until <= Time(ops[m]) + QUARANTINE_MS
    ensures HeldUntil(run[n], target, until)
  {
    if i < n {
      HoldLasts(run, ops, target, until, i, n - 1);
      HoldStays(run[n - 1], ops[n - 1], target, until);
    }
  }

  /** A report answered with this action. */
  predicate Answered(run: seq<Database>, ops: seq<Op>, i: nat, target: string, action: Action)
    requires i < |ops| && |run| == |ops| + 1
  {
    ops[i].Report? && ops[i].target == target && target in run[i + 1] && run[i + 1][target].lastAction == action
  }

  /**
   * Once a report is answered with quarantine, every check of that target within the hour is denied, whatever
   * reports, checks and decay passes come in between, and the record is still there.
   */
  lemma QuarantineHolds(run: seq<Database>, ops: seq<Op>, target: string, i: nat, k: nat)
    requires IsRun(run, ops) && i < k < |ops| && Answered(run, ops, i, target, Quarantine)
    requires ops[k].Check? && ops[k].target == target && ops[k].now < Time(ops[i]) + 3600000
    ensures target in run[k] && Denied(run[k], target, ops[k].now)
  {
    var until := Time(ops[i]) + QUARANTINE_MS;
    assert run[i + 1] == Apply(run[i], ops[i]);
    forall m | i + 1 <= m < k
      ensures Time(ops[m]) < until <= Time(ops[m]) + QUARANTINE_MS
    {
      assert Time(ops[i]) <= Time(ops[m]) <= Time(ops[k]);
    }
    HoldLasts(run, ops, target, until, i + 1, k);
  }

  ghost predicate NoReports(ops: seq<Op>, target: string, i: nat, k: nat)
    requires i <= k <= |ops|
  {
    forall m | i <= m < k :: !(ops[m].Report? && ops[m].target == target)
  }

  /** Quarantined until that time, or already released and not refused since. */
  predicate HeldOrFree(db: Database, target: string, until: nat, now: nat)
  {
    || (target in db && db[target].quarantineUntil == Some(until))
    || (now >= until && (target in db ==> db[target].quarantineUntil == None && db[target].lastAction == Allow))
  }

  lemma HeldOrFreeStep(db: Database, op: Op, target: string, until: nat, now: nat)
    requires HeldOrFree(db, target, until, now) && now <= Time(op) && !(op.Report? && op.target == target)
    ensures HeldOrFree(Apply(db, op), target, until, Time(op))
  {
  }

  /** From a report that leaves this stamp, without further reports. */
  lemma {:induction false} HeldOrFreeLasts(run: seq<Database>, ops: seq<Op>, target: string, until: nat, i: nat, n: nat)
    requires IsRun(run, ops) && i < n < |run| && NoReports(ops, target, i + 1, n)
    requires target in run[i + 1] && run[i + 1][target].quarantineUntil == Some(until)
    ensures HeldOrFree(run[n], target, until, Time(ops[n - 1]))
  {
    assert run[n] == Apply(run[n - 1], ops[n - 1]);
    if i + 1 < n {
      HeldOrFreeLasts(run, ops, target, until, i, n - 1);
      HeldOrFreeStep(run[n - 1], ops[n - 1], target, until, Time(ops[n - 2]));
    }
  }

  /**
   * Without further reports the quarantine lasts one hour exactly: a check is denied if and only if it comes earlier.
   */
  lemma QuarantineExactly(run: seq<Database>, ops: seq<Op>, target: string, i: nat, k: nat)
    requires IsRun(run, ops) && i < k < |ops| && Answered(run, ops, i, target, Quarantine)
             && NoReports(ops, target, i + 1, k)
    requires ops[k].Check? && ops[k].target == target
    ensures Denied(run[k], target, ops[k].now) <==> ops[k].now < Time(ops[i]) + 3600000
  {
    assert run[i + 1] == Apply(run[i], ops[i]);
    HeldOrFreeLasts(run, ops, target, Time(ops[i]) + QUARANTINE_MS, i, k);
    assert Time(ops[k - 1]) <= Time(ops[k]);
  }

  // ---------- Decay and release over runs ----------

  /** Only decay passes from operation i to n. */
  ghost predicate OnlyFades(ops: seq<Op>, i: nat, n: nat)
    requires i <= n <= |ops|
  {
    forall m | i <= m < n :: ops[m].Fade?
  }

  function LoweredBy(score: int, points: nat): int { if points == 0 then score else Lowered(score, points) }

  /**
   * A record without quarantine that has not been reported for an hour loses ten points in each decay pass, and is
   * forgotten exactly in the pass that would take it to zero.
   */
  lemma {:induction false} ForgottenExactly(run: seq<Database>, ops: seq<Op>, target: string, i: nat, n: nat)
    requires IsRun(run, ops) && i <= n < |run| && OnlyFades(ops, i, n)
    requires target in run[i] && run[i][target].quarantineUntil == None
    requires forall m | i <= m < n :: Time(ops[m]) > run[i][target].lastUpdated + 3600000
    ensures target in run[n] <==> n == i || 10 * (n - i) < run[i][target].score
    ensures target in run[n] ==>
              run[n][target] == run[i][target].(score := run[i][target].score - 10 * (n - i))
  {
    if i < n {
      ForgottenExactly(run, ops, target, i, n - 1);
      assert run[n] == Apply(run[n - 1], ops[n - 1]) && ops[n - 1].Fade?;
    }
  }

  /** Between five minutes and an hour after the last report each decay pass takes two points, and forgets nothing. */
  lemma {:induction false} FadedExactly(run: seq<Database>, ops: seq<Op>, target: string, i: nat, n: nat)
    requires IsRun(run, ops) && i <= n < |run| && OnlyFades(ops, i, n) && target in run[i]
    requires forall m | i <= m < n ::
               run[i][target].lastUpdated + 300000 < Time(ops[m]) <= run[i][target].lastUpdated + 3600000
    ensures target in run[n] && run[n][target] == run[i][target].(score := LoweredBy(run[i][target].score, 2 * (n - i)))
  {
    if i < n {
      FadedExactly(run, ops, target, i, n - 1);
      assert run[n] == Apply(run[n - 1], ops[n - 1]) && ops[n - 1].Fade?;
    }
  }

  /** The first check after a quarantine releases the target: allowed again, thirty points lower. */
  lemma ReleasedExactly(db: Database, target: string, now: nat)
    requires target in db && db[target].quarantineUntil.Some?
    ensures var b := Checked(db, target, now);
            if now < db[target].quarantineUntil.value then b == db && Denied(db, target, now)
            else
              && b == db[target := b[target]] && !Denied(db, target, now)
              && b[target].quarantineUntil == None && b[target].lastAction == Allow
              && b[target].score == if db[target].score > 30 then db[target].score - 30 else 0
  {
  }

  /** A record nobody reports again, with no quarantine to release. */
  predicate Standing(db: Database, target: string, action: Action, since: nat)
  {
    && target in db && db[target].lastAction == action && db[target].quarantineUntil == None
    && db[target].lastUpdated == since
  }

  lemma StandingStep(db: Database, op: Op, target: string, action: Action, since: nat)
    requires (target in db ==> Standing(db, target, action, since)) && !(op.Report? && op.target == target)
    ensures target in Apply(db, op) ==> Standing(Apply(db, op), target, action, since)
    ensures target in db && Time(op) <= since + 3600000 ==> target in Apply(db, op)
  {
  }

  lemma {:induction false} StandingLasts(
      run: seq<Database>, ops: seq<Op>, target: string, action: Action, i: nat, n: nat)
    requires IsRun(run, ops) && i < n < |run| && NoReports(ops, target, i + 1, n)
    requires Answered(run, ops, i, target, action) && run[i + 1][target].quarantineUntil == None
    ensures target in run[n] ==> Standing(run[n], target, action, Time(ops[i]))
    ensures Time(ops[n - 1]) <= Time(ops[i]) + 3600000 ==> target in run[n]
  {
    assert run[n] == Apply(run[n - 1], ops[n - 1]);
    if i + 1 < n {
      StandingLasts(run, ops, target, action, i, n - 1);
      StandingStep(run[n - 1], ops[n - 1], target, action, Time(ops[i]));
      assert Time(ops[n - 2]) <= Time(ops[n - 1]);
    }
  }

  /**
   * A block with no earlier quarantine pending lasts until decay deletes the record, which is at least an hour:
   * lowering the score never softens it.
   */
  lemma BlockHolds(run: seq<Database>, ops: seq<Op>, target: string, i: nat, k: nat)
    requires IsRun(run, ops) && i < k < |ops| && Answered(run, ops, i, target, Block)
             && NoReports(ops, target, i + 1, k)
    requires run[i + 1][target].quarantineUntil == None
    requires ops[k].Check? && ops[k].target == target
    ensures Denied(run[k], target, ops[k].now) <==> target in run[k]
    ensures ops[k].now <= Time(ops[i]) + 3600000 ==> target in run[k]
  {
    StandingLasts(run, ops, target, Block, i, k);
    assert Time(ops[k - 1]) <= Time(ops[k]);
  }

  /**
   * What the last report of a target decides, whatever checks and decay passes follow: with a quarantine stamp left,
   * from this report or an earlier one, a check is denied if and only if it comes before the stamp; without one, if
   * and only if the answer was block and decay has not deleted the record.
   */
  lemma LastReportDecides(run: seq<Database>, ops: seq<Op>, target: string, action: Action, i: nat, k: nat)
    requires IsRun(run, ops) && i < k < |ops| && Answered(run, ops, i, target, action)
             && NoReports(ops, target, i + 1, k)
    requires ops[k].Check? && ops[k].target == target
    ensures Denied(run[k], target, ops[k].now) <==>
            match run[i + 1][target].quarantineUntil
            case Some(u) => ops[k].now < u
            case None => action == Block && target in run[k]
  {
    assert run[i + 1] == Apply(run[i], ops[i]);
    assert Time(ops[k - 1]) <= Time(ops[k]);
    match run[i + 1][target].quarantineUntil
    case Some(u) => HeldOrFreeLasts(run, ops, target, u, i, k);
    case None => StandingLasts(run, ops, target, action, i, k);
  }

  /**
   * Right after a block, a check is denied if and only if no earlier quarantine of that target has run out unnoticed.
   */
  lemma BlockDeniedIff(db: Database, target: string, x: Signal, now: nat)
    requires Reported(db, target, x)[target].lastAction == Block
    ensures Denied(Reported(db, target, x), target, now) <==> !(target in db && Lapsed(db[target], now))
  {
  }

  /** A quarantine that ran out turns the next block into a release: two reports and one check. */
  lemma BlockLostAfterQuarantine(first: Signal, second: Signal)
    requires first.severity == 8.0 && first.timestamp == 0 && second.severity == 6.0
             && second.timestamp == QUARANTINE_MS
    ensures var db := Reported(Reported(map[], "t", first), "t", second);
            db["t"].lastAction == Block && !Denied(db, "t", QUARANTINE_MS)
  {
    var one := [first];
    assert one[..0] == [] && one[0] == first;
    assert Weighted(one, 0) == 80.0 && Total(one, 0) == 1.0;
    var two := [first, second];
    assert two[..1] == one && two[1] == second;
    assert Weight(first, QUARANTINE_MS) == 0.1 && Weight(second, QUARANTINE_MS) == 1.0;
    assert Weighted(one, QUARANTINE_MS) == 8.0 && Total(one, QUARANTINE_MS) == 0.1;
    assert Weighted(two, QUARANTINE_MS) == 68.0 && Total(two, QUARANTINE_MS) == 1.1;
    assert [] + [first] == one && one + [second] == two;
    Quotient(68.0, 1.1, 61.5);
    Quotient(68.0, 1.1, 62.0);
  }
}
