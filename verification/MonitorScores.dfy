/**
What the monitor's numbers say: each score as a share of the window, and the
cumulative score by the laws that fix it, signal by signal.
 */
module MonitorScores {
  import opened Common
  import opened Monitor
  import Handoff
  import FloatOrder
  import Migration
  import Session = ConfigSession

  function Min1(r: real): real {
    if r < 1.0 then r else 1.0
  }

  function Score(s: Scores, k: Kind): real {
    match k
    case Repetition => s.rep
    case SelfReferential => s.srl
    case TokenVelocity => s.tvs
    case ToolRetry => s.tra
  }

  function Gate(cfg: Cfg, k: Kind): real {
    match k
    case Repetition => cfg.repetition
    case SelfReferential => cfg.selfReferential
    case TokenVelocity => cfg.tokenVelocity
    case ToolRetry => cfg.toolRetry
  }

  function With(s: Scores, k: Kind, x: real): Scores {
    match k
    case Repetition => s.(rep := x)
    case SelfReferential => s.(srl := x)
    case TokenVelocity => s.(tvs := x)
    case ToolRetry => s.(tra := x)
  }

  function Times(x: real, d: real): real {
    x * d
  }

  lemma TimesSum(p: real, q: real, d: real)
    ensures Times(p + q, d) == Times(p, d) + Times(q, d)
  {
  }

  lemma TimesParts(d: real)
    ensures Times(0.0, d) == 0.0 && Times(1.0, d) == d && Times(0.5, d) == d / 2.0
  {
  }

  lemma PartOf(x: real, d: real)
    requires x >= 0.0 && d > 0.0
    ensures x / d >= 0.0 && Times(x / d, d) == x
    ensures x == d ==> x / d == 1.0
    ensures x >= d ==> x / d >= 1.0
  {
    QuotientMonotone(0.0, x, d);
    if x >= d {
      QuotientMonotone(d, x, d);
    }
  }

  lemma TimesInjective(a: real, b: real, d: real)
    requires d > 0.0 && Times(a, d) == Times(b, d)
    ensures a == b
  {
    if a < b {
      ProductBelow(a, b, d);
    } else if b < a {
      ProductBelow(b, a, d);
    }
  }

  // ---------------------------------------------------------------------
  // The cumulative score
  // ---------------------------------------------------------------------

  /** The signal does not reach its gate. */
  predicate Silent(s: Scores, cfg: Cfg, k: Kind) {
    Score(s, k) < Gate(cfg, k)
  }

  /** No other signal reaches its gate. */
  ghost predicate Alone(s: Scores, cfg: Cfg, k: Kind) {
    forall j: Kind | j != k :: Silent(s, cfg, j)
  }

  lemma ContributionFacts(x: real, gate: real)
    ensures Contribution(x, gate) >= 0.0
    ensures x < gate ==> Contribution(x, gate) == 0.0
    ensures gate <= 1.0 && x >= 1.0 ==> Contribution(x, gate) >= 1.0
    ensures gate <= 1.0 && x == 1.0 ==> Contribution(x, gate) == 1.0
    ensures gate < 1.0 && x >= gate ==> Times(Contribution(x, gate), 1.0 - gate) == x - gate
  {
    if x >= gate && 1.0 - gate > 0.0 {
      PartOf(x - gate, 1.0 - gate);
    }
  }

  /** A signal below its gate changes nothing. */
  lemma SilentSignalIsIgnored(s: Scores, cfg: Cfg, k: Kind, x: real)
    requires Silent(s, cfg, k) && x < Gate(cfg, k)
    ensures Combine(With(s, k, x), cfg) == Combine(s, cfg)
  {
  }

  /** With every signal below its gate the cumulative score is zero. */
  lemma AllSilent(s: Scores, cfg: Cfg)
    requires forall k: Kind :: Silent(s, cfg, k)
    ensures Combine(s, cfg) == 0.0
  {
    assert Silent(s, cfg, Repetition) && Silent(s, cfg, SelfReferential);
    assert Silent(s, cfg, TokenVelocity) && Silent(s, cfg, ToolRetry);
  }

  /** One saturated signal saturates the whole, whatever the others say. */
  lemma OneSaturates(s: Scores, cfg: Cfg, k: Kind)
    requires Score(s, k) >= 1.0 && Gate(cfg, k) <= 1.0
    ensures Combine(s, cfg) == 1.0
  {
    hide Contribution;
    ContributionFacts(s.rep, cfg.repetition);
    ContributionFacts(s.srl, cfg.selfReferential);
    ContributionFacts(s.tvs, cfg.tokenVelocity);
    ContributionFacts(s.tra, cfg.toolRetry);
  }

  /** The share a signal has when it is the only one past its gate. */
  lemma AloneIsContribution(s: Scores, cfg: Cfg, k: Kind)
    requires Alone(s, cfg, k)
    ensures Combine(s, cfg) == Min1(Contribution(Score(s, k), Gate(cfg, k)))
  {
    hide Contribution;
    ContributionFacts(s.rep, cfg.repetition);
    ContributionFacts(s.srl, cfg.selfReferential);
    ContributionFacts(s.tvs, cfg.tokenVelocity);
    ContributionFacts(s.tra, cfg.toolRetry);
    assert forall j: Kind | j != k :: Silent(s, cfg, j);
    match k
    case Repetition => assert Silent(s, cfg, SelfReferential) && Silent(s, cfg, TokenVelocity) && Silent(s, cfg, ToolRetry);
    case SelfReferential => assert Silent(s, cfg, Repetition) && Silent(s, cfg, TokenVelocity) && Silent(s, cfg, ToolRetry);
    case TokenVelocity => assert Silent(s, cfg, Repetition) && Silent(s, cfg, SelfReferential) && Silent(s, cfg, ToolRetry);
    case ToolRetry => assert Silent(s, cfg, Repetition) && Silent(s, cfg, SelfReferential) && Silent(s, cfg, TokenVelocity);
  }

  /** A signal alone counts from nothing at its gate to one at one. */
  lemma AloneEndpoints(s: Scores, cfg: Cfg, k: Kind)
    requires Alone(s, cfg, k) && Gate(cfg, k) < 1.0
    ensures Combine(With(s, k, Gate(cfg, k)), cfg) == 0.0
    ensures Combine(With(s, k, 1.0), cfg) == 1.0
    ensures Combine(With(s, k, (Gate(cfg, k) + 1.0) / 2.0), cfg) == 0.5
  {
    hide Combine, Contribution, Times;
    var g := Gate(cfg, k);
    AloneAt(s, cfg, k, g);
    AloneAt(s, cfg, k, 1.0);
    AloneAt(s, cfg, k, (g + 1.0) / 2.0);
    TimesParts(1.0 - g);
    TimesInjective(Combine(With(s, k, g), cfg), 0.0, 1.0 - g);
    TimesInjective(Combine(With(s, k, 1.0), cfg), 1.0, 1.0 - g);
    TimesInjective(Combine(With(s, k, (g + 1.0) / 2.0), cfg), 0.5, 1.0 - g);
  }

  lemma AloneAt(s: Scores, cfg: Cfg, k: Kind, x: real)
    requires Alone(s, cfg, k) && Gate(cfg, k) <= x <= 1.0 && Gate(cfg, k) < 1.0
    ensures Times(Combine(With(s, k, x), cfg), 1.0 - Gate(cfg, k)) == x - Gate(cfg, k)
  {
    hide Combine, Contribution, Times;
    var s' := With(s, k, x);
    assert Alone(s', cfg, k) && Score(s', k) == x by {
      forall j: Kind | j != k
        ensures Silent(s', cfg, j)
      {
        assert Silent(s, cfg, j);
      }
    }
    AloneIsContribution(s', cfg, k);
    ContributionFacts(x, Gate(cfg, k));
    ContributionFacts(1.0, Gate(cfg, k));
    ContributionMonotone(x, 1.0, Gate(cfg, k));
  }

  /** Between gate and one, equal steps of a signal alone are equal steps of the
      cumulative score. */
  lemma AloneIsLinear(s: Scores, cfg: Cfg, k: Kind, x: real, y: real, x': real, y': real)
    requires Alone(s, cfg, k) && Gate(cfg, k) < 1.0
    requires Gate(cfg, k) <= x <= 1.0 && Gate(cfg, k) <= y <= 1.0
    requires Gate(cfg, k) <= x' <= 1.0 && Gate(cfg, k) <= y' <= 1.0 && y - x == y' - x'
    ensures Combine(With(s, k, y), cfg) - Combine(With(s, k, x), cfg)
         == Combine(With(s, k, y'), cfg) - Combine(With(s, k, x'), cfg)
  {
    hide Combine, Contribution, With, Times;
    AloneAt(s, cfg, k, x);
    AloneAt(s, cfg, k, y);
    AloneAt(s, cfg, k, x');
    AloneAt(s, cfg, k, y');
    var (a, b, c, d) := (Combine(With(s, k, x), cfg), Combine(With(s, k, y), cfg),
                         Combine(With(s, k, x'), cfg), Combine(With(s, k, y'), cfg));
    var span := 1.0 - Gate(cfg, k);
    TimesSum(a, b - a, span);
    TimesSum(c, d - c, span);
    TimesInjective(b - a, d - c, span);
  }

  /** Signals add up: putting one signal to any others gives the sum of what
      the others give and of what it gives alone, or one if that is less. Two
      signals past their gates are the case where the others are one signal. */
  lemma SignalsAdd(s: Scores, cfg: Cfg, k: Kind, quiet: Scores, alone: Scores)
    requires Silent(quiet, cfg, k) && quiet == With(s, k, Score(quiet, k))
    requires Alone(alone, cfg, k) && Score(alone, k) == Score(s, k)
    ensures Combine(s, cfg) == Min1(Combine(quiet, cfg) + Combine(alone, cfg))
  {
    hide Contribution;
    AloneIsContribution(alone, cfg, k);
    ContributionFacts(s.rep, cfg.repetition);
    ContributionFacts(s.srl, cfg.selfReferential);
    ContributionFacts(s.tvs, cfg.tokenVelocity);
    ContributionFacts(s.tra, cfg.toolRetry);
    ContributionFacts(Score(quiet, k), Gate(cfg, k));
  }

  // ---------------------------------------------------------------------
  // The tier
  // ---------------------------------------------------------------------

  predicate Met(t: Tier, c: real, cfg: Cfg) {
    match t
    case NoTier => true
    case Soft => c >= cfg.soft
    case Medium => c >= cfg.medium
    case Hard => c >= cfg.hard
  }

  /** The highest tier whose threshold is met, in whatever order they are. */
  lemma TierIsHighestMet(c: real, cfg: Cfg, t: Tier)
    ensures Met(TierFor(c, cfg), c, cfg)
    ensures Met(t, c, cfg) ==> Rank(t) <= Rank(TierFor(c, cfg))
  {
  }

  /** An injected signal replaces the latest score of its kind, clamped, and no
      other; the buffer of observations is left alone. */
  lemma SignalReplacesOne(cfg: Cfg, a: Agent, k: Kind, x: real)
    ensures var a' := Signalled(cfg, a, k, x);
            && LatestScores(a') == With(LatestScores(a), k, Clamp(x)) && a'.observations == a.observations
            && a'.tier == TierFor(Combine(LatestScores(a'), cfg), cfg)
  {
    hide Combine, TierFor;
  }

  /** One injected signal at full strength asks for the hardest tier, for any
      agent and any thresholds within range. */
  lemma SaturatedSignalIsHard(cfg: Cfg, a: Agent, k: Kind, x: real)
    requires x >= 1.0 && Gate(cfg, k) <= 1.0 && cfg.hard <= 1.0
    ensures Signalled(cfg, a, k, x).tier == Hard
  {
    hide Combine;
    SignalReplacesOne(cfg, a, k, x);
    OneSaturates(LatestScores(Signalled(cfg, a, k, x)), cfg, k);
  }

  /** So it is with the thresholds the monitor starts from. */
  lemma DefaultsGoHard(a: Agent, k: Kind)
    ensures Session.AllInUnit(Migration.DEFAULTS)
    ensures Signalled(Effective(Migration.DEFAULTS), a, k, 1.0).tier == Hard
  {
    hide Signalled, Handoff.Decode;
    FloatOrder.DefaultsAreValid();
    SaturatedSignalIsHard(Effective(Migration.DEFAULTS), a, k, 1.0);
  }

  // ---------------------------------------------------------------------
  // The scores of a window
  // ---------------------------------------------------------------------

  ghost function Where(obs: seq<Observation>, p: Observation -> bool): set<nat> {
    set i: nat | i < |obs| && p(obs[i])
  }

  lemma {:induction false} CountIfCounts(obs: seq<Observation>, p: Observation -> bool)
    ensures CountIf(obs, p) == |Where(obs, p)|
    decreases |obs|
  {
    if obs == [] {
      assert Where(obs, p) == {};
    } else {
      var n := |obs| - 1;
      CountIfCounts(obs[..n], p);
      if p(obs[n]) {
        assert Where(obs, p) == Where(obs[..n], p) + {n};
      } else {
        assert Where(obs, p) == Where(obs[..n], p);
      }
    }
  }

  ghost function CallSites(obs: seq<Observation>): set<nat> {
    set i: nat | i < |obs| && obs[i].toolCall.Some?
  }

  ghost function DistinctCalls(obs: seq<Observation>): set<string> {
    set i: nat | i < |obs| && obs[i].toolCall.Some? :: obs[i].toolCall.value
  }

  lemma {:induction false} CallsAreSites(obs: seq<Observation>)
    ensures |Calls(obs)| == |CallSites(obs)| && Elements(Calls(obs)) == DistinctCalls(obs)
    decreases |obs|
  {
    hide CallSites, DistinctCalls, Elements;
    if obs == [] {
      NoCalls();
    } else {
      var n := |obs| - 1;
      CallsAreSites(obs[..n]);
      LastSite(obs[..n], obs[n]);
      LastCall(obs[..n], obs[n]);
      assert obs == obs[..n] + [obs[n]];
      if obs[n].toolCall.Some? {
        OneMoreElement(Calls(obs[..n]), obs[n].toolCall.value);
      } else {
        assert Calls(obs) == Calls(obs[..n]);
      }
    }
  }

  lemma NoCalls()
    ensures CallSites([]) == {} && DistinctCalls([]) == {} && Elements(Calls([])) == {}
  {
  }

  lemma LastSite(front: seq<Observation>, o: Observation)
    ensures |CallSites(front + [o])| == |CallSites(front)| + if o.toolCall.Some? then 1 else 0
  {
    var n := |front|;
    if o.toolCall.Some? {
      assert CallSites(front + [o]) == CallSites(front) + {n};
    } else {
      assert CallSites(front + [o]) == CallSites(front);
    }
  }

  lemma LastCall(front: seq<Observation>, o: Observation)
    ensures DistinctCalls(front + [o]) == DistinctCalls(front) + if o.toolCall.Some? then {o.toolCall.value} else {}
  {
    var obs := front + [o];
    assert forall i | 0 <= i < |front| :: obs[i] == front[i];
    assert obs[|front|] == o;
    forall c | c in DistinctCalls(front)
      ensures c in DistinctCalls(obs)
    {
      var i: nat :| i < |front| && front[i].toolCall == Some(c);
      assert obs[i].toolCall == Some(c);
    }
  }

  lemma OneMoreElement(s: seq<string>, c: string)
    ensures Elements(s + [c]) == Elements(s) + {c}
  {
  }

  /** Repetition, announcements and retries as shares: what distinct outputs
      leave over, how many observations announced without acting, what distinct
      calls leave over of those made. */
  lemma ScoresAreShares(obs: seq<Observation>)
    ensures var s := ScoresOf(obs);
            var sites := CallSites(obs);
            && |Elements(Hashes(obs))| <= |obs| && |DistinctCalls(obs)| <= |sites|
            && s.rep == Ratio(|obs| - |Elements(Hashes(obs))|, |obs|)
            && s.srl == Ratio(|set i: nat | i < |obs| && obs[i].announced|, |obs|)
            && s.tra == Ratio(|sites| - |DistinctCalls(obs)|, |sites|)
  {
    hide Ratio, Velocity, Repeats, Elements, Calls, CountIf, CallSites, DistinctCalls, Hashes;
    RepeatsAreTheRest(Hashes(obs));
    RepeatsAreTheRest(Calls(obs));
    CallsAreSites(obs);
    CountIfCounts(obs, ANNOUNCED);
    assert Where(obs, ANNOUNCED) == set i: nat | i < |obs| && obs[i].announced;
  }

  /** The stall score is the token rate, at most one, times the share of
      observations without progress. */
  lemma StallIsShare(obs: seq<Observation>)
    requires obs != []
    ensures var idle := set i: nat | i < |obs| && !obs[i].advanced;
            ScoresOf(obs).tvs == Rate(Tokens(obs), |obs|) * Ratio(|idle|, |obs|)
  {
    hide Repeats, Elements, Calls, CountIf, Hashes, Tokens, Rate, Ratio, Stall;
    var a, b, n := CountIf(obs, ADVANCED), CountIf(obs, IDLING), |obs|;
    CountIfSplits(obs);
    CountIfCounts(obs, IDLING);
    assert Where(obs, IDLING) == set i: nat | i < |obs| && !obs[i].advanced;
    RestOf(a, b, n);
    StallProduct(Tokens(obs), a, b, n);
    NoTokensNoRate(n);
  }

  const IDLING: Observation -> bool := (o: Observation) => !o.advanced

  lemma {:induction false} CountIfSplits(obs: seq<Observation>)
    ensures CountIf(obs, ADVANCED) + CountIf(obs, IDLING) == |obs|
    decreases |obs|
  {
    if obs != [] {
      CountIfSplits(obs[..|obs| - 1]);
    }
  }

  lemma StallProduct(total: nat, a: nat, b: nat, n: nat)
    requires n > 0 && a + b == n
    ensures Stall(total, a, n) == Rate(total, n) * Ratio(b, n)
  {
    hide Rate, Ratio;
    RestOf(a, b, n);
    RatioInUnit(b, n);
    RateSaturates(total, n);
    UnitProduct(Rate(total, n), Ratio(b, n));
  }

  lemma NoTokensNoRate(n: nat)
    requires n > 0
    ensures Rate(0, n) == 0.0
  {
    RateSaturates(0, n);
  }

  lemma RestOf(a: nat, b: nat, n: nat)
    requires n > 0 && a + b == n
    ensures 1.0 - Ratio(a, n) == Ratio(b, n)
  {
    RatioTimes(a, n);
    RatioTimes(b, n);
    hide Ratio, Times;
    PartsOfOne(Ratio(a, n), Ratio(b, n), a as real, b as real, n as real);
  }

  lemma RatioTimes(a: nat, n: nat)
    requires n > 0
    ensures Times(Ratio(a, n), n as real) == a as real
  {
  }

  lemma PartsOfOne(p: real, q: real, a: real, b: real, d: real)
    requires d > 0.0 && Times(p, d) == a && Times(q, d) == b && a + b == d
    ensures p + q == 1.0
  {
    hide Times;
    TimesSum(p, q, d);
    TimesParts(d);
    TimesInjective(p + q, 1.0, d);
  }
}
