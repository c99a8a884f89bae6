/**
The degradation monitor: sliding windows per agent, the four scorers, their
combination and the response tier. Scores are real numbers.
 */
module Monitor {
  import opened Common
  import Handoff
  import Session = ConfigSession

  datatype Cfg = Cfg(
    repetition: real, selfReferential: real, tokenVelocity: real, toolRetry: real,
    soft: real, medium: real, hard: real, window: nat)

  datatype Observation = Observation(
    outputHash: string, tokenCount: Handoff.Bits, announced: bool, toolCall: Option<string>, advanced: bool)

  datatype Tier = NoTier | Soft | Medium | Hard

  datatype Kind = Repetition | SelfReferential | TokenVelocity | ToolRetry

  datatype Scores = Scores(rep: real, srl: real, tvs: real, tra: real)

  datatype Agent = Agent(observations: seq<Observation>, last: map<Kind, real>, tier: Tier)

  const NEW_AGENT := Agent([], map[], NoTier)

  predicate Unit1(r: real) {
    0.0 <= r <= 1.0
  }

  function Clamp(r: real): (c: real)
    ensures Unit1(c) && (Unit1(r) ==> c == r)
  {
    if r < 0.0 then 0.0 else if r > 1.0 then 1.0 else r
  }

  // ---------------------------------------------------------------------
  // The scorers
  // ---------------------------------------------------------------------

  ghost function Elements<T(!new)>(s: seq<T>): set<T> {
    set x | x in s
  }

  function Ratio(part: nat, whole: nat): real {
    if whole == 0 then 0.0 else part as real / whole as real
  }

  lemma NothingOf(whole: nat)
    ensures Ratio(0, whole) == 0.0
  {
  }

  lemma RatioInUnit(part: nat, whole: nat)
    requires part <= whole
    ensures Unit1(Ratio(part, whole))
  {
  }

  /** How many elements repeat an earlier one. */
  function Repeats(s: seq<string>): (n: nat)
    ensures n <= |s|
  {
    if s == [] then 0
    else Repeats(s[..|s| - 1]) + if s[|s| - 1] in s[..|s| - 1] then 1 else 0
  }

  /** Repeats are what distinct elements leave over. */
  lemma {:induction false} RepeatsAreTheRest(s: seq<string>)
    ensures Repeats(s) == |s| - |Elements(s)|
    decreases |s|
  {
    if s != [] {
      var n := |s| - 1;
      RepeatsAreTheRest(s[..n]);
      assert s == s[..n] + [s[n]];
      assert Elements(s) == Elements(s[..n]) + {s[n]};
      assert s[n] in s[..n] <==> s[n] in Elements(s[..n]);
      assert s[n] in Elements(s[..n]) ==> Elements(s) == Elements(s[..n]);
    } else {
      assert Elements(s) == {};
    }
  }

  function Hashes(obs: seq<Observation>): (s: seq<string>)
    ensures |s| == |obs|
  {
    seq(|obs|, i requires 0 <= i < |obs| => obs[i].outputHash)
  }

  function Calls(obs: seq<Observation>): (s: seq<string>)
    ensures |s| <= |obs|
  {
    if obs == [] then []
    else Calls(obs[..|obs| - 1]) + match obs[|obs| - 1].toolCall { case Some(c) => [c] case None => [] }
  }

  function CountIf(obs: seq<Observation>, p: Observation -> bool): (n: nat)
    ensures n <= |obs|
  {
    if obs == [] then 0 else CountIf(obs[..|obs| - 1], p) + if p(obs[|obs| - 1]) then 1 else 0
  }

  /** Token counts added up in 32 bits. */
  function Tokens(obs: seq<Observation>): (n: nat)
    ensures n < Handoff.U32_LIMIT
  {
    if obs == [] then 0 else (Tokens(obs[..|obs| - 1]) + obs[|obs| - 1].tokenCount) % Handoff.U32_LIMIT
  }

  const ANNOUNCED: Observation -> bool := (o: Observation) => o.announced
  const ADVANCED: Observation -> bool := (o: Observation) => o.advanced

  /** Tokens per observation against 256, at most one. */
  function Rate(total: nat, n: nat): real
    requires n > 0
  {
    var rate := total as real / n as real / 256.0;
    if rate < 1.0 then rate else 1.0
  }

  /** The rate times the share without progress. */
  function Stall(total: nat, progressed: nat, n: nat): (r: real)
    requires n > 0
    ensures Unit1(r)
  {
    Clamp(Rate(total, n) * (1.0 - Ratio(progressed, n)))
  }

  function Velocity(obs: seq<Observation>): (r: real)
    ensures Unit1(r)
  {
    if obs == [] || Tokens(obs) == 0 then 0.0 else Stall(Tokens(obs), CountIf(obs, ADVANCED), |obs|)
  }

  /** The four scores of a window. */
  function ScoresOf(obs: seq<Observation>): Scores {
    Scores(
      Ratio(Repeats(Hashes(obs)), |obs|),
      Ratio(CountIf(obs, ANNOUNCED), |obs|),
      Velocity(obs),
      Ratio(Repeats(Calls(obs)), |Calls(obs)|))
  }

  lemma ScoresInUnit(obs: seq<Observation>)
    ensures var s := ScoresOf(obs); Unit1(s.rep) && Unit1(s.srl) && Unit1(s.tvs) && Unit1(s.tra)
  {
    hide Ratio, Velocity;
    RatioInUnit(Repeats(Hashes(obs)), |obs|);
    RatioInUnit(CountIf(obs, ANNOUNCED), |obs|);
    RatioInUnit(Repeats(Calls(obs)), |Calls(obs)|);
  }

  /** A window scores no stall exactly when it is empty, its 32-bit token sum is
      zero, or every observation made progress. */
  lemma NoStallIff(obs: seq<Observation>)
    ensures Velocity(obs) == 0.0 <==> obs == [] || Tokens(obs) == 0 || CountIf(obs, ADVANCED) == |obs|
  {
    hide Tokens, CountIf, Stall;
    if obs != [] && Tokens(obs) != 0 {
      StallPositive(Tokens(obs), CountIf(obs, ADVANCED), |obs|);
    }
  }

  lemma StallPositive(total: nat, progressed: nat, n: nat)
    requires n > 0 && total > 0 && progressed <= n
    ensures Stall(total, progressed, n) > 0.0 <==> progressed < n
  {
    StallsCompare(0, total, progressed, n);
  }

  /** The sum wraps: a window that put out 2^32 tokens without any progress
      counts as no stall. */
  lemma StallLostToWrap(h: string)
    ensures var o := Observation(h, 0x8000_0000, false, None, false);
            Tokens([o, o]) == 0 && Velocity([o, o]) == 0.0
  {
    var o := Observation(h, 0x8000_0000, false, None, false);
    assert [o, o][..1] == [o] && [o][..0] == [];
    assert Tokens([o]) == 0x8000_0000;
  }

  /** Token counts added up without bound, and the score that sum would give. */
  function AllTokens(obs: seq<Observation>): nat {
    if obs == [] then 0 else AllTokens(obs[..|obs| - 1]) + obs[|obs| - 1].tokenCount
  }

  function TrueVelocity(obs: seq<Observation>): real {
    if obs == [] || AllTokens(obs) == 0 then 0.0 else Stall(AllTokens(obs), CountIf(obs, ADVANCED), |obs|)
  }

  lemma {:induction false} TokensWrap(obs: seq<Observation>)
    ensures Tokens(obs) == AllTokens(obs) % Handoff.U32_LIMIT
    decreases |obs|
  {
    if obs != [] {
      TokensWrap(obs[..|obs| - 1]);
    }
  }

  /** The 32-bit sum gives the score of the true sum exactly when the window is
      empty, every observation made progress, the sum does not wrap, or what is
      left of it still saturates the rate. */
  lemma StallIsTrueIff(obs: seq<Observation>)
    ensures Velocity(obs) == TrueVelocity(obs) <==>
            || obs == [] || CountIf(obs, ADVANCED) == |obs|
            || AllTokens(obs) < Handoff.U32_LIMIT || Tokens(obs) >= 256 * |obs|
  {
    hide Tokens, AllTokens, CountIf, Stall;
    TokensWrap(obs);
    if obs != [] {
      var w, t, a, n := Tokens(obs), AllTokens(obs), CountIf(obs, ADVANCED), |obs|;
      if t >= Handoff.U32_LIMIT {
        StallsCompare(w, t, a, n);
        StallPositive(t, a, n);
      }
    }
  }

  lemma RateSaturates(w: nat, n: nat)
    requires n > 0
    ensures 0.0 <= Rate(w, n) <= 1.0 && (Rate(w, n) == 1.0 <==> w >= 256 * n) && (w == 0 ==> Rate(w, n) == 0.0)
  {
    var z := w as real / n as real;
    assert z * n as real == w as real;
    if z < 256.0 {
      ProductBelow(z, 256.0, n as real);
    } else if z > 256.0 {
      ProductBelow(256.0, z, n as real);
    }
  }

  lemma RateGrows(w: nat, t: nat, n: nat)
    requires n > 0 && w < t && w < 256 * n
    ensures Rate(w, n) < Rate(t, n)
  {
    RateSaturates(w, n);
    var z, y := w as real / n as real, t as real / n as real;
    assert z * n as real == w as real && y * n as real == t as real;
    if y < z {
      ProductBelow(y, z, n as real);
    }
  }

  lemma ProductBelow(x: real, y: real, f: real)
    requires x < y && f > 0.0
    ensures x * f < y * f
  {
  }

  lemma RatioIsOne(a: nat, n: nat)
    requires n > 0 && a <= n
    ensures 0.0 <= Ratio(a, n) <= 1.0 && (Ratio(a, n) == 1.0 <==> a == n)
  {
  }

  lemma StallsCompare(w: nat, t: nat, a: nat, n: nat)
    requires n > 0 && w < t && a <= n
    ensures Stall(w, a, n) == Stall(t, a, n) <==> a == n || w >= 256 * n
    ensures a == n ==> Stall(t, a, n) == 0.0 && Stall(w, a, n) == 0.0
    ensures w == 0 ==> Stall(w, a, n) == 0.0
  {
    hide Ratio, Rate;
    RatioIsOne(a, n);
    RateSaturates(w, n);
    RateSaturates(t, n);
    var f := 1.0 - Ratio(a, n);
    UnitProduct(Rate(w, n), f);
    UnitProduct(Rate(t, n), f);
    if a < n && w < 256 * n {
      RateGrows(w, t, n);
      ProductBelow(Rate(w, n), Rate(t, n), f);
    }
  }

  lemma UnitProduct(x: real, f: real)
    requires Unit1(x) && Unit1(f)
    ensures Unit1(x * f) && (f == 0.0 || x == 0.0 ==> x * f == 0.0)
  {
    if f > 0.0 && x > 0.0 {
      ProductBelow(0.0, x, f);
    }
    if f > 0.0 && x < 1.0 {
      ProductBelow(x, 1.0, f);
    }
  }

  method CountRepeats(s: seq<string>) returns (hits: nat)
    ensures hits == Repeats(s)
  {
    hits := 0;
    for i := 0 to |s|
      invariant hits == Repeats(s[..i])
    {
      assert s[..i + 1][..i] == s[..i];
      if s[i] in s[..i] {
        hits := hits + 1;
      }
    }
    assert s[..|s|] == s;
  }

  /** The share of observations whose output was seen before: whatever is left
      of the window once each distinct output is counted once. */
  method RepetitionScore(obs: seq<Observation>) returns (r: real)
    ensures r == ScoresOf(obs).rep
    ensures |Elements(Hashes(obs))| <= |obs| && r == Ratio(|obs| - |Elements(Hashes(obs))|, |obs|)
  {
    hide Ratio, Velocity, Repeats, CountIf, Calls, Hashes, Elements;
    NothingOf(|obs|);
    RepeatsAreTheRest(Hashes(obs));
    SingleHasNone(Hashes(obs));
    if |obs| < 2 {
      return 0.0;
    }
    var hits := CountRepeats(Hashes(obs));
    return Ratio(hits, |obs|);
  }

  lemma SingleHasNone(s: seq<string>)
    ensures |s| < 2 ==> Repeats(s) == 0
  {
    if |s| == 1 {
      assert s[..0] == [];
    }
  }

  method SelfReferentialScore(obs: seq<Observation>) returns (r: real)
    ensures r == ScoresOf(obs).srl
  {
    NothingOf(0);
    hide Ratio, Velocity, Repeats, Calls, Hashes;
    if obs == [] {
      return 0.0;
    }
    var announced := 0;
    for i := 0 to |obs|
      invariant announced == CountIf(obs[..i], ANNOUNCED)
    {
      assert obs[..i + 1][..i] == obs[..i];
      if obs[i].announced {
        announced := announced + 1;
      }
    }
    assert obs[..|obs|] == obs;
    return Ratio(announced, |obs|);
  }

  method TokenVelocityScore(obs: seq<Observation>) returns (r: real)
    ensures r == ScoresOf(obs).tvs
  {
    hide Ratio, Stall, Repeats, Calls, Hashes;
    if obs == [] {
      return 0.0;
    }
    var total, progressed := 0, 0;
    for i := 0 to |obs|
      invariant total == Tokens(obs[..i]) && progressed == CountIf(obs[..i], ADVANCED)
    {
      assert obs[..i + 1][..i] == obs[..i];
      total := (total + obs[i].tokenCount) % Handoff.U32_LIMIT;
      if obs[i].advanced {
        progressed := progressed + 1;
      }
    }
    assert obs[..|obs|] == obs;
    if total == 0 {
      return 0.0;
    }
    return Stall(total, progressed, |obs|);
  }

  method ToolRetryScore(obs: seq<Observation>) returns (r: real)
    ensures r == ScoresOf(obs).tra
  {
    hide Ratio, Velocity, Repeats, CountIf, Hashes;
    SingleHasNone(Calls(obs));
    NothingOf(|Calls(obs)|);
    var calls := [];
    for i := 0 to |obs|
      invariant calls == Calls(obs[..i])
    {
      assert obs[..i + 1][..i] == obs[..i];
      if obs[i].toolCall.Some? {
        calls := calls + [obs[i].toolCall.value];
      }
    }
    assert obs[..|obs|] == obs;
    if |obs| < 2 || |calls| < 2 {
      return 0.0;
    }
    var dups := CountRepeats(calls);
    return Ratio(dups, |calls|);
  }

  // ---------------------------------------------------------------------
  // Combination and tier
  // ---------------------------------------------------------------------

  function Contribution(score: real, gate: real): real {
    if score < gate then 0.0
    else if 1.0 - gate <= 0.0 then 1.0
    else (score - gate) / (1.0 - gate)
  }

  function Combine(s: Scores, cfg: Cfg): (c: real)
    ensures Unit1(c)
  {
    Clamp(Contribution(s.rep, cfg.repetition) + Contribution(s.srl, cfg.selfReferential)
        + Contribution(s.tvs, cfg.tokenVelocity) + Contribution(s.tra, cfg.toolRetry))
  }

  function TierFor(c: real, cfg: Cfg): Tier {
    if c >= cfg.hard then Hard
    else if c >= cfg.medium then Medium
    else if c >= cfg.soft then Soft
    else NoTier
  }

  function Rank(t: Tier): nat {
    match t case NoTier => 0 case Soft => 1 case Medium => 2 case Hard => 3
  }

  predicate Raised(s: Scores, s': Scores) {
    s.rep <= s'.rep && s.srl <= s'.srl && s.tvs <= s'.tvs && s.tra <= s'.tra
  }

  lemma QuotientMonotone(a: real, b: real, d: real)
    requires a <= b && d > 0.0
    ensures a / d <= b / d && (0.0 <= a ==> 0.0 <= a / d)
  {
  }

  lemma ContributionMonotone(x: real, y: real, gate: real)
    requires x <= y
    ensures Contribution(x, gate) <= Contribution(y, gate)
  {
    if 1.0 - gate > 0.0 {
      QuotientMonotone(x - gate, y - gate, 1.0 - gate);
      if y >= gate {
        QuotientMonotone(0.0, y - gate, 1.0 - gate);
      }
    }
  }

  /** Raising signals never lowers the tier, whatever the thresholds: neither
      their order nor their range is needed. */
  lemma TierMonotone(s: Scores, s': Scores, cfg: Cfg)
    requires Raised(s, s')
    ensures Combine(s, cfg) <= Combine(s', cfg)
    ensures Rank(TierFor(Combine(s, cfg), cfg)) <= Rank(TierFor(Combine(s', cfg), cfg))
  {
    hide Contribution;
    ContributionMonotone(s.rep, s'.rep, cfg.repetition);
    ContributionMonotone(s.srl, s'.srl, cfg.selfReferential);
    ContributionMonotone(s.tvs, s'.tvs, cfg.tokenVelocity);
    ContributionMonotone(s.tra, s'.tra, cfg.toolRetry);
  }

  /** Each threshold decides its own tier. */
  ghost predicate Exact(c: real, cfg: Cfg) {
    && (Rank(TierFor(c, cfg)) >= 3 <==> c >= cfg.hard)
    && (Rank(TierFor(c, cfg)) >= 2 <==> c >= cfg.medium)
    && (Rank(TierFor(c, cfg)) >= 1 <==> c >= cfg.soft)
  }

  ghost predicate ExactEverywhere(cfg: Cfg) {
    forall c | Unit1(c) :: Exact(c, cfg)
  }

  /** What the order of the tier thresholds buys, exactly. */
  lemma OrderIsExactness(cfg: Cfg)
    requires Unit1(cfg.soft) && Unit1(cfg.medium) && Unit1(cfg.hard)
    ensures ExactEverywhere(cfg) <==> cfg.soft <= cfg.medium <= cfg.hard
  {
    if ExactEverywhere(cfg) {
      assert Exact(cfg.hard, cfg) && Exact(cfg.medium, cfg);
    }
  }

  /** The thresholds as numbers. */
  function Effective(t: Handoff.Thresholds): Cfg
    requires Session.AllInUnit(t)
  {
    Cfg(Handoff.Decode(t.repetition).value, Handoff.Decode(t.selfReferential).value,
        Handoff.Decode(t.tokenVelocity).value, Handoff.Decode(t.toolRetry).value,
        Handoff.Decode(t.soft).value, Handoff.Decode(t.medium).value, Handoff.Decode(t.hard).value, t.window)
  }

  /** A configuration that Safe Mode lets through has exact tiers. */
  lemma SavedTiersAreExact(t: Handoff.Thresholds)
    requires Session.ValidConfig(t)
    ensures ExactEverywhere(Effective(t)) && 1 <= Effective(t).window <= Session.MAX_WINDOW
  {
    hide ExactEverywhere, Handoff.Decode;
    OrderIsExactness(Effective(t));
  }

  // ---------------------------------------------------------------------
  // The monitor
  // ---------------------------------------------------------------------

  /** The last `w` elements. */
  function Last(obs: seq<Observation>, w: nat): seq<Observation> {
    if |obs| <= w then obs else obs[|obs| - w..]
  }

  function TierOf(cfg: Cfg, obs: seq<Observation>): Tier {
    TierFor(Combine(ScoresOf(obs), cfg), cfg)
  }

  function AgentOf(state: map<string, Agent>, id: string): Agent {
    if id in state then state[id] else NEW_AGENT
  }

  function Observed(cfg: Cfg, a: Agent, o: Observation): Agent {
    var obs := Last(a.observations + [o], cfg.window);
    var s := ScoresOf(obs);
    Agent(obs, map[Repetition := s.rep, SelfReferential := s.srl, TokenVelocity := s.tvs, ToolRetry := s.tra], TierOf(cfg, obs))
  }

  function Latest(a: Agent, k: Kind): real {
    if k in a.last then a.last[k] else 0.0
  }

  function LatestScores(a: Agent): Scores {
    Scores(Latest(a, Repetition), Latest(a, SelfReferential), Latest(a, TokenVelocity), Latest(a, ToolRetry))
  }

  function Signalled(cfg: Cfg, a: Agent, k: Kind, score: real): Agent {
    var a' := a.(last := a.last[k := Clamp(score)]);
    a'.(tier := TierFor(Combine(LatestScores(a'), cfg), cfg))
  }

  class DegradationMonitor {
    var cfg: Cfg
    var state: map<string, Agent>

    constructor (defaults: Cfg)
      ensures cfg == defaults && state == map[]
    {
      cfg, state := defaults, map[];
    }

    method SetThresholds(c: Cfg)
      modifies `cfg
      ensures cfg == c
    {
      cfg := c;
    }

    /** The agent's window is trimmed from the front and rescored. */
    method Observe(id: string, o: Observation) returns (tier: Tier)
      modifies `state
      ensures state == Step(cfg, old(state), See(id, o))
      ensures tier == TierOf(cfg, Last(AgentOf(old(state), id).observations + [o], cfg.window))
    {
      hide ScoresOf, Combine, TierFor;
      var a := AgentOf(state, id);
      var obs := a.observations + [o];
      ghost var all := obs;
      while |obs| > cfg.window
        invariant obs == all || (|obs| >= cfg.window && |obs| <= |all| && obs == all[|all| - |obs|..])
      {
        obs := obs[1..];
      }
      var s := ComputeScores(obs);
      tier := TierFor(Combine(s, cfg), cfg);
      var last := a.last[Repetition := s.rep][SelfReferential := s.srl][TokenVelocity := s.tvs][ToolRetry := s.tra];
      AllKinds(a.last, s);
      state := state[id := Agent(obs, last, tier)];
    }

    method ComputeScores(obs: seq<Observation>) returns (s: Scores)
      ensures s == ScoresOf(obs)
    {
      hide ScoresOf;
      var rep := RepetitionScore(obs);
      var srl := SelfReferentialScore(obs);
      var tvs := TokenVelocityScore(obs);
      var tra := ToolRetryScore(obs);
      s := Scores(rep, srl, tvs, tra);
    }

    method RecordSignal(id: string, k: Kind, score: real) returns (tier: Tier)
      modifies `state
      ensures state == Step(cfg, old(state), Signal(id, k, score)) && id in state
      ensures tier == state[id].tier
    {
      hide Combine, TierFor;
      var a := AgentOf(state, id);
      var a' := a.(last := a.last[k := Clamp(score)]);
      tier := TierFor(Combine(LatestScores(a'), cfg), cfg);
      state := state[id := a'.(tier := tier)];
    }

    method Forget(id: string)
      modifies `state
      ensures state == Step(cfg, old(state), Drop(id)) && id !in state
    {
      state := state - {id};
    }
  }

  /** The four kinds are all there are. */
  lemma AllKinds(last: map<Kind, real>, s: Scores)
    ensures last[Repetition := s.rep][SelfReferential := s.srl][TokenVelocity := s.tvs][ToolRetry := s.tra] ==
            map[Repetition := s.rep, SelfReferential := s.srl, TokenVelocity := s.tvs, ToolRetry := s.tra]
  {
    forall k: Kind
      ensures k in map[Repetition := s.rep, SelfReferential := s.srl, TokenVelocity := s.tvs, ToolRetry := s.tra]
    {
      match k case Repetition => case SelfReferential => case TokenVelocity => case ToolRetry =>
    }
  }

  // ---------------------------------------------------------------------
  // Whole histories
  // ---------------------------------------------------------------------

  datatype Op =
    | See(id: string, o: Observation)
    | Signal(id: string, kind: Kind, score: real)
    | Drop(id: string)

  function Step(cfg: Cfg, state: map<string, Agent>, op: Op): map<string, Agent> {
    match op
    case See(id, o) => state[id := Observed(cfg, AgentOf(state, id), o)]
    case Signal(id, k, score) => state[id := Signalled(cfg, AgentOf(state, id), k, score)]
    case Drop(id) => state - {id}
  }

  /** The state after a history. */
  function Run(cfg: Cfg, ops: seq<Op>): map<string, Agent> {
    if ops == [] then map[] else Step(cfg, Run(cfg, ops[..|ops| - 1]), ops[|ops| - 1])
  }

  /** Everything seen of an agent since it was last dropped. */
  function History(ops: seq<Op>, id: string): seq<Observation> {
    if ops == [] then []
    else
      var before := History(ops[..|ops| - 1], id);
      match ops[|ops| - 1]
      case See(i, o) => if i == id then before + [o] else before
      case Signal(_, _, _) => before
      case Drop(i) => if i == id then [] else before
  }

  lemma LastOfLast(obs: seq<Observation>, w: nat, o: Observation)
    ensures Last(Last(obs, w) + [o], w) == Last(obs + [o], w)
  {
  }

  /** An agent's buffer is the last `window` observations of its history. */
  lemma {:induction false} WindowIsRecentHistory(cfg: Cfg, ops: seq<Op>, id: string)
    ensures AgentOf(Run(cfg, ops), id).observations == Last(History(ops, id), cfg.window)
    decreases |ops|
  {
    hide ScoresOf, Combine, TierFor, Last;
    if ops == [] {
      EmptyLast(cfg.window);
    } else {
      var front, op := ops[..|ops| - 1], ops[|ops| - 1];
      WindowIsRecentHistory(cfg, front, id);
      match op
      case See(i, o) => LastOfLast(History(front, id), cfg.window, o);
      case Signal(_, _, _) =>
      case Drop(_) => EmptyLast(cfg.window);
    }
  }

  lemma EmptyLast(w: nat)
    ensures Last([], w) == []
  {
  }

  /** The tier after an observation is a function of the last `window`
      observations alone, whatever else happened: other agents, injected
      signals, older observations. */
  lemma TierDependsOnWindow(cfg: Cfg, ops: seq<Op>, id: string, o: Observation)
    ensures Step(cfg, Run(cfg, ops), See(id, o))[id].tier == TierOf(cfg, Last(History(ops, id) + [o], cfg.window))
  {
    hide ScoresOf, Combine, TierFor, Last;
    WindowIsRecentHistory(cfg, ops, id);
    LastOfLast(History(ops, id), cfg.window, o);
  }

  /** Two histories that end in the same window get the same tier. */
  lemma SameWindowSameTier(cfg: Cfg, ops: seq<Op>, ops': seq<Op>, id: string, o: Observation)
    requires Last(History(ops, id) + [o], cfg.window) == Last(History(ops', id) + [o], cfg.window)
    ensures Step(cfg, Run(cfg, ops), See(id, o))[id] == Step(cfg, Run(cfg, ops'), See(id, o))[id]
  {
    hide ScoresOf, Combine, TierFor, Last;
    WindowIsRecentHistory(cfg, ops, id);
    WindowIsRecentHistory(cfg, ops', id);
    LastOfLast(History(ops, id), cfg.window, o);
    LastOfLast(History(ops', id), cfg.window, o);
  }

  /** Every score on record is in range after any history. */
  lemma {:induction false} RecordedScoresInUnit(cfg: Cfg, ops: seq<Op>, id: string, k: Kind)
    ensures Unit1(Latest(AgentOf(Run(cfg, ops), id), k))
    decreases |ops|
  {
    hide ScoresOf, Combine, TierFor, Last;
    if ops != [] {
      var front, op := ops[..|ops| - 1], ops[|ops| - 1];
      RecordedScoresInUnit(cfg, front, id, k);
      if op.See? {
        ScoresInUnit(Last(AgentOf(Run(cfg, front), id).observations + [op.o], cfg.window));
      }
    }
  }

  /** Injecting a higher score of one kind never gives a lower tier. */
  lemma HigherSignalHigherTier(cfg: Cfg, a: Agent, k: Kind, x: real, y: real)
    requires x <= y
    ensures Rank(Signalled(cfg, a, k, x).tier) <= Rank(Signalled(cfg, a, k, y).tier)
  {
    var ax, ay := a.(last := a.last[k := Clamp(x)]), a.(last := a.last[k := Clamp(y)]);
    assert Raised(LatestScores(ax), LatestScores(ay));
    hide Combine, TierFor;
    TierMonotone(LatestScores(ax), LatestScores(ay), cfg);
  }
}
