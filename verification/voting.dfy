/** `weighted_vote_with_confidence` (utils/voting.py), with the default agent weights it
    shares with main_ws.py and the pick of the most confident proposal's rationale that
    main_ws.py makes from its result. */
module Voting {

  import opened Wrappers
  import opened Text
  import opened JsonValue
  import opened Staging
  import opened Extraction
  import opened Confidence
  import opened Tally

  /** A dict from agent name to weight. */
  type WeightMap = ws: seq<(string, real)> | DistinctKeys(ws) witness []

  /** Agents whose name contains this get `SupervisorWeight` by default. */
  const SupervisorMarker: string := "Supervisor"
  const SupervisorWeight: real := 1.5
  const OtherWeight: real := 1.0
  /** `agent_weights.get(agent, 1.0)` for an agent the map lacks. */
  const MissingWeight: real := 1.0
  /** The vote share below which a factor is reported as a disagreement. */
  const AgreedShare: real := 0.7

  /** `conf_multiplier`: how much a vote of the given combined confidence counts. */
  function Multiplier(l: Level): (x: real)
    ensures 0.5 <= x <= 1.5
    ensures x == 1.5 <==> l == High
  {
    match l
    case High => 1.5
    case Medium => 1.0
    case Low => 0.5
  }

  // ---------------------------------------------------------------------------------------
  // Weights

  /** The default weight of an agent. */
  function AgentWeight(agent: string): real {
    if Contains(agent, SupervisorMarker) then SupervisorWeight else OtherWeight
  }

  function Agents(ps: seq<Proposal>): (r: seq<string>)
    ensures |r| == |ps| && forall i :: 0 <= i < |ps| ==> r[i] == ps[i].agent
  {
    seq(|ps|, i requires 0 <= i < |ps| => ps[i].agent)
  }

  /** The weights built when none are given: one entry per agent, in order of first
      appearance. */
  function DefaultWeights(ps: seq<Proposal>): (r: WeightMap)
    ensures forall i :: 0 <= i < |r| ==> r[i].1 == AgentWeight(r[i].0)
    decreases |ps|
  {
    if |ps| == 0 then []
    else
      var agent := ps[|ps| - 1].agent;
      Assign(DefaultWeights(ps[..|ps| - 1]), agent, AgentWeight(agent))
  }

  /** `agent_weights.get(agent, 1.0)` */
  function BaseWeight(ws: WeightMap, agent: string): real {
    Get(ws, agent).GetOr(MissingWeight)
  }

  /** `sum(agent_weights.values())` */
  function Total(ws: WeightMap): real {
    TotalWeight(ws)
  }

  /** `max_possible_weight`: what the votes would weigh if every agent voted once with high
      confidence. */
  function MaxPossible(ws: WeightMap): real {
    Total(ws) * 1.5
  }

  /** The weights the vote uses: the given dict, or the default when the argument is `None`
      (an empty dict given explicitly is used as it is). */
  function ChosenWeights(ps: seq<Proposal>, weights: Option<WeightMap>): WeightMap {
    if weights.Some? then weights.value else DefaultWeights(ps)
  }

  // ---------------------------------------------------------------------------------------
  // Per-proposal confidence

  /** A proposal with the annotations the vote adds to it. */
  datatype Scored = Scored(
    proposal: Proposal,
    evidence: Option<Evidence>,    // "case_confidence", set only when there is a case text
    agreement: Agreement,          // "agreement_confidence"
    combined: Triple<Level>)       // "combined_confidence"

  /** `if case_presentation:`: present and non-empty. */
  predicate CaseGiven(caseText: Option<string>) {
    caseText.Some? && |caseText.value| > 0
  }

  /** The level the case text gives factor `f`: "medium" when there is no case text. */
  function CaseLevel(evidence: Option<Evidence>, f: Factor): Level {
    if evidence.Some? then evidence.value.levels.Get(f) else Medium
  }

  /** The "combined_confidence" of a proposal: per factor, the lower of its two levels. */
  function Combined(evidence: Option<Evidence>, agreement: Agreement): (r: Triple<Level>)
    ensures forall f :: r.Get(f) == Lower(CaseLevel(evidence, f), agreement.levels.Get(f))
  {
    CombineIsLower(CaseLevel(evidence, T), agreement.levels.t);
    CombineIsLower(CaseLevel(evidence, N), agreement.levels.n);
    CombineIsLower(CaseLevel(evidence, M), agreement.levels.m);
    Triple(Combine(CaseLevel(evidence, T), agreement.levels.t),
           Combine(CaseLevel(evidence, N), agreement.levels.n),
           Combine(CaseLevel(evidence, M), agreement.levels.m))
  }

  /** `calculate_confidence_from_case(p, case_presentation)` when there is case text. The
      scorer never reads the proposal, so one value serves every proposal. */
  function CaseEvidence(u: CharSemantics, caseText: Option<string>): (r: Option<Evidence>)
    ensures r.Some? <==> CaseGiven(caseText)
    ensures r.Some? ==> r.value == FromCase(u, caseText.value)
  {
    if CaseGiven(caseText) then Some(FromCase(u, caseText.value)) else None
  }

  /** The annotations of one proposal, given the case evidence. */
  function Score(p: Proposal, all: seq<Proposal>, evidence: Option<Evidence>): (r: Scored)
    ensures r.proposal == p && r.evidence == evidence
  {
    var agreement := FromAgreement(p, all);
    Scored(p, evidence, agreement, Combined(evidence, agreement))
  }

  function ScoreAll(ps: seq<Proposal>, evidence: Option<Evidence>): (r: seq<Scored>)
    ensures |r| == |ps| && forall i :: 0 <= i < |ps| ==> r[i] == Score(ps[i], ps, evidence)
  {
    seq(|ps|, i requires 0 <= i < |ps| => Score(ps[i], ps, evidence))
  }

  // ---------------------------------------------------------------------------------------
  // Tallies

  /** `base_weight * conf_multiplier[level]`, one case per level. */
  function Weighted(base: real, l: Level): real {
    match l
    case High => base * 1.5
    case Medium => base
    case Low => base * 0.5
  }

  /** The votes for factor `f`, in proposal order: the value and its weighted base weight. */
  function VotesFor(scored: seq<Scored>, ws: WeightMap, f: Factor): (r: seq<(Json, real)>)
    ensures |r| == |scored|
    ensures forall i :: 0 <= i < |scored| ==>
              r[i] == (scored[i].proposal.stage.Get(f),
                       Weighted(BaseWeight(ws, scored[i].proposal.agent), scored[i].combined.Get(f)))
  {
    seq(|scored|, i requires 0 <= i < |scored| =>
      (scored[i].proposal.stage.Get(f),
       Weighted(BaseWeight(ws, scored[i].proposal.agent), scored[i].combined.Get(f))))
  }

  /** `len([p for p in proposals if p[f] != final])` */
  function Dissent(ps: seq<Proposal>, f: Factor, winner: Json): (n: nat)
    ensures n <= |ps|
    decreases |ps|
  {
    if |ps| == 0 then 0
    else Dissent(ps[..|ps| - 1], f, winner) + (if ps[|ps| - 1].stage.Get(f) != winner then 1 else 0)
  }

  /** The outcome for one factor: the winning value, the tally ("vote_distribution"), the
      consensus score, and how many proposals disagree with the winner. */
  datatype FactorVote = FactorVote(winner: Json, tally: seq<(Json, real)>, consensus: real,
                                   dissent: nat)

  function TallyFactor(scored: seq<Scored>, ws: WeightMap, f: Factor, maxPossible: real)
    : (r: FactorVote)
    requires |scored| > 0
    ensures r.tally == Accumulate(VotesFor(scored, ws, f))
    ensures r.winner in Keys(r.tally)
    ensures maxPossible <= 0.0 ==> r.consensus == 0.0
    ensures exists i :: 0 <= i < |scored| && scored[i].proposal.stage.Get(f) == r.winner
    ensures r.dissent < |scored|
  {
    var tally := Accumulate(VotesFor(scored, ws, f));
    var i := ArgMax(Values(tally));
    KeyWasVoted(scored, ws, f, tally[i].0);
    var weight := tally[i].1;
    FactorVote(tally[i].0, tally, if maxPossible > 0.0 then weight / maxPossible else 0.0,
               Dissent(Proposals(scored), f, tally[i].0))
  }

  /** A tallied value is some proposal's value, so not every proposal disagrees with it. */
  lemma KeyWasVoted(scored: seq<Scored>, ws: WeightMap, f: Factor, key: Json)
    requires key in Keys(Accumulate(VotesFor(scored, ws, f)))
    ensures exists i :: 0 <= i < |scored| && scored[i].proposal.stage.Get(f) == key
    ensures Dissent(Proposals(scored), f, key) < |scored|
  {
    var votes := VotesFor(scored, ws, f);
    AccumulateMatchesVotes(votes);
    assert key in Keys(votes);
    var j :| 0 <= j < |votes| && Keys(votes)[j] == key;
    assert scored[j].proposal.stage.Get(f) == key;
    DissentBelow(Proposals(scored), f, key, j);
  }

  lemma {:induction false} DissentBelow(ps: seq<Proposal>, f: Factor, value: Json, j: nat)
    requires j < |ps| && ps[j].stage.Get(f) == value
    ensures Dissent(ps, f, value) < |ps|
    decreases |ps|
  {
    if j < |ps| - 1 {
      var prefix := ps[..|ps| - 1];
      assert prefix[j] == ps[j];
      DissentBelow(prefix, f, value, j);
    }
  }

  function Proposals(scored: seq<Scored>): (r: seq<Proposal>)
    ensures |r| == |scored| && forall i :: 0 <= i < |scored| ==> r[i] == scored[i].proposal
  {
    seq(|scored|, i requires 0 <= i < |scored| => scored[i].proposal)
  }

  // ---------------------------------------------------------------------------------------
  // Reporting

  /** One disagreement line: the factor's name, how many proposals chose another value, and
      how many proposals there were. */
  function DisagreementLine(f: Factor, disagreeing: nat, count: nat): string {
    FactorName(f) + ": " + NatToString(disagreeing) + "/" + NatToString(count) + " agents disagree"
  }

  /** The disagreement line for factor `f`, if its consensus is below `AgreedShare`. */
  function Flag(f: Factor, v: FactorVote, count: nat): (r: seq<string>)
    ensures |r| <= 1
    ensures |r| == 1 <==> v.consensus < AgreedShare
  {
    if v.consensus < AgreedShare then [DisagreementLine(f, v.dissent, count)] else []
  }

  /** The factors of `fs` whose consensus is below `AgreedShare`, in the order of `fs`. */
  function Under(fs: seq<Factor>, factors: Triple<FactorVote>): seq<Factor> {
    if |fs| == 0 then []
    else (if factors.Get(fs[0]).consensus < AgreedShare then [fs[0]] else []) + Under(fs[1..], factors)
  }

  /** The "disagreements" entry: one line per factor under `AgreedShare`, in T, N, M order,
      or `["None"]` when there is none. */
  function Disagreements(factors: Triple<FactorVote>, count: nat): (r: seq<string>)
    ensures 1 <= |r| <= 3
    ensures var under := Under(Factors, factors);
            && (r == ["None"] <==> |under| == 0)
            && (|under| > 0 ==>
                  && |r| == |under|
                  && forall k :: 0 <= k < |under| ==>
                       r[k] == DisagreementLine(under[k], factors.Get(under[k]).dissent, count))
  {
    var flagged := Flag(T, factors.t, count) + Flag(N, factors.n, count) + Flag(M, factors.m, count);
    FlaggedAreUnder(factors, count);
    FlaggedNotNone(factors, count);
    if |flagged| == 0 then ["None"] else flagged
  }

  /** A disagreement line has a colon after the factor's name, so it is never "None". */
  lemma LineIsNotNone(f: Factor, disagreeing: nat, count: nat)
    ensures DisagreementLine(f, disagreeing, count) != "None"
  {
    var line := DisagreementLine(f, disagreeing, count);
    assert line[1] == ':' != "None"[1];
  }

  /** Some factor flagged means the entry is not `["None"]`. */
  lemma FlaggedNotNone(factors: Triple<FactorVote>, count: nat)
    ensures var flagged := Flag(T, factors.t, count) + Flag(N, factors.n, count) + Flag(M, factors.m, count);
            |flagged| > 0 ==> flagged != ["None"]
  {
    var flagged := Flag(T, factors.t, count) + Flag(N, factors.n, count) + Flag(M, factors.m, count);
    if |flagged| > 0 {
      var f := if |Flag(T, factors.t, count)| == 1 then T else if |Flag(N, factors.n, count)| == 1 then N else M;
      assert flagged[0] == DisagreementLine(f, factors.Get(f).dissent, count);
      LineIsNotNone(f, factors.Get(f).dissent, count);
    }
  }

  lemma FlaggedAreUnder(factors: Triple<FactorVote>, count: nat)
    ensures var flagged := Flag(T, factors.t, count) + Flag(N, factors.n, count) + Flag(M, factors.m, count);
            var under := Under(Factors, factors);
            && |flagged| == |under|
            && (forall k :: 0 <= k < |under| ==>
                  flagged[k] == DisagreementLine(under[k], factors.Get(under[k]).dissent, count))
  {
    UnderFactors(factors);
    FlagLines(T, factors, count);
    FlagLines(N, factors, count);
    FlagLines(M, factors, count);
    LinesOfConcat(Flag(T, factors.t, count), UnderOne(T, factors), Flag(N, factors.n, count),
                  UnderOne(N, factors), factors, count);
    LinesOfConcat(Flag(T, factors.t, count) + Flag(N, factors.n, count),
                  UnderOne(T, factors) + UnderOne(N, factors),
                  Flag(M, factors.m, count), UnderOne(M, factors), factors, count);
  }

  /** `[f]` when factor `f` is under `AgreedShare`, else nothing. */
  function UnderOne(f: Factor, factors: Triple<FactorVote>): seq<Factor> {
    if factors.Get(f).consensus < AgreedShare then [f] else []
  }

  /** Filtering T, N, M is filtering each in turn. */
  lemma UnderFactors(factors: Triple<FactorVote>)
    ensures Under(Factors, factors) == UnderOne(T, factors) + UnderOne(N, factors) + UnderOne(M, factors)
  {
    assert [M][1..] == [] && Under([M], factors) == UnderOne(M, factors) + Under([], factors);
    assert [N, M][1..] == [M] && Under([N, M], factors) == UnderOne(N, factors) + Under([M], factors);
    assert Factors[1..] == [N, M] && Under(Factors, factors) == UnderOne(T, factors) + Under([N, M], factors);
  }

  /** A factor's flag is its disagreement line exactly when it is under `AgreedShare`. */
  lemma FlagLines(f: Factor, factors: Triple<FactorVote>, count: nat)
    ensures LinesOf(Flag(f, factors.Get(f), count), UnderOne(f, factors), factors, count)
  {
  }

  /** `lines` are the disagreement lines of the factors `fs`, one each, in order. */
  ghost predicate LinesOf(lines: seq<string>, fs: seq<Factor>, factors: Triple<FactorVote>, count: nat) {
    && |lines| == |fs|
    && forall k :: 0 <= k < |fs| ==> lines[k] == DisagreementLine(fs[k], factors.Get(fs[k]).dissent, count)
  }

  lemma LinesOfConcat(a: seq<string>, fa: seq<Factor>, b: seq<string>, fb: seq<Factor>,
                      factors: Triple<FactorVote>, count: nat)
    requires LinesOf(a, fa, factors, count) && LinesOf(b, fb, factors, count)
    ensures LinesOf(a + b, fa + fb, factors, count)
  {
    forall k | 0 <= k < |fa + fb|
      ensures (a + b)[k] == DisagreementLine((fa + fb)[k], factors.Get((fa + fb)[k]).dissent, count)
    {
      if k >= |fa| {
        assert (a + b)[k] == b[k - |fa|] && (fa + fb)[k] == fb[k - |fa|];
      }
    }
  }

  /** `get_aggregate_conf` on the combined levels of one factor: low when at least half are
      low, else high when at least 70% are high, else medium. */
  function AggregateLevel(levels: seq<Level>): (r: Level)
    requires |levels| > 0
    ensures r == Low <==> Count(levels, Low) as real >= |levels| as real * 0.5
    ensures r == High <==> Count(levels, Low) as real < |levels| as real * 0.5
                           && Count(levels, High) as real >= |levels| as real * 0.7
  {
    var lows := Count(levels, Low);
    var highs := Count(levels, High);
    if lows > 0 && 2 * lows >= |levels| then Low
    else if highs > 0 && 10 * highs >= 7 * |levels| then High
    else Medium
  }

  function CombinedLevels(scored: seq<Scored>, f: Factor): (r: seq<Level>)
    ensures |r| == |scored| && forall i :: 0 <= i < |scored| ==> r[i] == scored[i].combined.Get(f)
  {
    seq(|scored|, i requires 0 <= i < |scored| => scored[i].combined.Get(f))
  }

  /** The three factor outcomes, each scored against `1.5 * sum(agent_weights.values())`. */
  function FactorVotes(scored: seq<Scored>, ws: WeightMap): (r: Triple<FactorVote>)
    requires |scored| > 0
    ensures r.t == TallyFactor(scored, ws, T, MaxPossible(ws))
    ensures r.n == TallyFactor(scored, ws, N, MaxPossible(ws))
    ensures r.m == TallyFactor(scored, ws, M, MaxPossible(ws))
  {
    var maxPossible := MaxPossible(ws);
    Triple(TallyFactor(scored, ws, T, maxPossible), TallyFactor(scored, ws, N, maxPossible),
           TallyFactor(scored, ws, M, maxPossible))
  }

  /** What `weighted_vote_with_confidence` returns when it returns a dict. */
  datatype VotingResult = VotingResult(
    stage: Triple<Json>,            // "T", "N", "M"
    tnm: string,                    // "TNM"
    consensus: real,                // "consensus_score"
    factors: Triple<FactorVote>,    // "factor_consensus" and "vote_distribution"
    confidence: Triple<Level>,      // "confidence"
    disagreements: seq<string>,     // "disagreements"
    count: nat,                     // "num_proposals"
    scored: seq<Scored>)            // "proposals", annotated

  /** How a call ends: `None` for no proposals, a `TypeError` from a list or dict used as a
      tally key, or a result. */
  datatype Outcome = NothingToVote | Unhashable | Voted(result: VotingResult)

  /** Every T, N and M value can be a dict key. */
  predicate AllHashable(ps: seq<Proposal>) {
    forall i :: 0 <= i < |ps| ==>
      Hashable(ps[i].stage.t) && Hashable(ps[i].stage.n) && Hashable(ps[i].stage.m)
  }

  /** The result for a non-empty list of proposals with hashable values. */
  function Tabulate(ps: seq<Proposal>, evidence: Option<Evidence>, ws: WeightMap)
    : (r: VotingResult)
    requires |ps| > 0
    ensures r.count == |ps| && r.scored == ScoreAll(ps, evidence)
    ensures r.factors == FactorVotes(ScoreAll(ps, evidence), ws)
  {
    var scored := ScoreAll(ps, evidence);
    var factors := FactorVotes(scored, ws);
    var stage := Triple(factors.t.winner, factors.n.winner, factors.m.winner);
    VotingResult(
      stage,
      LabelOf(stage),
      (factors.t.consensus + factors.n.consensus + factors.m.consensus) / 3.0,
      factors,
      Triple(AggregateLevel(CombinedLevels(scored, T)), AggregateLevel(CombinedLevels(scored, N)),
             AggregateLevel(CombinedLevels(scored, M))),
      Disagreements(factors, |ps|),
      |ps|,
      scored)
  }

  /** `weighted_vote_with_confidence(proposals, case_presentation, agent_weights)` */
  function Vote(u: CharSemantics, ps: seq<Proposal>, caseText: Option<string>,
                weights: Option<WeightMap>): (r: Outcome)
    ensures r.NothingToVote? <==> |ps| == 0
    ensures r.Unhashable? <==> |ps| > 0 && !AllHashable(ps)
    ensures r.Voted? ==> r.result.count == |ps|
  {
    if |ps| == 0 then NothingToVote
    else if !AllHashable(ps) then Unhashable
    else Voted(Tabulate(ps, CaseEvidence(u, caseText), ChosenWeights(ps, weights)))
  }

  // ---------------------------------------------------------------------------------------
  // main_ws.py

  /** How many of a proposal's combined levels are high. */
  function HighCount(levels: Triple<Level>): (n: nat)
    ensures n <= 3
  {
    (if levels.t == High then 1 else 0) + (if levels.n == High then 1 else 0)
    + (if levels.m == High then 1 else 0)
  }

  /** The rationale recorded for a case: that of the first proposal with the most high
      combined levels. */
  function BestRationale(scored: seq<Scored>): (r: Json)
    requires |scored| > 0
    ensures exists i :: 0 <= i < |scored| && r == scored[i].proposal.rationale
                        && (forall j :: 0 <= j < |scored| ==>
                              HighCount(scored[j].combined) <= HighCount(scored[i].combined))
                        && (forall j :: 0 <= j < i ==>
                              HighCount(scored[j].combined) < HighCount(scored[i].combined))
  {
    var counts := seq(|scored|, i requires 0 <= i < |scored| => HighCount(scored[i].combined) as real);
    var i := ArgMax(counts);
    assert forall j :: 0 <= j < |scored| ==> counts[j] == HighCount(scored[j].combined) as real;
    scored[i].proposal.rationale
  }
}
