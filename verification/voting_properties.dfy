/** What the vote guarantees: the winner of each factor is the value with the greatest total
    weight, earliest first on a tie; a unanimous value wins; the disagreement report lists
    exactly the factors under the consensus threshold; and with the default weights and one
    proposal per agent every consensus score lies between 0 and 1, and stays below the
    threshold when there is no case text. */
module VotingProperties {

  import opened Wrappers
  import opened Text
  import opened JsonValue
  import opened Staging
  import opened Extraction
  import opened Confidence
  import opened Tally
  import opened Voting

  // ---------------------------------------------------------------------------------------
  // The winner

  /** The winner has the greatest total weight, and every value first voted for before it
      has strictly less. */
  lemma WinnerIsHeaviest(scored: seq<Scored>, ws: WeightMap, f: Factor, maxPossible: real)
    requires |scored| > 0
    ensures var votes := VotesFor(scored, ws, f);
            var winner := TallyFactor(scored, ws, f, maxPossible).winner;
            && winner in Keys(votes)
            && (forall v :: v in Keys(votes) ==> WeightFor(votes, v) <= WeightFor(votes, winner))
            && exists i :: 0 <= i < |Dedup(Keys(votes))| && Dedup(Keys(votes))[i] == winner
                 && forall j :: 0 <= j < i ==>
                      WeightFor(votes, Dedup(Keys(votes))[j]) < WeightFor(votes, winner)
  {
    var votes := VotesFor(scored, ws, f);
    var tally := Accumulate(votes);
    var i := ArgMax(Values(tally));
    assert TallyFactor(scored, ws, f, maxPossible).winner == tally[i].0;
    ArgMaxIsHeaviest(votes, i);
  }

  /** The entry `max` picks from a tally is the heaviest voted value, first on a tie. */
  lemma ArgMaxIsHeaviest(votes: seq<(Json, real)>, i: nat)
    requires i < |Accumulate(votes)| && i == ArgMax(Values(Accumulate(votes)))
    ensures HeaviestFirst(votes, Accumulate(votes)[i].0)
  {
    var tally := Accumulate(votes);
    var keys := Dedup(Keys(votes));
    AccumulateMatchesVotes(votes);
    assert keys == Keys(tally);
    assert keys[i] == tally[i].0;
    forall v | v in Keys(votes) ensures WeightFor(votes, v) <= WeightFor(votes, tally[i].0) {
      var j :| 0 <= j < |tally| && keys[j] == v;
      assert Values(tally)[j] <= Values(tally)[i];
    }
    forall j | 0 <= j < i ensures WeightFor(votes, keys[j]) < WeightFor(votes, tally[i].0) {
      assert Values(tally)[j] < Values(tally)[i];
    }
  }

  /** `Dissent` counts the proposals whose value is not the winner. */
  lemma {:induction false} DissentCountsOthers(ps: seq<Proposal>, f: Factor, winner: Json)
    ensures Dissent(ps, f, winner) == |ps| - Count(ValuesOf(ps, f), winner)
    decreases |ps|
  {
    if |ps| > 0 {
      var prefix := ps[..|ps| - 1];
      DissentCountsOthers(prefix, f, winner);
      ValuesCountStep(ps, f, winner);
    }
  }

  /** Counting a factor's values over a list is counting over all but its last proposal,
      then checking that one. */
  lemma ValuesCountStep(ps: seq<Proposal>, f: Factor, x: Json)
    requires |ps| > 0
    ensures Count(ValuesOf(ps, f), x)
            == Count(ValuesOf(ps[..|ps| - 1], f), x) + (if ps[|ps| - 1].stage.Get(f) == x then 1 else 0)
  {
    var values := ValuesOf(ps, f);
    CountOfPrefix(values, x);
    assert values[..|ps| - 1] == ValuesOf(ps[..|ps| - 1], f);
  }

  /** A value every proposal gives wins, and nobody disagrees with it. */
  lemma UnanimousValueWins(scored: seq<Scored>, ws: WeightMap, f: Factor, maxPossible: real,
                           v: Json)
    requires |scored| > 0
    requires forall i :: 0 <= i < |scored| ==> scored[i].proposal.stage.Get(f) == v
    ensures TallyFactor(scored, ws, f, maxPossible).winner == v
    ensures TallyFactor(scored, ws, f, maxPossible).dissent == 0
  {
    var votes := VotesFor(scored, ws, f);
    AccumulateMatchesVotes(votes);
    var w := TallyFactor(scored, ws, f, maxPossible).winner;
    assert w in Dedup(Keys(votes));
    assert w in Keys(votes);
    var ps := Proposals(scored);
    AllEqualCount(ValuesOf(ps, f), v);
    DissentCountsOthers(ps, f, v);
  }

  // ---------------------------------------------------------------------------------------
  // The report

  /** `["None"]` exactly when every factor reaches the threshold; otherwise one line per
      factor under it. */
  lemma DisagreementsIff(factors: Triple<FactorVote>, count: nat)
    ensures Disagreements(factors, count) == ["None"] <==>
              forall f :: factors.Get(f).consensus >= AgreedShare
    ensures Disagreements(factors, count) != ["None"] ==>
              |Disagreements(factors, count)|
              == (if factors.t.consensus < AgreedShare then 1 else 0)
                 + (if factors.n.consensus < AgreedShare then 1 else 0)
                 + (if factors.m.consensus < AgreedShare then 1 else 0)
  {
    var flagged := Flag(T, factors.t, count) + Flag(N, factors.n, count) + Flag(M, factors.m, count);
    if |flagged| > 0 {
      assert flagged != ["None"] by {
        if |flagged| == 1 {
          assert flagged[0][0] in "TNM";
        }
      }
    }
    assert factors.Get(T) == factors.t && factors.Get(N) == factors.n && factors.Get(M) == factors.m;
  }

  // ---------------------------------------------------------------------------------------
  // Confidence inside the vote

  /** Without case evidence no combined level is high: the case level defaults to medium. */
  lemma NoEvidenceNoHigh(p: Proposal, all: seq<Proposal>, f: Factor)
    ensures Score(p, all, None).combined.Get(f) != High
  {
    assert CaseLevel(None, f) == Medium;
  }

  // ---------------------------------------------------------------------------------------
  // Default weights

  /** `s` with `x` appended unless it is already there. */
  function AppendNew<X(==)>(s: seq<X>, x: X): seq<X> {
    if x in s then s else s + [x]
  }

  lemma DedupLast(s: seq<string>)
    requires |s| > 0
    ensures Dedup(s) == AppendNew(Dedup(s[..|s| - 1]), s[|s| - 1])
  {
  }

  lemma DefaultWeightsLast(ps: seq<Proposal>)
    requires |ps| > 0
    ensures Keys(DefaultWeights(ps))
            == AppendNew(Keys(DefaultWeights(ps[..|ps| - 1])), ps[|ps| - 1].agent)
  {
    var agent := ps[|ps| - 1].agent;
    var d := DefaultWeights(ps[..|ps| - 1]);
    assert DefaultWeights(ps) == Assign(d, agent, AgentWeight(agent));
  }

  /** The default weights hold one entry per agent, in order of first appearance. */
  lemma {:induction false} DefaultWeightsKeys(ps: seq<Proposal>)
    ensures Keys(DefaultWeights(ps)) == Dedup(Agents(ps))
    decreases |ps|
  {
    if |ps| > 0 {
      var n := |ps| - 1;
      DefaultWeightsKeys(ps[..n]);
      DefaultWeightsLast(ps);
      DedupLast(Agents(ps));
      assert Agents(ps)[..n] == Agents(ps[..n]);
    }
  }

  predicate DistinctAgents(ps: seq<Proposal>) {
    forall i, j :: 0 <= i < j < |ps| ==> ps[i].agent != ps[j].agent
  }

  /** With one proposal per agent, the default weights list the agents in proposal order. */
  lemma {:induction false} DefaultWeightsOfDistinctAgents(ps: seq<Proposal>)
    requires DistinctAgents(ps)
    ensures |DefaultWeights(ps)| == |ps|
    ensures forall i :: 0 <= i < |ps| ==>
              DefaultWeights(ps)[i] == (ps[i].agent, AgentWeight(ps[i].agent))
    decreases |ps|
  {
    if |ps| > 0 {
      var prefix := ps[..|ps| - 1];
      DefaultWeightsOfDistinctAgents(prefix);
      var agent := ps[|ps| - 1].agent;
      var d := DefaultWeights(prefix);
      forall i | 0 <= i < |d| ensures Keys(d)[i] != agent {
        assert prefix[i] == ps[i];
      }
      assert DefaultWeights(ps) == Assign(d, agent, AgentWeight(agent));
      AssignNew(d, agent, AgentWeight(agent));
      forall i | 0 <= i < |prefix| ensures DefaultWeights(ps)[i] == (ps[i].agent, AgentWeight(ps[i].agent)) {
        assert prefix[i] == ps[i];
      }
    }
  }

  /** `[(p["agent"], agent_weights.get(p["agent"], 1.0)) for p in ps]` */
  function BaseVotes(ws: WeightMap, ps: seq<Proposal>): (r: seq<(string, real)>)
    ensures |r| == |ps|
    ensures forall i :: 0 <= i < |ps| ==> r[i] == (ps[i].agent, BaseWeight(ws, ps[i].agent))
  {
    seq(|ps|, i requires 0 <= i < |ps| => (ps[i].agent, BaseWeight(ws, ps[i].agent)))
  }

  lemma {:induction false} AtLeastOneEach(votes: seq<(string, real)>)
    requires forall i :: 0 <= i < |votes| ==> votes[i].1 >= 1.0
    ensures TotalWeight(votes) >= |votes| as real
    decreases |votes|
  {
    if |votes| > 0 {
      AtLeastOneEach(votes[..|votes| - 1]);
    }
  }

  /** With one proposal per agent, the default weights are the proposals' base weights, so
      they sum to the same total. */
  lemma DefaultWeightsAreBaseVotes(ps: seq<Proposal>)
    requires DistinctAgents(ps)
    ensures DefaultWeights(ps) == BaseVotes(DefaultWeights(ps), ps)
    ensures Total(DefaultWeights(ps)) >= |ps| as real
    ensures forall i :: 0 <= i < |ps| ==> BaseWeight(DefaultWeights(ps), ps[i].agent) >= 1.0
  {
    var ws := DefaultWeights(ps);
    DefaultWeightsOfDistinctAgents(ps);
    var base := BaseVotes(ws, ps);
    forall i | 0 <= i < |ps| ensures base[i] == ws[i] && ws[i].1 >= 1.0 {
      GetAt(ws, i);
    }
    assert base == ws;
    AtLeastOneEach(ws);
  }

  // ---------------------------------------------------------------------------------------
  // Consensus bounds

  /** A vote weighs its base weight times the multiplier of its combined confidence. */
  lemma WeightedIsProduct(base: real, l: Level)
    ensures Weighted(base, l) == base * Multiplier(l)
  {
  }

  /** A non-negative weight counts no more at a level than at any level above it. */
  lemma WeightedMonotone(base: real, l: Level, top: Level)
    requires base >= 0.0 && Rank(l) <= Rank(top)
    ensures Weighted(base, l) <= Weighted(base, top)
  {
  }

  /** Every proposal's base weight is non-negative and no combined level for `f` is above
      `top`. */
  predicate VotesWithin(scored: seq<Scored>, ws: WeightMap, f: Factor, top: Level) {
    forall i :: 0 <= i < |scored| ==>
      BaseWeight(ws, scored[i].proposal.agent) >= 0.0 && Rank(scored[i].combined.Get(f)) <= Rank(top)
  }

  /** No vote weighs more than its base weight would at level `top`. */
  lemma VotesScaled(scored: seq<Scored>, ws: WeightMap, f: Factor, top: Level)
    requires VotesWithin(scored, ws, f, top)
    ensures var votes := VotesFor(scored, ws, f);
            var base := BaseVotes(ws, Proposals(scored));
            forall i :: 0 <= i < |scored| ==> 0.0 <= votes[i].1 <= Weighted(base[i].1, top)
  {
    var votes := VotesFor(scored, ws, f);
    var base := BaseVotes(ws, Proposals(scored));
    forall i | 0 <= i < |scored| ensures 0.0 <= votes[i].1 <= Weighted(base[i].1, top) {
      var b := BaseWeight(ws, scored[i].proposal.agent);
      assert votes[i].1 == Weighted(b, scored[i].combined.Get(f));
      assert base[i].1 == b;
      WeightedMonotone(b, scored[i].combined.Get(f), top);
      WeightedMonotone(b, Low, scored[i].combined.Get(f));
    }
  }

  /** All votes together weigh no more than the base weights would together at level `top`. */
  lemma VotesTotalBound(scored: seq<Scored>, ws: WeightMap, f: Factor, top: Level)
    requires VotesWithin(scored, ws, f, top)
    ensures TotalWeight(VotesFor(scored, ws, f))
            <= Weighted(TotalWeight(BaseVotes(ws, Proposals(scored))), top)
  {
    var votes := VotesFor(scored, ws, f);
    var base := BaseVotes(ws, Proposals(scored));
    VotesScaled(scored, ws, f, top);
    TotalWeightWeighted(votes, base, top);
  }

  /** Votes each at most their counterpart weighted at `top` weigh at most the counterparts'
      total weighted at `top`. */
  lemma {:induction false} TotalWeightWeighted<K, L>(a: seq<(K, real)>, b: seq<(L, real)>,
                                                     top: Level)
    requires |a| == |b|
    requires forall i :: 0 <= i < |a| ==> a[i].1 <= Weighted(b[i].1, top)
    ensures TotalWeight(a) <= Weighted(TotalWeight(b), top)
    decreases |a|
  {
    if |a| > 0 {
      var n := |a| - 1;
      TotalWeightWeighted(a[..n], b[..n], top);
      assert Weighted(TotalWeight(b), top) == Weighted(TotalWeight(b[..n]), top) + Weighted(b[n].1, top);
    }
  }

  /** A share of a total scaled by 1.5 is at most the multiplier of `top` over 1.5 when the
      part is between 0 and the total weighted at `top`. */
  lemma ShareBound(c: real, w: real, top: Level, total: real)
    requires 0.0 <= w <= Weighted(total, top) && total > 0.0 && c == w / (total * 1.5)
    ensures 0.0 <= c && c * 1.5 <= Multiplier(top)
  {
    WeightedIsProduct(total, top);
    var q := w / total;
    assert c * (total * 1.5) == w;
    assert (c * 1.5) * total == q * total;
    assert c * 1.5 == q;
    assert q * total <= Multiplier(top) * total;
  }

  /** The winning value's weight lies between 0 and what the base weights would weigh
      together at level `top`. */
  lemma WinnerWeightBound(scored: seq<Scored>, ws: WeightMap, f: Factor, top: Level,
                          maxPossible: real)
    requires |scored| > 0 && VotesWithin(scored, ws, f, top)
    ensures var votes := VotesFor(scored, ws, f);
            var w := WeightFor(votes, TallyFactor(scored, ws, f, maxPossible).winner);
            0.0 <= w <= Weighted(TotalWeight(BaseVotes(ws, Proposals(scored))), top)
  {
    VotesScaled(scored, ws, f, top);
    WeightForBounded(VotesFor(scored, ws, f), TallyFactor(scored, ws, f, maxPossible).winner);
    VotesTotalBound(scored, ws, f, top);
  }

  /** When the weights sum to at least the proposals' base weights, a factor's consensus
      times 1.5 is at most the multiplier of the highest combined level: at most 1 in
      general, and at most 2/3 when no combined level is high. */
  lemma ConsensusWithin(scored: seq<Scored>, ws: WeightMap, f: Factor, top: Level)
    requires |scored| > 0 && VotesWithin(scored, ws, f, top)
    requires Total(ws) >= TotalWeight(BaseVotes(ws, Proposals(scored))) && Total(ws) > 0.0
    ensures var c := TallyFactor(scored, ws, f, MaxPossible(ws)).consensus;
            0.0 <= c && c * 1.5 <= Multiplier(top)
  {
    var maxPossible := MaxPossible(ws);
    var v := TallyFactor(scored, ws, f, maxPossible);
    var w := WeightFor(VotesFor(scored, ws, f), v.winner);
    ConsensusIsWinnerShare(scored, ws, f, maxPossible);
    WinnerWeightBound(scored, ws, f, top, maxPossible);
    assert Weighted(TotalWeight(BaseVotes(ws, Proposals(scored))), top) <= Weighted(Total(ws), top);
    assert v.consensus == w / maxPossible && 0.0 <= w <= Weighted(Total(ws), top);
    ShareBound(v.consensus, w, top, Total(ws));
  }

  /** A factor's consensus is the winning value's summed vote weight over the largest
      possible weight, or 0 when that is not positive. */
  lemma ConsensusIsWinnerShare(scored: seq<Scored>, ws: WeightMap, f: Factor, maxPossible: real)
    requires |scored| > 0
    ensures TallyFactor(scored, ws, f, maxPossible).consensus
            == if maxPossible > 0.0 then
                 WeightFor(VotesFor(scored, ws, f), TallyFactor(scored, ws, f, maxPossible).winner)
                 / maxPossible
               else 0.0
  {
    var votes := VotesFor(scored, ws, f);
    var tally := Accumulate(votes);
    AccumulateMatchesVotes(votes);
    var i := ArgMax(Values(tally));
    assert tally[i].1 == WeightFor(votes, tally[i].0);
  }

  /** One agent's two proposals of the same value, as the only proposals, break the 0-to-1
      range: the total weight counts the agent once while the tally counts both votes, so
      without case text that factor's consensus is 4/3. The proposals may differ in every
      other field, as two messages of one agent do. */
  lemma RepeatedAgentConsensus(p: Proposal, q: Proposal, f: Factor)
    requires p.agent == q.agent && p.stage.Get(f) == q.stage.Get(f)
    ensures Tabulate([p, q], None, DefaultWeights([p, q])).factors.Get(f).consensus == 4.0 / 3.0
  {
    var ps := [p, q];
    var ws := DefaultWeights(ps);
    var scored := ScoreAll(ps, None);
    TwinDefaultWeights(p, q);
    TwinVotes(p, q, f);
    assert scored[0].proposal == p && scored[1].proposal == q;
    TwinConsensus(scored, ws, f, p.stage.Get(f), AgentWeight(p.agent));
    TabulateFactor(ps, None, ws, f);
  }

  /** Two votes of the same value, each with the whole of the total weight, give a
      consensus of 2 / 1.5. */
  lemma TwinConsensus(scored: seq<Scored>, ws: WeightMap, f: Factor, v: Json, w: real)
    requires |scored| == 2 && VotesFor(scored, ws, f) == [(v, w), (v, w)]
    requires Total(ws) == w && (w == 1.0 || w == 1.5)
    requires scored[0].proposal.stage.Get(f) == v && scored[1].proposal.stage.Get(f) == v
    ensures TallyFactor(scored, ws, f, MaxPossible(ws)).consensus == 4.0 / 3.0
  {
    var maxPossible := MaxPossible(ws);
    UnanimousValueWins(scored, ws, f, maxPossible, v);
    ConsensusIsWinnerShare(scored, ws, f, maxPossible);
    TwinWeight(v, w);
    var c := TallyFactor(scored, ws, f, maxPossible).consensus;
    assert c == (2.0 * w) / (w * 1.5);
    if w == 1.0 {
      assert c == 2.0 / 1.5;
    } else {
      assert c == 3.0 / 2.25;
    }
  }

  /** The default weights of one agent's two proposals hold that agent once. */
  lemma TwinDefaultWeights(p: Proposal, q: Proposal)
    requires p.agent == q.agent
    ensures DefaultWeights([p, q]) == [(p.agent, AgentWeight(p.agent))]
    ensures Total(DefaultWeights([p, q])) == AgentWeight(p.agent)
  {
    var w := AgentWeight(p.agent);
    var one := [(p.agent, w)];
    assert [p][..0] == [];
    assert DefaultWeights([p]) == Assign([], p.agent, w);
    AssignNew([], p.agent, w);
    assert [p, q][..1] == [p];
    assert DefaultWeights([p, q]) == Assign(one, p.agent, w);
    AssignSame(one, 0);
    assert one[..0] == [];
    assert TotalWeight(one) == TotalWeight(one[..0]) + w;
  }

  /** Both of one agent's proposals vote for their common value with the agent's full weight. */
  lemma TwinVotes(p: Proposal, q: Proposal, f: Factor)
    requires p.agent == q.agent && p.stage.Get(f) == q.stage.Get(f)
    ensures var w := AgentWeight(p.agent);
            VotesFor(ScoreAll([p, q], None), DefaultWeights([p, q]), f)
            == [(p.stage.Get(f), w), (p.stage.Get(f), w)]
  {
    TwinDefaultWeights(p, q);
    OthersOfOneAgent(p, q, f);
    assert BaseWeight(DefaultWeights([p, q]), p.agent) == AgentWeight(p.agent);
  }

  lemma TwinWeight(v: Json, w: real)
    ensures WeightFor([(v, w), (v, w)], v) == 2.0 * w
  {
    var two := [(v, w), (v, w)];
    var one := [(v, w)];
    assert two[..1] == one && one[..0] == [];
    assert WeightFor(one, v) == WeightFor(one[..0], v) + w;
    assert WeightFor(two, v) == WeightFor(one, v) + w;
  }

  /** A proposal scored among its own agent's proposals only has nobody to agree with, so it
      is medium throughout. */
  lemma OthersOfOneAgent(p: Proposal, q: Proposal, f: Factor)
    requires p.agent == q.agent
    ensures ScoreAll([p, q], None)[0].combined.Get(f) == Medium
    ensures ScoreAll([p, q], None)[1].combined.Get(f) == Medium
  {
    assert [p, q][..1] == [p] && [p][..0] == [];
    assert Others(p.agent, [p, q]) == [];
    assert Others(q.agent, [p, q]) == [];
    assert FromAgreement(p, [p, q]).levels == Same(Medium);
    assert FromAgreement(q, [p, q]).levels == Same(Medium);
  }

  /** With a non-empty list of hashable proposals, the vote scores every proposal against
      the same case evidence and tallies with the given weights, or the default ones. */
  lemma VoteIsTabulate(u: CharSemantics, ps: seq<Proposal>, caseText: Option<string>,
                       weights: Option<WeightMap>)
    requires |ps| > 0 && AllHashable(ps)
    ensures Vote(u, ps, caseText, weights)
            == Voted(Tabulate(ps, CaseEvidence(u, caseText), ChosenWeights(ps, weights)))
  {
  }

  /** `winner` has the greatest summed weight among the voted values, and every value first
      voted for before it has strictly less: what `max(votes.items(), key=...)` picks. */
  ghost predicate HeaviestFirst(votes: seq<(Json, real)>, winner: Json) {
    && winner in Keys(votes)
    && (forall v :: v in Keys(votes) ==> WeightFor(votes, v) <= WeightFor(votes, winner))
    && exists i :: 0 <= i < |Dedup(Keys(votes))| && Dedup(Keys(votes))[i] == winner
         && forall j :: 0 <= j < i ==>
              WeightFor(votes, Dedup(Keys(votes))[j]) < WeightFor(votes, winner)
  }

  /** The vote's chosen value for each factor is the first heaviest of the votes the
      proposals cast: scored against the case evidence and weighted by the given weights, or
      the default ones. */
  lemma VoteChoosesHeaviest(u: CharSemantics, ps: seq<Proposal>, caseText: Option<string>,
                            weights: Option<WeightMap>, f: Factor)
    requires |ps| > 0 && AllHashable(ps)
    ensures Vote(u, ps, caseText, weights).Voted?
    ensures HeaviestFirst(VotesFor(ScoreAll(ps, CaseEvidence(u, caseText)), ChosenWeights(ps, weights), f),
                          Vote(u, ps, caseText, weights).result.stage.Get(f))
  {
    var evidence := CaseEvidence(u, caseText);
    var ws := ChosenWeights(ps, weights);
    VoteIsTabulate(u, ps, caseText, weights);
    assert Vote(u, ps, caseText, weights).result == Tabulate(ps, evidence, ws);
    TabulateOutcome(ps, evidence, ws, f);
  }

  /** `weight / max_possible_weight if max_possible_weight > 0 else 0` */
  function Share(weight: real, maxPossible: real): real {
    if maxPossible > 0.0 then weight / maxPossible else 0.0
  }

  /** The vote's consensus for each factor is the chosen value's summed vote weight over 1.5
      times the total weight, or 0 when that is not positive. */
  lemma VoteConsensusIsShare(u: CharSemantics, ps: seq<Proposal>, caseText: Option<string>,
                             weights: Option<WeightMap>, f: Factor)
    requires |ps| > 0 && AllHashable(ps)
    ensures Vote(u, ps, caseText, weights).Voted?
    ensures Vote(u, ps, caseText, weights).result.factors.Get(f).consensus
            == Share(WeightFor(VotesFor(ScoreAll(ps, CaseEvidence(u, caseText)), ChosenWeights(ps, weights), f),
                               Vote(u, ps, caseText, weights).result.stage.Get(f)),
                     MaxPossible(ChosenWeights(ps, weights)))
  {
    var evidence := CaseEvidence(u, caseText);
    var ws := ChosenWeights(ps, weights);
    VoteIsTabulate(u, ps, caseText, weights);
    assert Vote(u, ps, caseText, weights).result == Tabulate(ps, evidence, ws);
    TabulateOutcome(ps, evidence, ws, f);
  }

  /** The vote's disagreement count for each factor is the number of proposals whose value
      is not the chosen one. */
  lemma VoteDissentCount(u: CharSemantics, ps: seq<Proposal>, caseText: Option<string>,
                         weights: Option<WeightMap>, f: Factor)
    requires |ps| > 0 && AllHashable(ps)
    ensures Vote(u, ps, caseText, weights).Voted?
    ensures var r := Vote(u, ps, caseText, weights).result;
            r.factors.Get(f).dissent == |ps| - Count(ValuesOf(ps, f), r.stage.Get(f))
  {
    var evidence := CaseEvidence(u, caseText);
    var ws := ChosenWeights(ps, weights);
    VoteIsTabulate(u, ps, caseText, weights);
    assert Vote(u, ps, caseText, weights).result == Tabulate(ps, evidence, ws);
    TabulateOutcome(ps, evidence, ws, f);
  }

  /** The vote's three facts, for the tabulation itself. */
  lemma TabulateOutcome(ps: seq<Proposal>, evidence: Option<Evidence>, ws: WeightMap, f: Factor)
    requires |ps| > 0
    ensures var r := Tabulate(ps, evidence, ws);
            var votes := VotesFor(ScoreAll(ps, evidence), ws, f);
            && HeaviestFirst(votes, r.stage.Get(f))
            && r.factors.Get(f).consensus == Share(WeightFor(votes, r.stage.Get(f)), MaxPossible(ws))
            && r.factors.Get(f).dissent == |ps| - Count(ValuesOf(ps, f), r.stage.Get(f))
  {
    var r := Tabulate(ps, evidence, ws);
    var scored := ScoreAll(ps, evidence);
    var maxPossible := MaxPossible(ws);
    var v := TallyFactor(scored, ws, f, maxPossible);
    TabulateFactor(ps, evidence, ws, f);
    TabulateStage(ps, evidence, ws, f);
    assert r.factors.Get(f) == v && r.stage.Get(f) == v.winner;
    ScoredProposals(ps, evidence);
    TallyOutcome(scored, ws, f, maxPossible);
  }

  /** The vote's "disagreements" are `["None"]` exactly when no factor is under
      `AgreedShare`, and otherwise hold one line per such factor. */
  lemma TabulateDisagreements(ps: seq<Proposal>, evidence: Option<Evidence>, ws: WeightMap)
    requires |ps| > 0
    ensures var r := Tabulate(ps, evidence, ws);
            var under := Under(Factors, r.factors);
            && (r.disagreements == ["None"] <==> |under| == 0)
            && (|under| > 0 ==> |r.disagreements| == |under|)
  {
    var r := Tabulate(ps, evidence, ws);
    assert r.disagreements == Disagreements(r.factors, |ps|);
  }

  /** The `k`th disagreement line names the `k`th factor under `AgreedShare` (in T, N, M
      order) and counts the proposals whose value for it is not the chosen one, out of all
      proposals. */
  lemma TabulateDisagreementLine(ps: seq<Proposal>, evidence: Option<Evidence>, ws: WeightMap, k: nat)
    requires |ps| > 0 && k < |Under(Factors, Tabulate(ps, evidence, ws).factors)|
    ensures var r := Tabulate(ps, evidence, ws);
            var f := Under(Factors, r.factors)[k];
            && r.disagreements[k] == DisagreementLine(f, r.factors.Get(f).dissent, |ps|)
            && r.factors.Get(f).dissent == |ps| - Count(ValuesOf(ps, f), r.stage.Get(f))
  {
    TabulateLines(ps, evidence, ws, k);
    var r := Tabulate(ps, evidence, ws);
    LineOfResult(ps, r, k, r.factors.Get(Under(Factors, r.factors)[k]).dissent);
  }

  /** What `Tabulate` guarantees about its `k`th disagreement line, given how many proposals
      disagree with the winner of the factor it names. */
  ghost predicate LineFacts(ps: seq<Proposal>, r: VotingResult, k: nat, disagreeing: nat) {
    && r.disagreements == Disagreements(r.factors, |ps|)
    && k < |Under(Factors, r.factors)|
    && r.factors.Get(Under(Factors, r.factors)[k]).dissent == disagreeing
  }

  /** A result's `k`th disagreement line, given how many proposals disagree with its winner. */
  lemma LineOfResult(ps: seq<Proposal>, r: VotingResult, k: nat, disagreeing: nat)
    requires LineFacts(ps, r, k, disagreeing)
    ensures r.disagreements[k] == DisagreementLine(Under(Factors, r.factors)[k], disagreeing, |ps|)
  {
  }

  /** The tabulation's disagreement lines are those of its factor votes, and the dissent of
      each factor counts the proposals that did not choose its winner. */
  lemma TabulateLines(ps: seq<Proposal>, evidence: Option<Evidence>, ws: WeightMap, k: nat)
    requires |ps| > 0 && k < |Under(Factors, Tabulate(ps, evidence, ws).factors)|
    ensures var r := Tabulate(ps, evidence, ws);
            var f := Under(Factors, r.factors)[k];
            LineFacts(ps, r, k, |ps| - Count(ValuesOf(ps, f), r.stage.Get(f)))
  {
    var r := Tabulate(ps, evidence, ws);
    TabulateDissent(ps, evidence, ws, Under(Factors, r.factors)[k]);
  }

  /** The dissent the tabulation reports for one factor. */
  lemma TabulateDissent(ps: seq<Proposal>, evidence: Option<Evidence>, ws: WeightMap, f: Factor)
    requires |ps| > 0
    ensures Tabulate(ps, evidence, ws).factors.Get(f).dissent
            == |ps| - Count(ValuesOf(ps, f), Tabulate(ps, evidence, ws).stage.Get(f))
  {
    TabulateOutcome(ps, evidence, ws, f);
  }

  /** One factor's tally: the winner is the first heaviest value, the consensus its share of
      the largest possible weight, and the dissent the proposals giving another value. */
  lemma TallyOutcome(scored: seq<Scored>, ws: WeightMap, f: Factor, maxPossible: real)
    requires |scored| > 0
    ensures var v := TallyFactor(scored, ws, f, maxPossible);
            var votes := VotesFor(scored, ws, f);
            && HeaviestFirst(votes, v.winner)
            && v.consensus == Share(WeightFor(votes, v.winner), maxPossible)
            && v.dissent == |scored| - Count(ValuesOf(Proposals(scored), f), v.winner)
  {
    var v := TallyFactor(scored, ws, f, maxPossible);
    WinnerIsHeaviest(scored, ws, f, maxPossible);
    ConsensusIsWinnerShare(scored, ws, f, maxPossible);
    DissentCountsOthers(Proposals(scored), f, v.winner);
  }

  /** Every value the vote chooses was proposed by some agent, and at least that proposal
      agrees with it. */
  lemma TabulateChoosesProposed(ps: seq<Proposal>, evidence: Option<Evidence>, ws: WeightMap, f: Factor)
    requires |ps| > 0
    ensures exists i :: 0 <= i < |ps| && ps[i].stage.Get(f) == Tabulate(ps, evidence, ws).stage.Get(f)
    ensures Tabulate(ps, evidence, ws).factors.Get(f).dissent < |ps|
  {
    var scored := ScoreAll(ps, evidence);
    var v := TallyFactor(scored, ws, f, MaxPossible(ws));
    TabulateFactor(ps, evidence, ws, f);
    TabulateStage(ps, evidence, ws, f);
    ScoredProposals(ps, evidence);
    var i :| 0 <= i < |scored| && scored[i].proposal.stage.Get(f) == v.winner;
    assert Proposals(scored)[i] == ps[i];
  }

  /** The stage reports each factor's winner. */
  lemma TabulateStage(ps: seq<Proposal>, evidence: Option<Evidence>, ws: WeightMap, f: Factor)
    requires |ps| > 0
    ensures Tabulate(ps, evidence, ws).stage.Get(f) == Tabulate(ps, evidence, ws).factors.Get(f).winner
  {
  }

  lemma TabulateFactors(ps: seq<Proposal>, evidence: Option<Evidence>, ws: WeightMap)
    requires |ps| > 0
    ensures Tabulate(ps, evidence, ws).factors.t
            == TallyFactor(ScoreAll(ps, evidence), ws, T, MaxPossible(ws))
    ensures Tabulate(ps, evidence, ws).factors.n
            == TallyFactor(ScoreAll(ps, evidence), ws, N, MaxPossible(ws))
    ensures Tabulate(ps, evidence, ws).factors.m
            == TallyFactor(ScoreAll(ps, evidence), ws, M, MaxPossible(ws))
  {
  }

  /** Each factor is tallied over the scored proposals against 1.5 times the total weight. */
  lemma TabulateFactor(ps: seq<Proposal>, evidence: Option<Evidence>, ws: WeightMap, f: Factor)
    requires |ps| > 0
    ensures Tabulate(ps, evidence, ws).factors.Get(f)
            == TallyFactor(ScoreAll(ps, evidence), ws, f, MaxPossible(ws))
  {
    TabulateFactors(ps, evidence, ws);
  }

  lemma ScoredProposals(ps: seq<Proposal>, evidence: Option<Evidence>)
    ensures Proposals(ScoreAll(ps, evidence)) == ps
  {
  }

  /** With one proposal per agent, the default weights sum to the proposals' base weights,
      their total is positive, and no vote rises above the high multiplier. */
  lemma DefaultWeightsFit(scored: seq<Scored>, ws: WeightMap, f: Factor)
    requires |scored| > 0 && DistinctAgents(Proposals(scored))
    requires ws == DefaultWeights(Proposals(scored))
    ensures Total(ws) == TotalWeight(BaseVotes(ws, Proposals(scored))) && Total(ws) > 0.0
    ensures VotesWithin(scored, ws, f, High)
  {
    var ps := Proposals(scored);
    DefaultWeightsAreBaseVotes(ps);
    assert BaseVotes(ws, ps) == ws;
    forall i | 0 <= i < |scored| ensures BaseWeight(ws, scored[i].proposal.agent) >= 0.0 {
      assert ps[i] == scored[i].proposal;
    }
    WithinHigh(scored, ws, f);
  }

  /** With no negative base weight, no vote rises above the high multiplier. */
  lemma WithinHigh(scored: seq<Scored>, ws: WeightMap, f: Factor)
    requires forall i :: 0 <= i < |scored| ==> BaseWeight(ws, scored[i].proposal.agent) >= 0.0
    ensures VotesWithin(scored, ws, f, High)
  {
    forall i | 0 <= i < |scored| ensures Rank(scored[i].combined.Get(f)) <= Rank(High) {
    }
  }

  /** No proposal's combined level for `f` is high. */
  predicate NoneHigh(scored: seq<Scored>, f: Factor) {
    forall i :: 0 <= i < |scored| ==> scored[i].combined.Get(f) != High
  }

  /** Without a high level, no vote rises above the medium multiplier. */
  lemma WithinMedium(scored: seq<Scored>, ws: WeightMap, f: Factor)
    requires VotesWithin(scored, ws, f, High) && NoneHigh(scored, f)
    ensures VotesWithin(scored, ws, f, Medium)
  {
  }

  /** When the weights sum to at least the proposals' base weights and none is negative, a
      factor's consensus lies between 0 and 1. Agents in the map that did not propose only
      enlarge the denominator. */
  lemma ConsensusAtMostOne(scored: seq<Scored>, ws: WeightMap, f: Factor)
    requires |scored| > 0 && VotesWithin(scored, ws, f, High)
    requires Total(ws) >= TotalWeight(BaseVotes(ws, Proposals(scored))) && Total(ws) > 0.0
    ensures 0.0 <= TallyFactor(scored, ws, f, MaxPossible(ws)).consensus <= 1.0
  {
    ConsensusWithin(scored, ws, f, High);
  }

  /** When in addition no combined level is high, a factor's consensus is at most 2/3. */
  lemma ConsensusAtMostTwoThirds(scored: seq<Scored>, ws: WeightMap, f: Factor)
    requires |scored| > 0 && VotesWithin(scored, ws, f, Medium)
    requires Total(ws) >= TotalWeight(BaseVotes(ws, Proposals(scored))) && Total(ws) > 0.0
    ensures TallyFactor(scored, ws, f, MaxPossible(ws)).consensus <= 2.0 / 3.0
  {
    ConsensusWithin(scored, ws, f, Medium);
  }

  /** With the default weights and one proposal per agent, a factor's consensus lies between
      0 and 1. */
  lemma DefaultConsensusAtMostOne(scored: seq<Scored>, ws: WeightMap, f: Factor)
    requires |scored| > 0 && DistinctAgents(Proposals(scored))
    requires ws == DefaultWeights(Proposals(scored))
    ensures 0.0 <= TallyFactor(scored, ws, f, MaxPossible(ws)).consensus <= 1.0
  {
    DefaultWeightsFit(scored, ws, f);
    ConsensusAtMostOne(scored, ws, f);
  }

  /** With the default weights, one proposal per agent and no high level, a factor's
      consensus is at most 2/3. */
  lemma DefaultConsensusAtMostTwoThirds(scored: seq<Scored>, ws: WeightMap, f: Factor)
    requires |scored| > 0 && DistinctAgents(Proposals(scored)) && NoneHigh(scored, f)
    requires ws == DefaultWeights(Proposals(scored))
    ensures TallyFactor(scored, ws, f, MaxPossible(ws)).consensus <= 2.0 / 3.0
  {
    DefaultWeightsFit(scored, ws, f);
    WithinMedium(scored, ws, f);
    ConsensusAtMostTwoThirds(scored, ws, f);
  }

  /** Scoring keeps the proposals, so the default weights of the scored proposals are those
      of the proposals. */
  lemma ScoredDefaults(ps: seq<Proposal>, evidence: Option<Evidence>)
    requires DistinctAgents(ps)
    ensures DistinctAgents(Proposals(ScoreAll(ps, evidence)))
    ensures ChosenWeights(ps, None) == DefaultWeights(Proposals(ScoreAll(ps, evidence)))
  {
    ScoredProposals(ps, evidence);
  }

  /** When every factor's consensus is at most 2/3, all three are flagged. */
  lemma AllFlagged(factors: Triple<FactorVote>, count: nat)
    requires factors.Get(T).consensus <= 2.0 / 3.0 && factors.Get(N).consensus <= 2.0 / 3.0
    requires factors.Get(M).consensus <= 2.0 / 3.0
    ensures |Disagreements(factors, count)| == 3
  {
    DisagreementsIff(factors, count);
  }

  /** Without case evidence no proposal's combined level is high. */
  lemma NoEvidenceNoneHigh(ps: seq<Proposal>, f: Factor)
    ensures NoneHigh(ScoreAll(ps, None), f)
  {
    var scored := ScoreAll(ps, None);
    forall i | 0 <= i < |scored| ensures scored[i].combined.Get(f) != High {
      NoEvidenceNoHigh(ps[i], ps, f);
    }
  }

  /** With the default weights and one proposal per agent, every tallied consensus lies
      between 0 and 1, whatever the case evidence. */
  lemma TabulatedConsensusInUnitRange(ps: seq<Proposal>, evidence: Option<Evidence>, f: Factor)
    requires |ps| > 0 && DistinctAgents(ps)
    ensures 0.0 <= Tabulate(ps, evidence, DefaultWeights(ps)).factors.Get(f).consensus <= 1.0
  {
    var ws := DefaultWeights(ps);
    var scored := ScoreAll(ps, evidence);
    TabulateFactor(ps, evidence, ws, f);
    ScoredConsensusInUnitRange(ps, evidence, ws, f);
    assert Tabulate(ps, evidence, ws).factors.Get(f) == TallyFactor(scored, ws, f, MaxPossible(ws));
  }

  lemma ScoredConsensusInUnitRange(ps: seq<Proposal>, evidence: Option<Evidence>, ws: WeightMap,
                                   f: Factor)
    requires |ps| > 0 && DistinctAgents(ps) && ws == DefaultWeights(ps)
    ensures 0.0 <= TallyFactor(ScoreAll(ps, evidence), ws, f, MaxPossible(ws)).consensus <= 1.0
  {
    ScoredDefaults(ps, evidence);
    DefaultConsensusAtMostOne(ScoreAll(ps, evidence), ws, f);
  }

  /** Without case evidence, with the default weights and one proposal per agent, every
      tallied consensus is at most 2/3. */
  lemma TabulatedNoEvidenceConsensus(ps: seq<Proposal>, f: Factor)
    requires |ps| > 0 && DistinctAgents(ps)
    ensures Tabulate(ps, None, DefaultWeights(ps)).factors.Get(f).consensus <= 2.0 / 3.0
  {
    var ws := DefaultWeights(ps);
    var scored := ScoreAll(ps, None);
    TabulateFactor(ps, None, ws, f);
    ScoredNoEvidenceConsensus(ps, ws, f);
    assert Tabulate(ps, None, ws).factors.Get(f) == TallyFactor(scored, ws, f, MaxPossible(ws));
  }

  lemma ScoredNoEvidenceConsensus(ps: seq<Proposal>, ws: WeightMap, f: Factor)
    requires |ps| > 0 && DistinctAgents(ps) && ws == DefaultWeights(ps)
    ensures TallyFactor(ScoreAll(ps, None), ws, f, MaxPossible(ws)).consensus <= 2.0 / 3.0
  {
    ScoredDefaults(ps, None);
    NoEvidenceNoneHigh(ps, f);
    DefaultConsensusAtMostTwoThirds(ScoreAll(ps, None), ws, f);
  }

  /** Without case evidence, with the default weights and one proposal per agent, all three
      factors fall below the 0.7 threshold and are reported as disagreements. */
  lemma TabulatedNoEvidenceFlags(ps: seq<Proposal>)
    requires |ps| > 0 && DistinctAgents(ps)
    ensures |Tabulate(ps, None, DefaultWeights(ps)).disagreements| == 3
  {
    TabulatedNoEvidenceConsensus(ps, T);
    TabulatedNoEvidenceConsensus(ps, N);
    TabulatedNoEvidenceConsensus(ps, M);
    AllFlagged(Tabulate(ps, None, DefaultWeights(ps)).factors, |ps|);
  }

  /** With the default weights and one proposal per agent, every consensus score of the vote
      lies between 0 and 1. */
  lemma ConsensusInUnitRange(u: CharSemantics, ps: seq<Proposal>, caseText: Option<string>,
                             f: Factor)
    requires |ps| > 0 && AllHashable(ps) && DistinctAgents(ps)
    ensures Vote(u, ps, caseText, None).Voted?
    ensures 0.0 <= Vote(u, ps, caseText, None).result.factors.Get(f).consensus <= 1.0
  {
    VoteIsTabulate(u, ps, caseText, None);
    TabulatedConsensusInUnitRange(ps, CaseEvidence(u, caseText), f);
  }

  /** Without case text no vote is high, so with the default weights and one proposal per
      agent a factor's consensus is at most 2/3, below the 0.7 threshold. */
  lemma NoCaseTextConsensus(u: CharSemantics, ps: seq<Proposal>, caseText: Option<string>,
                            f: Factor)
    requires |ps| > 0 && AllHashable(ps) && DistinctAgents(ps) && !CaseGiven(caseText)
    ensures Vote(u, ps, caseText, None).Voted?
    ensures Vote(u, ps, caseText, None).result.factors.Get(f).consensus <= 2.0 / 3.0
  {
    VoteIsTabulate(u, ps, caseText, None);
    TabulatedNoEvidenceConsensus(ps, f);
  }

  /** Without case text, with the default weights and one proposal per agent, all three
      factors are reported as disagreements. */
  lemma NoCaseTextFlagsEveryFactor(u: CharSemantics, ps: seq<Proposal>, caseText: Option<string>)
    requires |ps| > 0 && AllHashable(ps) && DistinctAgents(ps) && !CaseGiven(caseText)
    ensures Vote(u, ps, caseText, None).Voted?
    ensures |Vote(u, ps, caseText, None).result.disagreements| == 3
  {
    VoteIsTabulate(u, ps, caseText, None);
    TabulatedNoEvidenceFlags(ps);
  }
}
