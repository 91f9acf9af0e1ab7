/** The two confidence scorers of utils/confidence.py and the rule that combines them
    (utils/voting.py): how clearly the case text supports each factor, how many other agents
    agree with a proposal, and the per-factor combination the vote weights by. */
module Confidence {

  import opened Wrappers
  import opened Text
  import opened JsonValue
  import opened Staging
  import opened Patterns
  import opened Extraction

  // ---------------------------------------------------------------------------------------
  // Evidence in the case text: `calculate_confidence_from_case`

  const InvasionKeywords: seq<string> :=
    ["mediastinum", "trachea", "heart", "chest wall", "invasion",
     "浸潤", "縦隔", "気管", "心臓", "胸壁"]
  const LymphKeywords: seq<string> :=
    ["lymph node", "リンパ節", "hilar", "mediastinal", "scalene",
     "supraclavicular", "肺門", "縦隔", "鎖骨上"]
  const LocationKeywords: seq<string> :=
    ["ipsilateral", "contralateral", "同側", "対側", "同側縦隔", "対側縦隔"]
  const MetastasisKeywords: seq<string> :=
    ["metastasis", "転移", "distant", "bone", "liver", "brain",
     "adrenal", "骨転移", "遠隔転移", "肝転移", "脳転移", "副腎"]
  /** Matched against the lower-cased text. */
  const NoDistantPhrase: string := "no distant"
  /** "no pleural effusion", matched against the text as written. */
  const NoEffusionPhrase: string := "胸水認めません"
  /** Matched against the text as written. */
  const NegativeKeywords: seq<string> := ["認めません", "ありません", "ない", "no"]

  const SizeReason: string := "Tumor size explicitly mentioned"
  const NoSizeReason: string := "Tumor size not mentioned"
  const InvasionReason: string := "Invasion mentioned"
  const LocationReason: string := "Lymph node location clearly specified"
  const AmbiguousLocationReason: string := "Lymph nodes mentioned but location ambiguous"
  const NoLymphReason: string := "No clear lymph node information"
  const MetastasisReason: string := "Distant metastasis explicitly mentioned"
  const NoMetastasisReason: string := "Explicitly stated no distant metastasis"
  const NegativeReason: string := "Negative statement about metastasis"
  const SilentReason: string := "No explicit mention of distant metastasis"

  /** `any(kw.lower() in text.lower() for kw in keywords)` */
  function MentionsAny(u: CharSemantics, text: string, keywords: seq<string>): (r: bool)
    ensures r <==> exists k :: 0 <= k < |keywords| && Contains(u.lower(text), u.lower(keywords[k]))
    decreases |keywords|
  {
    |keywords| > 0
    && (Contains(u.lower(text), u.lower(keywords[0])) || MentionsAny(u, text, keywords[1..]))
  }

  /** `any(kw in text for kw in keywords)`, with no case folding. */
  function ContainsAny(text: string, keywords: seq<string>): (r: bool)
    ensures r <==> exists k :: 0 <= k < |keywords| && Contains(text, keywords[k])
    decreases |keywords|
  {
    |keywords| > 0 && (Contains(text, keywords[0]) || ContainsAny(text, keywords[1..]))
  }

  /** What `calculate_confidence_from_case` returns: a level and the reasons for each factor,
      and the overall level. */
  datatype Evidence = Evidence(levels: Triple<Level>, reasons: Triple<seq<string>>, overall: Level)

  /** The "overall" entry: "high" when all three are high, else "low" when one is low, else
      "medium". */
  function Overall(levels: Triple<Level>): (r: Level)
    ensures Rank(r) <= Rank(levels.t) && Rank(r) <= Rank(levels.n) && Rank(r) <= Rank(levels.m)
    ensures r == levels.t || r == levels.n || r == levels.m
  {
    if levels.t == High && levels.n == High && levels.m == High then High
    else if levels.t == Low || levels.n == Low || levels.m == Low then Low
    else Medium
  }

  /** The overall level is the lowest of the three. */
  lemma OverallIsLowest(levels: Triple<Level>)
    ensures Overall(levels) == Lower(Lower(levels.t, levels.n), levels.m)
  {
  }

  /** The T entries: high on a stated size, raised from low to medium by a mention of
      invasion. */
  function TumourEvidence(u: CharSemantics, text: string): (r: (Level, seq<string>))
    ensures r.0 == High <==> HasSize(u, text)
    ensures r.0 == Low <==> !HasSize(u, text) && !MentionsAny(u, text, InvasionKeywords)
    ensures InvasionReason in r.1 <==> MentionsAny(u, text, InvasionKeywords)
    ensures 1 <= |r.1| <= 2
  {
    var sized := HasSize(u, text);
    var invaded := MentionsAny(u, text, InvasionKeywords);
    var level := if sized then High else if invaded then Medium else Low;
    var first := if sized then SizeReason else NoSizeReason;
    InvasionReasonDistinct();
    (level, if invaded then [first, InvasionReason] else [first])
  }

  /** The invasion reason is neither size reason: they begin with different letters. */
  lemma InvasionReasonDistinct()
    ensures InvasionReason != SizeReason && InvasionReason != NoSizeReason
  {
    assert InvasionReason[0] == 'I' && SizeReason[0] == 'T' && NoSizeReason[0] == 'T';
  }

  /** The N entries: low without lymph nodes, high when their side is named too. */
  function NodeEvidence(u: CharSemantics, text: string): (r: (Level, seq<string>))
    ensures r.0 == High <==>
              MentionsAny(u, text, LymphKeywords) && MentionsAny(u, text, LocationKeywords)
    ensures r.0 == Low <==> !MentionsAny(u, text, LymphKeywords)
    ensures |r.1| == 1
  {
    if MentionsAny(u, text, LymphKeywords) then
      if MentionsAny(u, text, LocationKeywords) then (High, [LocationReason])
      else (Medium, [AmbiguousLocationReason])
    else (Low, [NoLymphReason])
  }

  /** The M entries: high when metastasis or its absence is stated, and never low. */
  function MetastasisEvidence(u: CharSemantics, text: string): (r: (Level, seq<string>))
    ensures r.0 != Low
    ensures r.0 == High <==>
              MentionsAny(u, text, MetastasisKeywords) || Contains(u.lower(text), NoDistantPhrase)
              || Contains(text, NoEffusionPhrase)
    ensures |r.1| == 1
  {
    if MentionsAny(u, text, MetastasisKeywords) then (High, [MetastasisReason])
    else if Contains(u.lower(text), NoDistantPhrase) || Contains(text, NoEffusionPhrase) then
      (High, [NoMetastasisReason])
    else if ContainsAny(text, NegativeKeywords) then (Medium, [NegativeReason])
    else (Medium, [SilentReason])
  }

  /** `calculate_confidence_from_case(proposal, text)`. The proposal argument is never read,
      so it is not a parameter here. */
  function FromCase(u: CharSemantics, text: string): (r: Evidence)
    ensures r.levels.m != Low
    ensures r.overall == Lower(Lower(r.levels.t, r.levels.n), r.levels.m)
    ensures r.overall == Low <==> r.levels.t == Low || r.levels.n == Low
    ensures 1 <= |r.reasons.t| <= 2 && |r.reasons.n| == 1 && |r.reasons.m| == 1
  {
    var t := TumourEvidence(u, text);
    var n := NodeEvidence(u, text);
    var m := MetastasisEvidence(u, text);
    var levels := Triple(t.0, n.0, m.0);
    OverallIsLowest(levels);
    Evidence(levels, Triple(t.1, n.1, m.1), Overall(levels))
  }

  /** The T level is high exactly when the size pattern matches somewhere in the text. */
  lemma TumourHighIffSizePattern(u: CharSemantics, text: string)
    requires Sane(u)
    ensures FromCase(u, text).levels.t == High <==>
              exists i, j, f, w :: SizeMatchAt(u, text, i, j, f, w)
  {
    HasSizeIff(u, text);
  }

  // ---------------------------------------------------------------------------------------
  // Agreement with the other agents: `calculate_confidence_from_agreement`

  /** `xs.count(x)` */
  function Count<X(==)>(xs: seq<X>, x: X): (c: nat)
    ensures c == multiset(xs)[x]
    decreases |xs|
  {
    if |xs| == 0 then 0
    else
      assert xs == xs[..|xs| - 1] + [xs[|xs| - 1]];
      Count(xs[..|xs| - 1], x) + (if xs[|xs| - 1] == x then 1 else 0)
  }

  /** Counting in a list is counting in all but its last element, then checking that one. */
  lemma CountOfPrefix<X>(xs: seq<X>, x: X)
    requires |xs| > 0
    ensures Count(xs, x) == Count(xs[..|xs| - 1], x) + (if xs[|xs| - 1] == x then 1 else 0)
  {
  }

  /** `[p for p in all if p["agent"] != agent]` */
  function Others(agent: string, all: seq<Proposal>): (r: seq<Proposal>)
    ensures |r| <= |all|
    ensures forall p :: multiset(r)[p] == if p.agent == agent then 0 else multiset(all)[p]
    ensures forall p :: p in r <==> p in all && p.agent != agent
    decreases |all|
  {
    if |all| == 0 then []
    else
      var last := all[|all| - 1];
      assert all == all[..|all| - 1] + [last];
      Others(agent, all[..|all| - 1]) + (if last.agent == agent then [] else [last])
  }

  /** `[p[f] for p in ps]` */
  function ValuesOf(ps: seq<Proposal>, f: Factor): (r: seq<Json>)
    ensures |r| == |ps| && forall k :: 0 <= k < |ps| ==> r[k] == ps[k].stage.Get(f)
  {
    seq(|ps|, k requires 0 <= k < |ps| => ps[k].stage.Get(f))
  }

  /** `agreement_to_conf(agree / total)`: "high" from a rate of 0.8, "medium" from 0.5. */
  function RateLevel(agree: nat, total: nat): (l: Level)
    requires 0 < total
    ensures l == High <==> agree as real / total as real >= 0.8
    ensures l == Low <==> agree as real / total as real < 0.5
  {
    RateThresholds(agree, total);
    if 5 * agree >= 4 * total then High
    else if 2 * agree >= total then Medium
    else Low
  }

  lemma RateThresholds(agree: nat, total: nat)
    requires 0 < total
    ensures agree as real / total as real >= 0.8 <==> 5 * agree >= 4 * total
    ensures agree as real / total as real >= 0.5 <==> 2 * agree >= total
  {
    ShareAtLeast(agree as real, total as real, 0.8);
    ShareAtLeast(agree as real, total as real, 0.5);
  }

  /** Comparing a share with a threshold is comparing the part with the scaled whole. */
  lemma ShareAtLeast(part: real, whole: real, c: real)
    requires whole > 0.0
    ensures part / whole >= c <==> part >= c * whole
  {
    var q := part / whole;
    assert q * whole == part;
    if q >= c {
      assert q * whole >= c * whole;
    } else {
      assert q * whole < c * whole;
    }
  }

  /** What `calculate_confidence_from_agreement` returns: a level per factor and, when there
      are other agents to compare with, the agreement rates. */
  datatype Agreement = Agreement(levels: Triple<Level>, rates: Option<Triple<real>>)

  /** The share of `others` that give `p`'s value for `f`. */
  function AgreeingCount(p: Proposal, others: seq<Proposal>, f: Factor): nat {
    Count(ValuesOf(others, f), p.stage.Get(f))
  }

  /** `calculate_confidence_from_agreement(p, all)` */
  function FromAgreement(p: Proposal, all: seq<Proposal>): (r: Agreement)
    ensures r.rates.None? ==> r.levels == Same(Medium)
    ensures r.rates.None? <==> |all| <= 1 || |Others(p.agent, all)| == 0
    ensures r.rates.Some? ==> forall f ::
              var others := Others(p.agent, all);
              && r.rates.value.Get(f) == AgreeingCount(p, others, f) as real / |others| as real
              && r.levels.Get(f) == RateLevel(AgreeingCount(p, others, f), |others|)
    ensures r.rates.Some? ==> forall f :: 0.0 <= r.rates.value.Get(f) <= 1.0
  {
    var others := Others(p.agent, all);
    RatesWithinOne(p, others);
    if |all| <= 1 || |others| == 0 then Agreement(Same(Medium), None)
    else
      Agreement(
        PerFactor(f => RateLevel(AgreeingCount(p, others, f), |others|)),
        Some(PerFactor(f => AgreeingCount(p, others, f) as real / |others| as real)))
  }

  /** No more of the others agree than there are others, so every rate is at most 1. */
  lemma RatesWithinOne(p: Proposal, others: seq<Proposal>)
    ensures forall f :: AgreeingCount(p, others, f) <= |others|
    ensures 0 < |others| ==>
              forall f :: 0.0 <= AgreeingCount(p, others, f) as real / |others| as real <= 1.0
  {
    forall f ensures AgreeingCount(p, others, f) <= |others| {
      CountAtMostLength(ValuesOf(others, f), p.stage.Get(f));
    }
    if 0 < |others| {
      forall f ensures 0.0 <= AgreeingCount(p, others, f) as real / |others| as real <= 1.0 {
        ShareAtLeast(AgreeingCount(p, others, f) as real, |others| as real, 0.0);
        ShareAtMost(AgreeingCount(p, others, f) as real, |others| as real);
      }
    }
  }

  lemma {:induction false} CountAtMostLength<X>(xs: seq<X>, x: X)
    ensures Count(xs, x) <= |xs|
    decreases |xs|
  {
    if |xs| > 0 {
      CountAtMostLength(xs[..|xs| - 1], x);
    }
  }

  /** A part no larger than the whole is at most all of it. */
  lemma ShareAtMost(part: real, whole: real)
    requires 0.0 < whole && part <= whole
    ensures part / whole <= 1.0
  {
    var q := part / whole;
    assert q * whole == part;
  }

  /** When every other agent gives the same value for `f`, the level for `f` is high. */
  lemma UnanimousOthersGiveHigh(p: Proposal, all: seq<Proposal>, f: Factor)
    requires 1 < |all| && HasOtherAgent(p.agent, all)
    requires forall q :: q in all && q.agent != p.agent ==> q.stage.Get(f) == p.stage.Get(f)
    ensures FromAgreement(p, all).levels.Get(f) == High
  {
    var others := Others(p.agent, all);
    var values := ValuesOf(others, f);
    forall k | 0 <= k < |others| ensures values[k] == p.stage.Get(f) {
      assert others[k] in others;
    }
    AllEqualCount(values, p.stage.Get(f));
    AgreementLevel(p, all, f);
  }

  /** When no other agent gives the same value for `f`, the level for `f` is low. */
  lemma DissentingOthersGiveLow(p: Proposal, all: seq<Proposal>, f: Factor)
    requires 1 < |all| && HasOtherAgent(p.agent, all)
    requires forall q :: q in all && q.agent != p.agent ==> q.stage.Get(f) != p.stage.Get(f)
    ensures FromAgreement(p, all).levels.Get(f) == Low
  {
    var others := Others(p.agent, all);
    forall k | 0 <= k < |others| ensures others[k].stage.Get(f) != p.stage.Get(f) {
      assert others[k] in others;
    }
    NoneAgreeing(p, others, f);
    AgreementLevel(p, all, f);
  }

  /** With other agents to compare with, each level is the one their agreement rate earns. */
  lemma AgreementLevel(p: Proposal, all: seq<Proposal>, f: Factor)
    requires 1 < |all| && HasOtherAgent(p.agent, all)
    ensures FromAgreement(p, all).levels.Get(f)
            == RateLevel(AgreeingCount(p, Others(p.agent, all), f), |Others(p.agent, all)|)
  {
    OthersOfOtherAgent(p.agent, all);
  }

  /** Some proposal in `all` comes from an agent other than `agent`. */
  predicate HasOtherAgent(agent: string, all: seq<Proposal>) {
    exists k :: 0 <= k < |all| && all[k].agent != agent
  }

  /** Another agent's proposal is among the others. */
  lemma OthersOfOtherAgent(agent: string, all: seq<Proposal>)
    requires HasOtherAgent(agent, all)
    ensures 0 < |Others(agent, all)|
  {
    var k :| 0 <= k < |all| && all[k].agent != agent;
    assert all[k] in all;
    assert all[k] in Others(agent, all);
  }

  /** Nobody agrees when nobody gives the same value. */
  lemma NoneAgreeing(p: Proposal, others: seq<Proposal>, f: Factor)
    requires forall k :: 0 <= k < |others| ==> others[k].stage.Get(f) != p.stage.Get(f)
    ensures AgreeingCount(p, others, f) == 0
  {
    assert p.stage.Get(f) !in ValuesOf(others, f);
  }

  lemma AllEqualCount<X>(xs: seq<X>, x: X)
    requires forall k :: 0 <= k < |xs| ==> xs[k] == x
    ensures Count(xs, x) == |xs|
  {
    assert xs == seq(|xs|, k => x);
    assert multiset(xs)[x] == |xs| by {
      MultisetOfConstant(xs, x);
    }
  }

  lemma {:induction false} MultisetOfConstant<X>(xs: seq<X>, x: X)
    requires forall k :: 0 <= k < |xs| ==> xs[k] == x
    ensures multiset(xs)[x] == |xs|
    decreases |xs|
  {
    if |xs| > 0 {
      assert xs == xs[..|xs| - 1] + [x];
      MultisetOfConstant(xs[..|xs| - 1], x);
    }
  }

  /** More agreement never lowers the level. */
  lemma RateLevelMonotone(a: nat, b: nat, total: nat)
    requires 0 < total && a <= b
    ensures Rank(RateLevel(a, total)) <= Rank(RateLevel(b, total))
  {
  }

  // ---------------------------------------------------------------------------------------
  // The combination used by the vote

  /** The "combined_confidence" of one factor: "high" when both are high, "low" when either
      is low, "medium" otherwise. */
  function Combine(fromCase: Level, fromAgreement: Level): (r: Level)
    ensures Rank(r) <= Rank(fromCase) && Rank(r) <= Rank(fromAgreement)
    ensures r == fromCase || r == fromAgreement
  {
    if fromCase == High && fromAgreement == High then High
    else if fromCase == Low || fromAgreement == Low then Low
    else Medium
  }

  /** The combination is the lower of the two levels. */
  lemma CombineIsLower(a: Level, b: Level)
    ensures Combine(a, b) == Lower(a, b)
  {
  }
}
