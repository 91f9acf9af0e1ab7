/** `extract_all_tnm_proposals` (utils/voting.py): one proposal per chat message that states a
    stage, taken from the message's JSON when it decodes to an object with "T", "N" and "M",
    and otherwise from the first `T<digit>`, `N<digit>` and `M<digit>` tags in its text. */
module Extraction {

  import opened Wrappers
  import opened Text
  import opened JsonValue
  import opened Payload
  import opened Staging
  import opened Patterns

  /** A chat message; a missing "name" or "content" key is `None`. */
  datatype Message = Message(name: Option<string>, content: Option<string>)

  /** `msg.get("name", "unknown")` */
  function AgentName(msg: Message): string {
    msg.name.GetOr("unknown")
  }

  /** `msg.get("content", "")` */
  function Content(msg: Message): string {
    msg.content.GetOr("")
  }

  /** Where a proposal came from: the "source" key, "json" or "regex". */
  datatype Source = FromJson | FromRegex

  /** The dict the extraction appends: the agent, its T, N and M values, the "TNM" label, the
      rationale, the confidence the agent stated itself, and the message's position. */
  datatype Proposal = Proposal(
    agent: string,
    stage: Triple<Json>,
    tnm: Json,
    rationale: Json,
    stated: Json,
    messageIndex: nat,
    source: Source)

  /** The label the code builds when a message gives none: `f"T{t},N{n},M{m}"`. */
  function LabelOf(stage: Triple<Json>): string {
    "T" + Str(stage.t) + ",N" + Str(stage.n) + ",M" + Str(stage.m)
  }

  // ---------------------------------------------------------------------------------------
  // The JSON path

  /** The members of the decoded value when the JSON path applies. `"T" in json_data` on a
      list or a string, and `.get` on anything but a dict, end in the bare `except`, so only a
      dict holding all three keys gets through. */
  function StagedObject(decoded: Option<Json>): (r: Option<seq<(string, Json)>>)
    ensures r.Some? <==> decoded.Some? && decoded.value.JObject?
                         && HasKey(decoded.value.fields, "T") && HasKey(decoded.value.fields, "N")
                         && HasKey(decoded.value.fields, "M")
    ensures r.Some? ==> decoded == Some(JObject(r.value))
  {
    match decoded
    case Some(JObject(fields)) =>
      if HasKey(fields, "T") && HasKey(fields, "N") && HasKey(fields, "M") then Some(fields)
      else None
    case _ => None
  }

  /** The proposal built from a decoded object holding "T", "N" and "M". */
  function JsonProposal(agent: string, fields: seq<(string, Json)>, index: nat): (r: Proposal)
    requires HasKey(fields, "T") && HasKey(fields, "N") && HasKey(fields, "M")
    ensures r.agent == agent && r.messageIndex == index && r.source == FromJson
    ensures forall f :: Lookup(fields, FactorName(f)) == Some(r.stage.Get(f))
    ensures Lookup(fields, "TNM").Some? ==> r.tnm == Lookup(fields, "TNM").value
    ensures Lookup(fields, "TNM").None? ==> r.tnm == JString(LabelOf(r.stage))
  {
    var stage := Triple(Lookup(fields, "T").value, Lookup(fields, "N").value,
                        Lookup(fields, "M").value);
    Proposal(
      agent,
      stage,
      GetOr(fields, "TNM", JString(LabelOf(stage))),
      GetOr(fields, "Rationale", JString("")),
      GetOr(fields, "Confidence", JObject([])),
      index,
      FromJson)
  }

  // ---------------------------------------------------------------------------------------
  // The regex path

  /** The rationale of a regex proposal: `content[:300]`. */
  const RationaleLength: nat := 300

  /** The proposal built from the three tags, when all three are found. */
  function RegexProposal(u: CharSemantics, agent: string, content: string, index: nat)
    : (r: Option<Proposal>)
    ensures r.Some? <==> TagValue(u, content, T).Some? && TagValue(u, content, N).Some?
                         && TagValue(u, content, M).Some?
    ensures r.Some? ==>
              && r.value.agent == agent && r.value.messageIndex == index
              && r.value.source == FromRegex
              && r.value.rationale == JString(Take(content, RationaleLength))
              && r.value.stated == JObject([])
              && r.value.stage == Triple(JInt(TagValue(u, content, T).value),
                                         JInt(TagValue(u, content, N).value),
                                         JInt(TagValue(u, content, M).value))
  {
    match (TagValue(u, content, T), TagValue(u, content, N), TagValue(u, content, M))
    case (Some(t), Some(n), Some(m)) =>
      Some(Proposal(
        agent,
        Triple(JInt(t), JInt(n), JInt(m)),
        JString("T" + [DigitChar(t)] + ",N" + [DigitChar(n)] + ",M" + [DigitChar(m)]),
        JString(Take(content, RationaleLength)),
        JObject([]),
        index,
        FromRegex))
    case _ => None
  }

  // ---------------------------------------------------------------------------------------
  // The whole extraction

  /** What the loop body does with message `index`. */
  function ExtractOne(decode: string -> Option<Json>, u: CharSemantics, msg: Message, index: nat)
    : (r: Option<Proposal>)
    ensures r.Some? ==> r.value.agent == AgentName(msg) && r.value.messageIndex == index
  {
    match StagedObject(ParseJson(decode, u, Content(msg)))
    case Some(fields) => Some(JsonProposal(AgentName(msg), fields, index))
    case None => RegexProposal(u, AgentName(msg), Content(msg), index)
  }

  /** The positions below `n` at which `g` yields a value, in increasing order. */
  function Hits<B>(g: nat -> Option<B>, n: nat): (r: seq<nat>)
    ensures |r| <= n
    ensures forall k :: 0 <= k < |r| ==> r[k] < n && g(r[k]).Some?
    ensures forall k, l :: 0 <= k < l < |r| ==> r[k] < r[l]
    ensures forall i :: 0 <= i < n && g(i).Some? ==> i in r
    decreases n
  {
    if n == 0 then []
    else Hits(g, n - 1) + (if g(n - 1).Some? then [n - 1] else [])
  }

  /** The values `g` yields below `n`, in order of position. */
  function Collect<B>(g: nat -> Option<B>, n: nat): (r: seq<B>)
    ensures |r| == |Hits(g, n)|
    ensures forall k :: 0 <= k < |r| ==> g(Hits(g, n)[k]) == Some(r[k])
  {
    var hits := Hits(g, n);
    seq(|hits|, k requires 0 <= k < |hits| => g(hits[k]).value)
  }

  /** The loop body as a function of the message index. */
  function ProposalAt(decode: string -> Option<Json>, u: CharSemantics, msgs: seq<Message>)
    : nat -> Option<Proposal>
  {
    (i: nat) => if i < |msgs| then ExtractOne(decode, u, msgs[i], i) else None
  }

  /** `extract_all_tnm_proposals(chat_history)`: the proposals of the messages that yield
      one, in message order, each tagged with its message's index. */
  function ExtractAll(decode: string -> Option<Json>, u: CharSemantics, msgs: seq<Message>)
    : (r: seq<Proposal>)
    ensures |r| <= |msgs|
    ensures forall k :: 0 <= k < |r| ==>
              r[k].messageIndex < |msgs|
              && ExtractOne(decode, u, msgs[r[k].messageIndex], r[k].messageIndex) == Some(r[k])
    ensures forall k, l :: 0 <= k < l < |r| ==> r[k].messageIndex < r[l].messageIndex
  {
    Collect(ProposalAt(decode, u, msgs), |msgs|)
  }

  /** No message that yields a proposal is skipped. */
  lemma ExtractAllComplete(decode: string -> Option<Json>, u: CharSemantics, msgs: seq<Message>,
                           i: nat)
    requires i < |msgs| && ExtractOne(decode, u, msgs[i], i).Some?
    ensures exists k :: 0 <= k < |ExtractAll(decode, u, msgs)|
                        && ExtractAll(decode, u, msgs)[k] == ExtractOne(decode, u, msgs[i], i).value
  {
    var g := ProposalAt(decode, u, msgs);
    assert g(i) == ExtractOne(decode, u, msgs[i], i);
    var k := CollectComplete(g, |msgs|, i);
    assert ExtractAll(decode, u, msgs) == Collect(g, |msgs|);
    assert ExtractAll(decode, u, msgs)[k] == ExtractOne(decode, u, msgs[i], i).value;
  }

  /** Every value `g` yields below `n` is collected, at position `k`. */
  lemma CollectComplete<B>(g: nat -> Option<B>, n: nat, i: nat) returns (k: nat)
    requires i < n && g(i).Some?
    ensures k < |Collect(g, n)| && Collect(g, n)[k] == g(i).value
  {
    var hits := Hits(g, n);
    k :| 0 <= k < |hits| && hits[k] == i;
  }

  // ---------------------------------------------------------------------------------------
  // Properties

  /** The tag pattern for `f` matches somewhere in `s`. */
  ghost predicate TagFound(u: CharSemantics, s: string, f: Factor) {
    exists p, q :: TagMatchAt(u, s, f, p, q)
  }

  /** The match `re.search` reports: no match starts further left. */
  ghost predicate FirstTagMatch(u: CharSemantics, s: string, f: Factor, p: int, q: int) {
    TagMatchAt(u, s, f, p, q) && forall p', q' :: 0 <= p' < p ==> !TagMatchAt(u, s, f, p', q')
  }

  lemma TagValueFromSearch(u: CharSemantics, s: string, f: Factor)
    requires Sane(u)
    ensures TagValue(u, s, f).Some? <==> TagFound(u, s, f)
    ensures TagValue(u, s, f).Some? ==>
              exists p, q :: FirstTagMatch(u, s, f, p, q)
                             && TagValue(u, s, f).value == s[q] as int - '0' as int
  {
    match TagSearch(u, s, f, 0)
    case None =>
    case Some((p, q)) =>
      assert FindTag(u, s, f) == Some(s[q]);
      assert FirstTagMatch(u, s, f, p, q);
  }

  /** The regex path finds a stage exactly when all three tag patterns match. */
  lemma RegexProposalIff(u: CharSemantics, agent: string, content: string, index: nat)
    requires Sane(u)
    ensures RegexProposal(u, agent, content, index).Some? <==>
              TagFound(u, content, T) && TagFound(u, content, N) && TagFound(u, content, M)
  {
    TagValueFromSearch(u, content, T);
    TagValueFromSearch(u, content, N);
    TagValueFromSearch(u, content, M);
  }

  /** Each value of a regex proposal is the digit of the leftmost match of its pattern. */
  lemma RegexStageFromSearch(u: CharSemantics, agent: string, content: string, index: nat,
                             f: Factor)
    requires Sane(u) && RegexProposal(u, agent, content, index).Some?
    ensures TagFound(u, content, f)
    ensures exists p, q ::
              && FirstTagMatch(u, content, f, p, q)
              && RegexProposal(u, agent, content, index).value.stage.Get(f)
                 == JInt(content[q] as int - '0' as int)
  {
    TagValueFromSearch(u, content, f);
  }

  lemma SingleDigitString(d: nat)
    requires d < 10
    ensures Str(JInt(d)) == [DigitChar(d)]
  {
  }

  /** A regex proposal carries the label its own values print to, and values within the
      ranges `[0-4]`, `[0-3]` and `[01]`. */
  lemma RegexProposalShape(u: CharSemantics, agent: string, content: string, index: nat)
    requires RegexProposal(u, agent, content, index).Some?
    ensures RegexProposal(u, agent, content, index).value.tnm
            == JString(LabelOf(RegexProposal(u, agent, content, index).value.stage))
    ensures forall f :: RegexProposal(u, agent, content, index).value.stage.Get(f).JInt?
                        && 0 <= RegexProposal(u, agent, content, index).value.stage.Get(f).i
                              < |DigitClass(f)|
  {
    RegexLabel(u, agent, content, index);
    RegexValuesInClass(u, agent, content, index);
  }

  lemma RegexValuesInClass(u: CharSemantics, agent: string, content: string, index: nat)
    requires RegexProposal(u, agent, content, index).Some?
    ensures forall f :: RegexProposal(u, agent, content, index).value.stage.Get(f).JInt?
                        && 0 <= RegexProposal(u, agent, content, index).value.stage.Get(f).i
                              < |DigitClass(f)|
  {
    forall f {
      RegexValueInClass(u, agent, content, index, f);
    }
  }

  lemma RegexLabel(u: CharSemantics, agent: string, content: string, index: nat)
    requires RegexProposal(u, agent, content, index).Some?
    ensures RegexProposal(u, agent, content, index).value.tnm
            == JString(LabelOf(RegexProposal(u, agent, content, index).value.stage))
  {
    var t := TagValue(u, content, T).value;
    var n := TagValue(u, content, N).value;
    var m := TagValue(u, content, M).value;
    SingleDigitString(t);
    SingleDigitString(n);
    SingleDigitString(m);
    var r := RegexProposal(u, agent, content, index).value;
    assert r.stage == Triple(JInt(t), JInt(n), JInt(m));
    assert r.tnm == JString("T" + [DigitChar(t)] + ",N" + [DigitChar(n)] + ",M" + [DigitChar(m)]);
  }

  lemma RegexValueInClass(u: CharSemantics, agent: string, content: string, index: nat,
                          f: Factor)
    requires RegexProposal(u, agent, content, index).Some?
    ensures RegexProposal(u, agent, content, index).value.stage.Get(f)
            == JInt(TagValue(u, content, f).value)
    ensures TagValue(u, content, f).value < |DigitClass(f)|
  {
  }

  /** A message gives a JSON proposal exactly when its payload decodes to an object holding
      "T", "N" and "M", whatever tags its text holds; it gives a regex proposal exactly when
      it does not and all three tag patterns match its text. */
  lemma ExtractOneSource(decode: string -> Option<Json>, u: CharSemantics, msg: Message, index: nat)
    ensures var d := ParseJson(decode, u, Content(msg));
            var r := ExtractOne(decode, u, msg, index);
            var staged := d.Some? && d.value.JObject? && HasKey(d.value.fields, "T")
                          && HasKey(d.value.fields, "N") && HasKey(d.value.fields, "M");
            && (r.Some? && r.value.source == FromJson <==> staged)
            && (Sane(u) ==>
                  (r.Some? && r.value.source == FromRegex <==>
                     && !staged
                     && TagFound(u, Content(msg), T) && TagFound(u, Content(msg), N)
                     && TagFound(u, Content(msg), M)))
  {
    if Sane(u) {
      RegexProposalIff(u, AgentName(msg), Content(msg), index);
    }
  }
}
