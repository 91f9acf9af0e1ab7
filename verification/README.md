# TNM proposal extraction and weighted voting, in Dafny

This project models the decision core of a multi-agent TNM lung-cancer staging system. Several agents
discuss a case in a chat. The core turns that chat into one stage (T, N, M), with a consensus score and
a confidence profile. It has three parts:

- **Payload selection** (`prase_json`, utils/utils.py). It picks the part of an agent message that goes
  to `json.loads`. That part is a `json.dumps({...})` argument or a `"top_k_specialists"` dict literal
  under a python fence, else the body of a json, JSON or plain code fence, else a bare `{...}`, else the
  whole message stripped of fence characters. Modules: `Payload` and `PayloadProperties`.
- **Extraction** (`extract_all_tnm_proposals`, utils/voting.py). It reads one proposal per message that
  states a stage: from its JSON when that decodes to an object with "T", "N" and "M", otherwise from the
  first `T<digit>`, `N<digit>` and `M<digit>` tags of its text. Modules: `Patterns` and `Extraction`.
- **Confidence and voting** (utils/confidence.py and `weighted_vote_with_confidence`, utils/voting.py).
  - The case text gives each factor a level (size, invasion, lymph-node and metastasis keywords).
  - Agreement with the other agents gives a second level. The two are combined per factor by taking the
    lower one.
  - Every proposal votes for its value with its agent's weight times 1.5, 1.0 or 0.5 for a high, medium
    or low combined level. The heaviest value wins, the first one on a tie.
  - The consensus score is the winner's weight over 1.5 times the sum of the agent weights.
  - Factors under 0.7 are reported as disagreements.
  - main_ws.py supplies the same default weights (1.5 for a "Supervisor" agent, 1.0 otherwise). It then
    records the rationale of the proposal with the most high levels.
  - Modules: `Confidence`, `Tally`, `Voting` and `VotingProperties`.

Shared vocabulary sits in `Staging` (factors, levels, per-factor triples), `Text` (substring search,
stripping, decimal rendering), `JsonValue` (decoded values, `dict.get`, `str()`) and `Wrappers`
(`Option`).

Three parts of the environment are parameters, not models:

- `json.loads` is a parameter `decode: string -> Option<Json>`. `None` stands for the exception it raises.
- Python's Unicode tables (`\w`, `\s`, `\d`, `str.lower`) are a `CharSemantics` value. The proofs assume
  only `Sane`: ASCII digits, brackets, braces, `:` and a few letters are not whitespace, and the staging
  letters are word characters.
- A call that raises `TypeError` because a list or dict became a tally key is the outcome `Unhashable`.

Behaviour of the code that the proofs bring out:

- **Consensus can exceed 1.** With the default weights, a consensus score in [0, 1] is guaranteed only
  when each agent proposes once (`VotingProperties.ConsensusInUnitRange`). For any other weight map it is
  guaranteed when the weights are not negative and sum to at least the base weights of the proposals
  (`VotingProperties.ConsensusAtMostOne`). The default weights count each agent once, but the tally
  counts every proposal. So when one agent's two proposals of the same value are the only proposals,
  with no case text, that factor's consensus is 4/3 (`VotingProperties.RepeatedAgentConsensus`). The
  docstring of `weighted_vote_with_confidence` promises 0 to 1.
- **Every factor is flagged without case text.** No combined level can then be high. With the default
  weights and one proposal per agent, every factor's consensus is at most 2/3, so all three factors are
  reported as disagreements even when the agents agree unanimously
  (`VotingProperties.NoCaseTextFlagsEveryFactor`).
- **A python fence can reach `json.loads` with the word "python" in front.** This happens when the
  python fence is the message's first fence, the message has no ```` ```json ```` or ```` ```JSON ````
  marker, and the python branch finds neither of its patterns. The plain-fence branch then runs and hands
  over the fence body together with the word `python`, which `json.loads` rejects. For a message that is
  exactly one python fence whose body has no brace or backtick, this is proved
  (`PayloadProperties.PythonFenceFallsToGenericFence`).

## Model

| member | source | states |
|---|---|---|
| Text.FindFrom | utils/utils.py:12 | `pat in text` / `str.find`: the result is the first position where the pattern occurs, and `None` means it occurs nowhere |
| Payload.LeftmostLazy | utils/utils.py:31 | `re.search(open + "(.*?)" + close, re.DOTALL)`: a result is the match with the leftmost start and, for that start, the nearest close; `None` exactly when no open is ever followed by a close |
| Payload.DictSearchSound | utils/utils.py:21 | what the dict-literal search returns matches `\{[^{}]*"top_k_specialists"[^{}]*\[.*?\]\s*\}` |
| Payload.DictSearchLeftmostShortest | utils/utils.py:21 | no match of the dict-literal pattern starts before the one the search returns, and none from the same start ends earlier (backtracking cannot produce a shorter match) |
| PayloadProperties.DictSearchFindsAny | utils/utils.py:21-22 | the dict-literal search succeeds exactly when the pattern matches somewhere in the text |
| PayloadProperties.PythonPayloadIff | utils/utils.py:11-27 | the python branch supplies the payload exactly when the text has a python fence and the `json.dumps` or the dict-literal pattern matches anywhere in it |
| PayloadProperties.SelectDumps | utils/utils.py:12-18 | the `json.dumps` branch is taken exactly when there is a python fence and the pattern matches; it decodes the braces from the first `json.dumps({` up to the first `})` after it |
| PayloadProperties.SelectDictLiteral | utils/utils.py:19-27 | the dict-literal branch runs only when `json.dumps(...)` does not match; its payload is the leftmost match of the dict pattern, shortest for that start, with every `'` replaced by `"`, so no single quote is left |
| PayloadProperties.SelectFenceOrder | utils/utils.py:29-53 | otherwise the branch is chosen by which marker occurs at all (```` ```json ````, then ```` ```JSON ````, then ```` ``` ````, then none); a chosen branch whose pattern fails goes to the fallback instead of trying the next marker |
| PayloadProperties.SelectFencePayload | utils/utils.py:30-47 | a fenced branch decodes the stripped text between the first opening marker and the first fence after it |
| PayloadProperties.SelectBareObjectPayload | utils/utils.py:48-53 | the bare-object branch runs only without fences and decodes from the first `{` to the first `}` after it, which stripping leaves intact |
| PayloadProperties.SelectFallbackPayload | utils/utils.py:55-57 | the fallback decodes the text with backticks, the letters of "json" and newlines stripped from both ends; the second `strip` removes nothing more |
| Payload.Select | utils/utils.py:11-53 | the python branches run only with a python fence; the ```` ```json ```` branch needs its marker, the ```` ```JSON ```` branch needs its marker and the absence of the first, the plain-fence branch needs a fence and neither json marker, and the bare-object branch needs no fence at all |
| PayloadProperties.ParseJsonDecodes | utils/utils.py:8-58 | `prase_json` returns the decoding of the payload of the branch taken: the braces of the first `json.dumps({...})`; the leftmost-shortest dict literal with `'` made `"`; the stripped body of the chosen fence; the first `{...}`; or the text with backticks, the letters of "json" and newlines stripped from both ends (the dict-literal and bare-object cases assume `Sane`) |
| PayloadProperties.PythonFenceFallsToGenericFence | utils/utils.py:12-47 | a python fence whose body has no brace or backtick goes to the generic fence branch, whose payload begins with "python" |
| Patterns.TagDigitAtIff | utils/voting.py:54-56 | with the letter at `p`, the scan finds a digit exactly when `\b[Tt][:\s]*([0-4])` (and the N and M patterns) match there, and the digit it finds is the only one possible |
| Patterns.TagSearch | utils/voting.py:54-56 | the search returns a match of the tag pattern, and no match starts further left; `None` means no match at all |
| Extraction.TagValueFromSearch | utils/voting.py:54-61 | `int(match.group(1))` is defined exactly when the tag pattern matches, and it is then the digit of the leftmost match |
| Extraction.RegexProposalIff | utils/voting.py:54-58 | the regex fallback yields a proposal exactly when all three tag patterns match |
| Extraction.RegexProposal | utils/voting.py:58-69 | a regex proposal carries the agent, the message index, source "regex", the first 300 characters as rationale, an empty confidence, and the three captured values |
| Extraction.RegexStageFromSearch | utils/voting.py:58-63 | each value of a regex proposal is the digit of the leftmost match of its factor's pattern |
| Extraction.RegexProposalShape | utils/voting.py:61-64 | a regex proposal's "TNM" label is what its own values print to, and its values lie in `[0-4]`, `[0-3]` and `[01]` |
| Extraction.StagedObject | utils/voting.py:34-36 | the JSON path applies exactly when the payload decodes to an object holding "T", "N" and "M"; anything else ends in the bare `except` |
| Extraction.JsonProposal | utils/voting.py:37-48 | a JSON proposal copies the three values as decoded (last binding of a repeated key), and uses the given "TNM" or else the label `T{t},N{n},M{m}` |
| Extraction.ExtractOneSource | utils/voting.py:30-69 | a message yields a JSON proposal exactly when its payload decodes to an object with "T", "N" and "M", whatever tags its text holds, and a regex proposal exactly when it does not and all three tag patterns match |
| Extraction.ExtractOne | utils/voting.py:30-69 | a message's proposal carries the message's agent name ("unknown" when absent) and its index |
| Extraction.ExtractAll | utils/voting.py:27-71 | the proposals come in message order, at most one per message, each tagged with its message index and equal to what that message yields |
| Extraction.ExtractAllComplete | utils/voting.py:29-71 | no message that yields a proposal is skipped |
| JsonValue.Lookup | utils/voting.py:36-45 | `json_data.get(key)` on a decoded object finds the key's last binding, and `None` exactly when the key is absent |
| Patterns.HasSizeIff | utils/confidence.py:27 | the scan for a size agrees with `(\d+(?:\.\d+)?)\s*(?:cm\|mm\|㎝)` under `re.IGNORECASE`: it succeeds exactly when the pattern matches somewhere |
| Confidence.TumourHighIffSizePattern | utils/confidence.py:27-33 | the T level from the case text is high exactly when the size pattern matches |
| Confidence.TumourEvidence | utils/confidence.py:26-41 | T is high exactly on a stated size, low exactly with neither size nor invasion keyword; "Invasion mentioned" is among the reasons exactly when an invasion keyword occurs |
| Confidence.NodeEvidence | utils/confidence.py:43-60 | N is high exactly when lymph-node and side keywords both occur, low exactly when no lymph-node keyword does |
| Confidence.MetastasisEvidence | utils/confidence.py:62-81 | M is never low; it is high exactly when a metastasis keyword, "no distant" (case-folded) or the no-effusion phrase (as written) occurs |
| Confidence.FromCase | utils/confidence.py:23-89 | the overall level is the lowest of the three, and it is low exactly when T or N is low |
| Confidence.Overall | utils/confidence.py:86-88 | "overall" is one of the three levels and no higher than any of them under low < medium < high, so it is their minimum |
| Confidence.MentionsAny | utils/confidence.py:38 | `any(kw.lower() in text.lower() ...)` holds exactly when some keyword occurs in the case-folded text |
| Confidence.Others | utils/confidence.py:109-110 | the other proposals are those of the list whose agent differs, with their multiplicities |
| Confidence.RateLevel | utils/confidence.py:120-131 | the level is high exactly when the agreement rate is at least 0.8, and low exactly when it is under 0.5 |
| Confidence.RateLevelMonotone | utils/confidence.py:125-131 | more agreement never lowers the level |
| Confidence.FromAgreement | utils/confidence.py:105-142 | with at most one proposal, or no proposal from another agent, every level is medium and there are no rates; otherwise each rate is the share of other proposals giving the same value, lies in [0, 1], and each level is that rate's level |
| Confidence.UnanimousOthersGiveHigh | utils/confidence.py:109-134 | when every other agent gives the proposal's value for a factor, that factor's agreement level is high |
| Confidence.DissentingOthersGiveLow | utils/confidence.py:109-134 | when no other agent gives the proposal's value for a factor, that factor's agreement level is low |
| Confidence.Combine | utils/voting.py:140-146 | the combined confidence of a factor is one of the case level and the agreement level, and no higher than either, so it is the lower of the two |
| Voting.Combined | utils/voting.py:134-148 | each factor of "combined_confidence" is the lower of its case level (medium without case text) and its agreement level |
| Voting.CaseEvidence | utils/voting.py:117-121 | the case scorer runs exactly when a non-empty case text is given, and its result is the case scorer's for that text |
| Voting.Multiplier | utils/voting.py:160-164 | a vote's multiplier lies between 0.5 and 1.5 and is 1.5 exactly for high confidence |
| VotingProperties.WeightedIsProduct | utils/voting.py:166-174 | each vote weighs its base weight times the multiplier of its combined level |
| Tally.Assign | utils/voting.py:110-112 | `d[k] = v` keeps an existing key in place and appends a new one, and changes only that key's value |
| Tally.Add | utils/voting.py:176-178 | `d[k] += w` on a `defaultdict(float)` keeps the keys distinct, appends a new key, and adds `w` to that key alone |
| Tally.AccumulateMatchesVotes | utils/voting.py:151-178 | the tally holds each voted value once, in order of first vote, with the summed weight of its votes |
| Tally.ArgMax | utils/voting.py:181-183 | `max(..., key=...)` returns a largest entry, and the first one on a tie |
| VotingProperties.WinnerIsHeaviest | utils/voting.py:176-183 | the winner is a voted value with the greatest summed weight, and every value first voted for before it weighs strictly less |
| VotingProperties.UnanimousValueWins | utils/voting.py:180-203 | a value every proposal gives wins, and no proposal disagrees with it |
| VotingProperties.DissentCountsOthers | utils/voting.py:196 | the disagreement count is the number of proposals minus the number giving the winning value |
| Voting.DefaultWeights | utils/voting.py:106-112 | every default weight is 1.5 for an agent whose name contains "Supervisor" and 1.0 otherwise |
| VotingProperties.DefaultWeightsKeys | utils/voting.py:106-112 | the default weights hold each agent once, in order of first appearance |
| VotingProperties.DefaultWeightsOfDistinctAgents | main_ws.py:260-266 | with one proposal per agent, the weights main_ws.py builds (the same as the default) list the agents in proposal order with their weights |
| Voting.TallyFactor | utils/voting.py:176-190 | a factor's tally accumulates its votes; the winner is a tallied value that some proposal gives, so fewer than all proposals disagree with it; the consensus is 0 when the maximum possible weight is not positive |
| VotingProperties.ConsensusIsWinnerShare | utils/voting.py:185-190 | a factor's consensus is the winning value's summed weight over 1.5 times the total weight, and 0 when that is not positive |
| VotingProperties.ConsensusAtMostOne | utils/voting.py:185-190 | for weights that are not negative and sum to at least the proposals' base weights (agents that did not propose may be listed), every factor consensus lies in [0, 1] |
| VotingProperties.ConsensusInUnitRange | utils/voting.py:185-190 | with the default weights and one proposal per agent, every factor consensus lies in [0, 1] |
| VotingProperties.RepeatedAgentConsensus | utils/voting.py:105-190 | when one agent's two proposals of the same value for a factor are the only proposals, with no case text and the default weights, that factor's consensus is 4/3; the proposals may differ in every other field |
| VotingProperties.NoCaseTextConsensus | utils/voting.py:114-190 | without case text no combined level is high, so with the default weights and one proposal per agent every factor consensus is at most 2/3 |
| VotingProperties.NoCaseTextFlagsEveryFactor | utils/voting.py:193-203 | without case text, with the default weights and one proposal per agent, all three factors are reported as disagreements |
| Voting.Flag | utils/voting.py:195-203 | a factor gets a disagreement line exactly when its consensus is under 0.7 |
| VotingProperties.DisagreementsIff | utils/voting.py:193-203 | "disagreements" is `["None"]` exactly when every factor reaches 0.7, and otherwise has one line per factor under it |
| Voting.Disagreements | utils/voting.py:193-239 | the list holds one to three lines: `["None"]` exactly when no factor is under 0.7, otherwise the k-th line is `"F: d/n agents disagree"` for the k-th factor under 0.7 in T, N, M order |
| VotingProperties.TabulateDisagreements | utils/voting.py:193-203 | for the tabulated proposals, the list is `["None"]` exactly when no factor is under 0.7, and otherwise holds one line per such factor |
| VotingProperties.TabulateDisagreementLine | utils/voting.py:193-203 | the k-th line names the k-th factor under 0.7 and counts the proposals whose value differs from the winner, out of all proposals |
| VotingProperties.TabulateOutcome | utils/voting.py:114-203 | tabulating scored proposals gives each factor the first heaviest value of its votes, a consensus equal to that value's weight over 1.5 times the total weight (0 when that is not positive), and a dissent count of the proposals giving another value |
| VotingProperties.TabulateChoosesProposed | utils/voting.py:180-196 | each chosen value is one that some proposal gives, so fewer than all proposals disagree with it |
| Text.DecimalRoundTrip | utils/voting.py:197 | the counts printed in a disagreement line read back as the same numbers |
| Voting.AggregateLevel | utils/voting.py:213-219 | the aggregated level is low exactly when at least half the proposals are low, and high exactly when fewer are low and at least 70% are high |
| Voting.Vote | utils/voting.py:96-97 | `None` exactly for an empty list; a `TypeError` exactly when some T, N or M value is a list or dict; otherwise a result counting every proposal |
| VotingProperties.VoteChoosesHeaviest | utils/voting.py:96-183 | for a non-empty list of hashable proposals the vote succeeds, and each final value has the greatest summed weight of its factor's votes (scored against the case evidence, with the given or default weights), every value first voted for before it weighing strictly less |
| VotingProperties.VoteConsensusIsShare | utils/voting.py:185-190 | each factor consensus of the vote is the winner's summed weight over 1.5 times the total weight, and 0 when that is not positive |
| VotingProperties.VoteDissentCount | utils/voting.py:193-203 | each factor's disagreement count in the vote is the number of proposals minus those giving the final value |
| Voting.BestRationale | main_ws.py:295-299 | the recorded rationale belongs to a proposal with the most high combined levels, and to the first of several such |

## Left out

- Floating point: weights, rates and consensus scores are exact reals, so rounding in Python's float
  sums and divisions, and its effect on the 0.8, 0.5 and 0.7 thresholds, is not modelled.
- JSON numbers with a fraction or exponent, and Python's cross-type equality (`True == 1 == 1.0`) in tally
  keys and counts: `Json` has integers only, and its equality is structural.
- `repr` details: `str()` of a decoded list or dict quotes strings as Python does but does not escape
  backslashes or control characters, does not escape `'` in a string holding both quote kinds, and
  prints every binding of an object whose key is repeated, where Python's dict keeps only the last. It
  only matters for the "TNM" label built from such values.
- `json.loads` itself and Python's Unicode tables are parameters, for the reasons given above.
- A message whose "content" is present but not a string (for example `None`) crashes the regex fallback
  with an uncaught `TypeError`. `Message.content` is an optional string, so that crash is not modelled.
- A message whose "name" is present but null gives a proposal whose agent is `None`; the default weights
  then raise `TypeError` on `"Supervisor" in prop["agent"]` (utils/voting.py:109, main_ws.py:263).
  `Message.name` is an optional string, so that crash is not modelled.
- The `except` fallbacks of the two scorer calls (utils/voting.py:122-125 and 131-132) cannot fire in the
  model, because neither scorer can raise on the modelled inputs.
- The vote writes its annotations into the caller's proposal dicts in place. The model returns them as a
  separate `Scored` list, and the case evidence is computed once, since the scorer never reads the proposal.
- `simple_retry`, the HTTP model servers, the agent conversation, prompts, data loading and file output
  are outside the core.
- VotingProperties.ConsensusInUnitRange: is proved at the vote level only for the default weights with one
  proposal per agent, because with a repeated agent the code's consensus can exceed 1
  (`VotingProperties.RepeatedAgentConsensus`). `VotingProperties.ConsensusAtMostOne` covers other weight
  maps whose total is at least the proposals' base weights.
- VotingProperties.NoCaseTextConsensus: proved for the default weights with one proposal per agent only,
  for the same reason.
- The overall "consensus_score" is the mean of the three factor scores. The model computes it, but no
  property is proved about it beyond what follows from the factor scores.
- No separate result states that main_ws.py passes its own weights: the dict it builds at main_ws.py:260-266
  is the default dict, so `Vote` with `Some(DefaultWeights(ps))` takes the same path as with `None`.
