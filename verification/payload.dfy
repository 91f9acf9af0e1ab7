/** Which part of an agent message `prase_json` hands to the JSON decoder (utils/utils.py).
    Every branch calls the decoder at most once and lets its exception escape, so the
    function as a whole is "select one payload, then decode it"; `Select` models the selection
    and `ParseJson` the decoding, with the decoder itself a parameter. */
module Payload {

  import opened Wrappers
  import opened Text
  import opened JsonValue

  const PythonFence: string := "```python"
  const JsonFenceOpen: string := "```json"
  const UpperJsonFenceOpen: string := "```JSON"
  const Fence: string := "```"
  /** `json\.dumps\(` followed by the `\{` that opens the captured group */
  const DumpsOpen: string := "json.dumps({"
  /** the `\}` that closes the captured group, then `\)` */
  const DumpsClose: string := "})"
  const SpecialistsKey: string := "\"top_k_specialists\""
  /** the characters `text.strip("```json\n")` removes */
  const FallbackStripped: string := "`json\n"
  /** the characters `.strip("\n```")` removes */
  const FallbackStrippedAgain: string := "\n`"

  /** The branch of `prase_json` that produced the payload. */
  datatype Branch =
    | DumpsCall        // a `json.dumps({...})` argument inside a python fence
    | DictLiteral      // a dict literal holding "top_k_specialists" inside a python fence
    | JsonFence        // ```json ... ```
    | UpperJsonFence   // ```JSON ... ```
    | AnyFence         // ``` ... ```
    | BareObject       // { ... } in a message without fences
    | Fallback         // no branch matched: the whole text, stripped

  datatype Selection = Selection(branch: Branch, payload: string)

  // ---------------------------------------------------------------------------------------
  // `open(.*?)close` with re.DOTALL

  /** The pattern `open(.*?)close` matches with `open` at `p` and `close` at `e`. */
  predicate DelimitedAt(text: string, open: string, close: string, p: int, e: int) {
    OccursAt(text, open, p) && p + |open| <= e && OccursAt(text, close, e)
  }

  /** The match `re.search` reports for `open(.*?)close`: no match starts earlier, and none
      from the same start closes sooner. */
  ghost predicate FirstDelimited(text: string, open: string, close: string, p: int, e: int) {
    && DelimitedAt(text, open, close, p, e)
    && forall p', e' :: DelimitedAt(text, open, close, p', e') ==> p < p' || (p == p' && e <= e')
  }

  /** `re.search(open + "(.*?)" + close, text, re.DOTALL)`: the leftmost start, and for it the
      shortest body, returned as the positions of `open` and `close`. */
  function LeftmostLazy(text: string, open: string, close: string): (r: Option<(nat, nat)>)
    ensures r.Some? ==> FirstDelimited(text, open, close, r.value.0, r.value.1)
    ensures r.None? <==> forall p, e :: !DelimitedAt(text, open, close, p, e)
  {
    match FindFrom(text, open, 0)
    case None => None
    case Some(p) =>
      match FindFrom(text, close, p + |open|)
      case None =>
        NoCloseAfterFirstOpen(text, open, close, p);
        None
      case Some(e) =>
        assert DelimitedAt(text, open, close, p, e);
        Some((p, e))
  }

  /** When no `close` follows the first `open`, no later `open` can be closed either. */
  lemma NoCloseAfterFirstOpen(text: string, open: string, close: string, p: nat)
    requires FindFrom(text, open, 0) == Some(p)
    requires FindFrom(text, close, p + |open|).None?
    ensures forall p', e :: !DelimitedAt(text, open, close, p', e)
  {
  }

  // ---------------------------------------------------------------------------------------
  // `\{[^{}]*"top_k_specialists"[^{}]*\[.*?\]\s*\}` with re.DOTALL

  predicate IsBrace(c: char) {
    c == '{' || c == '}'
  }

  predicate NoBraces(text: string, lo: int, hi: int)
    requires 0 <= lo && hi <= |text|
  {
    forall k :: lo <= k < hi ==> !IsBrace(text[k])
  }

  predicate AllSpace(u: CharSemantics, text: string, lo: int, hi: int)
    requires 0 <= lo && hi <= |text|
  {
    forall k :: lo <= k < hi ==> u.isSpace(text[k])
  }

  /** The dict-literal pattern matches `text[p..w+1]`, with the quoted key at `q`, the `[` at
      `b`, the `]` at `c` and the closing `}` at `w`. */
  predicate DictAt(u: CharSemantics, text: string, p: int, q: int, b: int, c: int, w: int) {
    && 0 <= p < q && q + |SpecialistsKey| <= b < c < w < |text|
    && text[p] == '{' && NoBraces(text, p + 1, q)
    && OccursAt(text, SpecialistsKey, q)
    && NoBraces(text, q + |SpecialistsKey|, b) && text[b] == '['
    && text[c] == ']' && AllSpace(u, text, c + 1, w) && text[w] == '}'
  }

  /** The match `re.search` reports for the dict-literal pattern: it spans `text[p..w+1]`, no
      match starts earlier, and none from the same start closes sooner. */
  ghost predicate FirstDictMatch(u: CharSemantics, text: string, p: int, w: int) {
    && (exists q, b, c :: DictAt(u, text, p, q, b, c, w))
    && forall p', q', b', c', w' :: DictAt(u, text, p', q', b', c', w') ==>
         p < p' || (p == p' && w <= w')
  }

  /** First brace at or after `from`, or the end of the text. */
  function BraceFreeEnd(text: string, from: nat): (r: nat)
    requires from <= |text|
    ensures from <= r <= |text| && NoBraces(text, from, r)
    ensures r < |text| ==> IsBrace(text[r])
    decreases |text| - from
  {
    if from == |text| || IsBrace(text[from]) then from else BraceFreeEnd(text, from + 1)
  }

  /** First non-whitespace character at or after `from`, or the end of the text. */
  function SpaceEnd(u: CharSemantics, text: string, from: nat): (r: nat)
    requires from <= |text|
    ensures from <= r <= |text| && AllSpace(u, text, from, r)
    ensures r < |text| ==> !u.isSpace(text[r])
    decreases |text| - from
  {
    if from == |text| || !u.isSpace(text[from]) then from else SpaceEnd(u, text, from + 1)
  }

  /** Last `[` in `text[lo..hi]`. */
  function LastOpenBracket(text: string, lo: nat, hi: nat): (r: Option<nat>)
    requires lo <= hi <= |text|
    ensures r.Some? ==> lo <= r.value < hi && text[r.value] == '['
    ensures r.Some? ==> forall k :: r.value < k < hi ==> text[k] != '['
    ensures r.None? ==> forall k :: lo <= k < hi ==> text[k] != '['
    decreases hi - lo
  {
    if lo == hi then None
    else if text[hi - 1] == '[' then Some(hi - 1)
    else LastOpenBracket(text, lo, hi - 1)
  }

  /** `]` at `c`, then whitespace, then `}`. */
  predicate ClosesAt(u: CharSemantics, text: string, c: nat)
    requires c < |text|
  {
    text[c] == ']' && SpaceEnd(u, text, c + 1) < |text| && text[SpaceEnd(u, text, c + 1)] == '}'
  }

  /** The lazy `.*?` step: the first `c` at or after `from` where `\]\s*\}` matches. */
  function FirstClose(u: CharSemantics, text: string, from: nat): (r: Option<nat>)
    requires from <= |text|
    ensures r.Some? ==> from <= r.value < |text| && ClosesAt(u, text, r.value)
    ensures r.Some? ==> forall k :: from <= k < r.value ==> !ClosesAt(u, text, k)
    ensures r.None? ==> forall k :: from <= k < |text| ==> !ClosesAt(u, text, k)
    decreases |text| - from
  {
    if from == |text| then None
    else if ClosesAt(u, text, from) then Some(from)
    else FirstClose(u, text, from + 1)
  }

  /** Where a dict-literal match that starts at the `{` at `p` ends. The greedy `[^{}]*`
      steps reach the last `[` before the next brace; the lazy `.*?` then takes the first
      `]\s*}` after it. */
  function DictEndFrom(u: CharSemantics, text: string, p: nat): Option<nat>
    requires p < |text|
  {
    match LastOpenBracket(text, p + 1, BraceFreeEnd(text, p + 1))
    case None => None
    case Some(b) => if KeyBefore(text, p + 1, b) then ListEnd(u, text, b) else None
  }

  /** The quoted key occurs from `from` on and ends by `b`. */
  predicate KeyBefore(text: string, from: nat, b: nat) {
    match FindFrom(text, SpecialistsKey, from)
    case None => false
    case Some(q) => q + |SpecialistsKey| <= b
  }

  /** Where the lazy `.*?\]\s*\}` after the `[` at `b` ends, if anywhere. */
  function ListEnd(u: CharSemantics, text: string, b: nat): Option<nat>
    requires b < |text|
  {
    match FirstClose(u, text, b + 1)
    case None => None
    case Some(c) => Some(SpaceEnd(u, text, c + 1))
  }

  lemma DictEndFromSound(u: CharSemantics, text: string, p: nat)
    requires p < |text| && text[p] == '{'
    requires DictEndFrom(u, text, p).Some?
    ensures exists q, b, c :: DictAt(u, text, p, q, b, c, DictEndFrom(u, text, p).value)
  {
    var r := BraceFreeEnd(text, p + 1);
    var b := LastOpenBracket(text, p + 1, r).value;
    var q := FindFrom(text, SpecialistsKey, p + 1).value;
    var c := FirstClose(u, text, b + 1).value;
    assert DictAt(u, text, p, q, b, c, DictEndFrom(u, text, p).value);
  }

  /** Every dict-literal match starting at `p` ends no earlier than the one `DictEndFrom`
      computes: backtracking cannot produce a shorter match. */
  lemma {:induction false} DictEndFromComplete(u: CharSemantics, text: string,
                                               p: nat, q: int, b: int, c: int, w: int)
    requires Sane(u)
    requires DictAt(u, text, p, q, b, c, w)
    ensures DictEndFrom(u, text, p).Some? && DictEndFrom(u, text, p).value <= w
  {
    DictOpenCovers(u, text, p, q, b, c, w);
    var bLast := LastOpenBracket(text, p + 1, BraceFreeEnd(text, p + 1)).value;
    DictCloseCovers(u, text, bLast, c, w);
    DictEndFromSteps(u, text, p, bLast);
  }

  /** Once the greedy steps stop at the `[` at `bLast` with the key before it, the match ends
      where the lazy step after that `[` does. */
  lemma DictEndFromSteps(u: CharSemantics, text: string, p: nat, bLast: nat)
    requires p < |text| && bLast < |text|
    requires LastOpenBracket(text, p + 1, BraceFreeEnd(text, p + 1)) == Some(bLast)
    requires KeyBefore(text, p + 1, bLast)
    ensures DictEndFrom(u, text, p) == ListEnd(u, text, bLast)
  {
  }

  /** The greedy steps of a match at `p` stop at a `[` no earlier than `b` and before the
      closing `}` at `w`, with the key before that `[`. */
  lemma DictOpenCovers(u: CharSemantics, text: string, p: nat, q: int, b: int, c: int, w: int)
    requires DictAt(u, text, p, q, b, c, w)
    ensures var r := BraceFreeEnd(text, p + 1);
            && b < r <= w
            && LastOpenBracket(text, p + 1, r).Some?
            && b <= LastOpenBracket(text, p + 1, r).value
            && KeyBefore(text, p + 1, LastOpenBracket(text, p + 1, r).value)
  {
    var r := BraceFreeEnd(text, p + 1);
    // The brace-free run from p + 1 reaches past b.
    forall k | p + 1 <= k <= b ensures !IsBrace(text[k]) {
      if q <= k < q + |SpecialistsKey| {
        assert text[k] == SpecialistsKey[k - q];
      }
    }
    assert r > b;
  }

  /** After the last `[` of the brace-free run, the lazy step finds a `]\s*}` ending no later
      than the given one. */
  lemma DictCloseCovers(u: CharSemantics, text: string, bLast: nat, c: int, w: int)
    requires Sane(u)
    requires bLast < w < |text| && text[bLast] == '[' && text[w] == '}'
    requires 0 <= c < w && text[c] == ']' && AllSpace(u, text, c + 1, w)
    ensures ListEnd(u, text, bLast).Some? && ListEnd(u, text, bLast).value <= w
  {
    // The `]` lies after the last `[`: otherwise that `[` would be whitespace.
    SaneBraces(u);
    assert c > bLast;
    assert SpaceEnd(u, text, c + 1) == w;
    assert ClosesAt(u, text, c);
    var c0 := FirstClose(u, text, bLast + 1).value;
    assert c0 <= c;
    // An earlier `]\s*}` ends before this `]`, since `]` is not whitespace.
    assert SpaceEnd(u, text, c0 + 1) <= w;
  }

  lemma SaneBraces(u: CharSemantics)
    requires Sane(u)
    ensures !u.isSpace('}') && !u.isSpace('{') && !u.isSpace(']') && !u.isSpace('[')
  {
    assert '}' in NeverSpace && '{' in NeverSpace && ']' in NeverSpace && '[' in NeverSpace;
  }

  /** Where a dict-literal match starting at `p` ends, if one does. */
  function DictMatchAt(u: CharSemantics, text: string, p: nat): Option<nat>
    requires p < |text|
  {
    if text[p] == '{' then DictEndFrom(u, text, p) else None
  }

  /** `re.search` for the dict-literal pattern, trying each start from `from` onwards. */
  function DictSearch(u: CharSemantics, text: string, from: nat): (r: Option<(nat, nat)>)
    ensures r.Some? ==> from <= r.value.0 < |text| && DictMatchAt(u, text, r.value.0) == Some(r.value.1)
    ensures r.Some? ==> forall p :: from <= p < r.value.0 ==> DictMatchAt(u, text, p).None?
    ensures r.None? ==> forall p :: from <= p < |text| ==> DictMatchAt(u, text, p).None?
    decreases |text| - from
  {
    if from >= |text| then None
    else
      var here := DictMatchAt(u, text, from);
      if here.Some? then Some((from, here.value)) else DictSearch(u, text, from + 1)
  }

  /** What the dict-literal search returns is a match of the pattern. */
  lemma DictSearchSound(u: CharSemantics, text: string)
    requires DictSearch(u, text, 0).Some?
    ensures exists q, b, c :: DictAt(u, text, DictSearch(u, text, 0).value.0, q, b, c,
                                      DictSearch(u, text, 0).value.1)
  {
    DictEndFromSound(u, text, DictSearch(u, text, 0).value.0);
  }

  /** No match of the dict-literal pattern starts earlier than the one the search returns,
      nor ends earlier among those starting at the same place. */
  lemma DictSearchLeftmostShortest(u: CharSemantics, text: string,
                                   p: nat, q: int, b: int, c: int, w: int)
    requires Sane(u)
    requires DictAt(u, text, p, q, b, c, w)
    ensures DictSearch(u, text, 0).Some?
    ensures DictSearch(u, text, 0).value.0 < p
            || (DictSearch(u, text, 0).value.0 == p && DictSearch(u, text, 0).value.1 <= w)
  {
    DictEndFromComplete(u, text, p, q, b, c, w);
    assert DictMatchAt(u, text, p) == DictEndFrom(u, text, p);
  }

  // ---------------------------------------------------------------------------------------
  // The branches of `prase_json`

  /** The python-fence branch, when it finds something to decode. */
  function PythonPayload(u: CharSemantics, text: string): (r: Option<Selection>)
    ensures r.Some? ==> r.value.branch in {DumpsCall, DictLiteral} && Contains(text, PythonFence)
  {
    if !Contains(text, PythonFence) then None
    else
      match LeftmostLazy(text, DumpsOpen, DumpsClose)
      case Some((p, e)) =>
        Some(Selection(DumpsCall, text[p + |DumpsOpen| - 1 .. e + 1]))
      case None =>
        match DictSearch(u, text, 0)
        case Some((p, w)) => Some(Selection(DictLiteral, ReplaceChar(text[p..w + 1], '\'', '"')))
        case None => None
  }

  /** The fence marker each fenced branch opens with. */
  function Opener(b: Branch): string {
    match b
    case JsonFence => JsonFenceOpen
    case UpperJsonFence => UpperJsonFenceOpen
    case _ => Fence
  }

  /** A fenced branch: the stripped text between the opening marker and the next fence. */
  function FencePayload(u: CharSemantics, text: string, branch: Branch): (r: Selection)
    ensures r.branch in {branch, Fallback}
  {
    var open := Opener(branch);
    match LeftmostLazy(text, open, Fence)
    case Some((p, e)) => Selection(branch, Strip(u, text[p + |open| .. e]))
    case None => FallbackSelection(text)
  }

  /** The branch for a message without fences: from a `{` to the next `}`. */
  function BarePayload(u: CharSemantics, text: string): (r: Selection)
    ensures r.branch in {BareObject, Fallback}
  {
    match LeftmostLazy(text, "{", "}")
    case Some((p, e)) => Selection(BareObject, Strip(u, text[p..e + 1]))
    case None => FallbackSelection(text)
  }

  /** Nothing matched: `text.strip("```json\n").strip("\n```")`. */
  function FallbackSelection(text: string): (r: Selection)
    ensures r.branch == Fallback
  {
    var once := Trim(text, c => c in FallbackStripped);
    Selection(Fallback, Trim(once, c => c in FallbackStrippedAgain))
  }

  /** The branches after the python one, chosen by which fence marker occurs at all. */
  function FencedOrBare(u: CharSemantics, text: string): (r: Selection)
    ensures r.branch !in {DumpsCall, DictLiteral}
    ensures r.branch == JsonFence ==> Contains(text, JsonFenceOpen)
    ensures r.branch == UpperJsonFence ==>
              !Contains(text, JsonFenceOpen) && Contains(text, UpperJsonFenceOpen)
    ensures r.branch == AnyFence ==>
              !Contains(text, JsonFenceOpen) && !Contains(text, UpperJsonFenceOpen)
              && Contains(text, Fence)
    ensures r.branch == BareObject ==> !Contains(text, Fence)
  {
    if Contains(text, JsonFenceOpen) then FencePayload(u, text, JsonFence)
    else if Contains(text, UpperJsonFenceOpen) then FencePayload(u, text, UpperJsonFence)
    else if Contains(text, Fence) then FencePayload(u, text, AnyFence)
    else BarePayload(u, text)
  }

  /** `prase_json` up to the decoder call: which branch runs and what it decodes. The python
      branches need a python fence; a fenced branch runs only when no earlier marker in the
      order ```json, ```JSON, ``` occurs; the bare-object branch only without any fence. */
  function Select(u: CharSemantics, text: string): (r: Selection)
    ensures r.branch in {DumpsCall, DictLiteral} ==> Contains(text, PythonFence)
    ensures r.branch == JsonFence ==> Contains(text, JsonFenceOpen)
    ensures r.branch == UpperJsonFence ==>
              !Contains(text, JsonFenceOpen) && Contains(text, UpperJsonFenceOpen)
    ensures r.branch == AnyFence ==>
              !Contains(text, JsonFenceOpen) && !Contains(text, UpperJsonFenceOpen)
              && Contains(text, Fence)
    ensures r.branch == BareObject ==> !Contains(text, Fence)
  {
    match PythonPayload(u, text)
    case Some(s) => s
    case None => FencedOrBare(u, text)
  }

  /** `prase_json(text)` with `json.loads` as `decode`; `None` means an exception escaped. */
  function ParseJson(decode: string -> Option<Json>, u: CharSemantics, text: string): Option<Json> {
    decode(Select(u, text).payload)
  }
}
