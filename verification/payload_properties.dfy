/** What `prase_json` hands to the decoder, branch by branch (utils/utils.py). */
module PayloadProperties {

  import opened Wrappers
  import opened Text
  import opened JsonValue
  import opened Payload

  /** The python-fence branch applies: the text has a python fence and either pattern of that
      branch matches somewhere in it (not necessarily inside the fence). */
  ghost predicate PythonBranchApplies(u: CharSemantics, text: string) {
    && Contains(text, PythonFence)
    && ((exists p, e :: DelimitedAt(text, DumpsOpen, DumpsClose, p, e))
        || (exists p, q, b, c, w :: DictAt(u, text, p, q, b, c, w)))
  }

  /** The dict-literal search succeeds exactly when the pattern matches somewhere. */
  lemma DictSearchFindsAny(u: CharSemantics, text: string)
    requires Sane(u)
    ensures DictSearch(u, text, 0).Some? <==> exists p, q, b, c, w :: DictAt(u, text, p, q, b, c, w)
  {
    if DictSearch(u, text, 0).Some? {
      DictSearchSound(u, text);
    }
    forall p, q, b, c, w | DictAt(u, text, p, q, b, c, w) ensures DictSearch(u, text, 0).Some? {
      DictSearchLeftmostShortest(u, text, p, q, b, c, w);
    }
  }

  /** The python branch succeeds exactly when it applies. */
  lemma PythonPayloadIff(u: CharSemantics, text: string)
    requires Sane(u)
    ensures PythonPayload(u, text).Some? <==> PythonBranchApplies(u, text)
    ensures Select(u, text).branch in {DumpsCall, DictLiteral} <==> PythonBranchApplies(u, text)
  {
    DictSearchFindsAny(u, text);
  }

  /** A `json.dumps({...})` argument is preferred: the branch decodes the braces of the first
      `json.dumps({` up to the first `})` after it. */
  lemma SelectDumps(u: CharSemantics, text: string)
    ensures Select(u, text).branch == DumpsCall <==>
              Contains(text, PythonFence)
              && exists p, e :: DelimitedAt(text, DumpsOpen, DumpsClose, p, e)
    ensures Select(u, text).branch == DumpsCall ==>
              exists p, e ::
                && FirstDelimited(text, DumpsOpen, DumpsClose, p, e)
                && Select(u, text).payload == text[p + |DumpsOpen| - 1 .. e + 1]
  {
    if Contains(text, PythonFence) && LeftmostLazy(text, DumpsOpen, DumpsClose).Some? {
      var (p, e) := LeftmostLazy(text, DumpsOpen, DumpsClose).value;
      assert FirstDelimited(text, DumpsOpen, DumpsClose, p, e);
      assert Select(u, text).payload == text[p + |DumpsOpen| - 1 .. e + 1];
    }
  }

  /** Otherwise a dict literal holding "top_k_specialists" is decoded, with every single quote
      turned into a double quote. */
  lemma SelectDictLiteral(u: CharSemantics, text: string)
    requires Select(u, text).branch == DictLiteral
    ensures Contains(text, PythonFence)
    ensures forall p, e :: !DelimitedAt(text, DumpsOpen, DumpsClose, p, e)
    ensures exists p, q, b, c, w ::
                && DictAt(u, text, p, q, b, c, w)
                && Select(u, text).payload == ReplaceChar(text[p..w + 1], '\'', '"')
    ensures '\'' !in Select(u, text).payload
    ensures Sane(u) ==>
              exists p, w :: FirstDictMatch(u, text, p, w)
                             && Select(u, text).payload == ReplaceChar(text[p..w + 1], '\'', '"')
  {
    var (p, w) := DictSearch(u, text, 0).value;
    DictEndFromSound(u, text, p);
    var x := Select(u, text).payload;
    assert x == ReplaceChar(text[p..w + 1], '\'', '"');
    assert forall k :: 0 <= k < |x| ==> x[k] != '\'';
    if Sane(u) {
      DictSearchFirst(u, text);
    }
  }

  /** `prase_json` decodes exactly the payload of the branch it chose: the `json.dumps`
      argument, the first dict literal with quotes swapped, the stripped body of the first
      fence, the first braces, or the stripped whole text. */
  lemma ParseJsonDecodes(decode: string -> Option<Json>, u: CharSemantics, text: string)
    ensures Select(u, text).branch == DumpsCall ==>
              exists p, e :: FirstDelimited(text, DumpsOpen, DumpsClose, p, e)
                             && ParseJson(decode, u, text) == decode(text[p + |DumpsOpen| - 1 .. e + 1])
    ensures Sane(u) && Select(u, text).branch == DictLiteral ==>
              exists p, w :: FirstDictMatch(u, text, p, w)
                             && ParseJson(decode, u, text) == decode(ReplaceChar(text[p..w + 1], '\'', '"'))
    ensures Select(u, text).branch in {JsonFence, UpperJsonFence, AnyFence} ==>
              exists p, e, x :: FencedBody(u, text, Opener(Select(u, text).branch), x, p, e)
                                && ParseJson(decode, u, text) == decode(x)
    ensures Sane(u) && Select(u, text).branch == BareObject ==>
              exists p, e, x :: BracedBody(text, x, p, e) && ParseJson(decode, u, text) == decode(x)
    ensures Select(u, text).branch == Fallback ==>
              ParseJson(decode, u, text) == decode(Trim(text, c => c in FallbackStripped))
  {
    var b := Select(u, text).branch;
    if b == DumpsCall {
      SelectDumps(u, text);
    } else if b == DictLiteral {
      SelectDictLiteral(u, text);
    } else if b in {JsonFence, UpperJsonFence, AnyFence} {
      SelectFencePayload(u, text);
    } else if b == BareObject {
      if Sane(u) {
        SelectBareObjectPayload(u, text);
      }
    } else {
      SelectFallbackPayload(u, text);
    }
  }

  /** Under `Sane`, what the dict-literal search returns is the match `re.search` reports. */
  lemma DictSearchFirst(u: CharSemantics, text: string)
    requires Sane(u) && DictSearch(u, text, 0).Some?
    ensures FirstDictMatch(u, text, DictSearch(u, text, 0).value.0, DictSearch(u, text, 0).value.1)
  {
    var (p, w) := DictSearch(u, text, 0).value;
    DictSearchSound(u, text);
    forall p', q', b', c', w' | DictAt(u, text, p', q', b', c', w')
      ensures p < p' || (p == p' && w <= w')
    {
      DictSearchLeftmostShortest(u, text, p', q', b', c', w');
    }
  }

  /** When the python branch does not apply, the later branches are chosen by whether their
      marker occurs at all, in the order "```json", "```JSON", any "```", no fence. A chosen
      branch whose pattern does not match ends in the stripped fallback rather than trying
      the next one. */
  lemma SelectFenceOrder(u: CharSemantics, text: string)
    requires Sane(u)
    requires !PythonBranchApplies(u, text)
    ensures Contains(text, JsonFenceOpen) ==>
              Select(u, text).branch in {JsonFence, Fallback}
              && (Select(u, text).branch == JsonFence <==>
                    exists p, e :: DelimitedAt(text, JsonFenceOpen, Fence, p, e))
    ensures !Contains(text, JsonFenceOpen) && Contains(text, UpperJsonFenceOpen) ==>
              Select(u, text).branch in {UpperJsonFence, Fallback}
              && (Select(u, text).branch == UpperJsonFence <==>
                    exists p, e :: DelimitedAt(text, UpperJsonFenceOpen, Fence, p, e))
    ensures !Contains(text, JsonFenceOpen) && !Contains(text, UpperJsonFenceOpen)
            && Contains(text, Fence) ==>
              Select(u, text).branch in {AnyFence, Fallback}
              && (Select(u, text).branch == AnyFence <==>
                    exists p, e :: DelimitedAt(text, Fence, Fence, p, e))
    ensures !Contains(text, Fence) ==>
              Select(u, text).branch in {BareObject, Fallback}
              && (Select(u, text).branch == BareObject <==>
                    exists p, e :: DelimitedAt(text, "{", "}", p, e))
  {
    SelectAfterPython(u, text);
    SelectWithJsonFence(u, text);
    SelectWithUpperJsonFence(u, text);
    SelectWithAnyFence(u, text);
    SelectWithoutFence(u, text);
  }

  lemma SelectWithJsonFence(u: CharSemantics, text: string)
    requires PythonPayload(u, text).None?
    ensures Contains(text, JsonFenceOpen) ==>
              Select(u, text).branch in {JsonFence, Fallback}
              && (Select(u, text).branch == JsonFence <==>
                    exists p, e :: DelimitedAt(text, JsonFenceOpen, Fence, p, e))
  {
    if Contains(text, JsonFenceOpen) {
      FencedBranch(u, text, JsonFence);
    }
  }

  lemma SelectWithUpperJsonFence(u: CharSemantics, text: string)
    requires PythonPayload(u, text).None?
    ensures !Contains(text, JsonFenceOpen) && Contains(text, UpperJsonFenceOpen) ==>
              Select(u, text).branch in {UpperJsonFence, Fallback}
              && (Select(u, text).branch == UpperJsonFence <==>
                    exists p, e :: DelimitedAt(text, UpperJsonFenceOpen, Fence, p, e))
  {
    if !Contains(text, JsonFenceOpen) && Contains(text, UpperJsonFenceOpen) {
      FencedBranch(u, text, UpperJsonFence);
    }
  }

  lemma SelectWithAnyFence(u: CharSemantics, text: string)
    requires PythonPayload(u, text).None?
    ensures !Contains(text, JsonFenceOpen) && !Contains(text, UpperJsonFenceOpen)
            && Contains(text, Fence) ==>
              Select(u, text).branch in {AnyFence, Fallback}
              && (Select(u, text).branch == AnyFence <==>
                    exists p, e :: DelimitedAt(text, Fence, Fence, p, e))
  {
    if !Contains(text, JsonFenceOpen) && !Contains(text, UpperJsonFenceOpen)
       && Contains(text, Fence) {
      FencedBranch(u, text, AnyFence);
    }
  }

  lemma SelectWithoutFence(u: CharSemantics, text: string)
    requires PythonPayload(u, text).None?
    ensures !Contains(text, Fence) ==>
              Select(u, text).branch in {BareObject, Fallback}
              && (Select(u, text).branch == BareObject <==>
                    exists p, e :: DelimitedAt(text, "{", "}", p, e))
  {
    if !Contains(text, Fence) {
      UnfencedBranch(u, text);
    }
  }

  lemma SelectAfterPython(u: CharSemantics, text: string)
    requires Sane(u)
    requires !PythonBranchApplies(u, text)
    ensures PythonPayload(u, text).None?
  {
    PythonPayloadIff(u, text);
  }

  lemma FencedBranch(u: CharSemantics, text: string, branch: Branch)
    requires branch in {JsonFence, UpperJsonFence, AnyFence}
    requires Contains(text, Opener(branch))
    requires branch != JsonFence ==> !Contains(text, JsonFenceOpen)
    requires branch == AnyFence ==> !Contains(text, UpperJsonFenceOpen)
    ensures FencedOrBare(u, text) == FencePayload(u, text, branch)
    ensures FencedOrBare(u, text).branch in {branch, Fallback}
    ensures FencedOrBare(u, text).branch == branch <==>
              exists p, e :: DelimitedAt(text, Opener(branch), Fence, p, e)
  {
    FencePayloadBranch(u, text, branch);
  }

  lemma UnfencedBranch(u: CharSemantics, text: string)
    requires !Contains(text, Fence)
    ensures FencedOrBare(u, text) == BarePayload(u, text)
    ensures FencedOrBare(u, text).branch in {BareObject, Fallback}
    ensures FencedOrBare(u, text).branch == BareObject <==>
              exists p, e :: DelimitedAt(text, "{", "}", p, e)
  {
    FenceInsideMarker(text, JsonFenceOpen);
    FenceInsideMarker(text, UpperJsonFenceOpen);
    BarePayloadBranch(u, text);
  }

  lemma FencePayloadBranch(u: CharSemantics, text: string, branch: Branch)
    requires branch in {JsonFence, UpperJsonFence, AnyFence}
    ensures FencePayload(u, text, branch).branch == branch <==>
              exists p, e :: DelimitedAt(text, Opener(branch), Fence, p, e)
  {
  }

  lemma BarePayloadBranch(u: CharSemantics, text: string)
    ensures BarePayload(u, text).branch == BareObject <==>
              exists p, e :: DelimitedAt(text, "{", "}", p, e)
  {
  }

  /** A text that contains a fence marker contains a fence. */
  lemma FenceInsideMarker(text: string, marker: string)
    requires |marker| >= 3 && marker[..3] == Fence
    ensures Contains(text, marker) ==> Contains(text, Fence)
  {
    if Contains(text, marker) {
      var i := FindFrom(text, marker, 0).value;
      assert text[i..i + 3] == marker[..3];
      assert OccursAt(text, Fence, i);
    }
  }

  /** Which step of `Select` produced a result of each later branch. */
  lemma SelectIsStep(u: CharSemantics, text: string)
    ensures Select(u, text).branch in {JsonFence, UpperJsonFence, AnyFence} ==>
              Select(u, text) == FencePayload(u, text, Select(u, text).branch)
    ensures Select(u, text).branch == BareObject ==>
              Select(u, text) == BarePayload(u, text) && !Contains(text, Fence)
    ensures Select(u, text).branch == Fallback ==> Select(u, text) == FallbackSelection(text)
  {
    var r := Select(u, text);
    if PythonPayload(u, text).None? {
      assert r == FencedOrBare(u, text);
      if Contains(text, JsonFenceOpen) {
        assert r == FencePayload(u, text, JsonFence);
      } else if Contains(text, UpperJsonFenceOpen) {
        assert r == FencePayload(u, text, UpperJsonFence);
      } else if Contains(text, Fence) {
        assert r == FencePayload(u, text, AnyFence);
      } else {
        assert r == BarePayload(u, text);
      }
    }
  }

  /** `x` is the stripped body of the match `re.search` reports for `open(.*?)```` at `p`
      and `e`. */
  ghost predicate FencedBody(u: CharSemantics, text: string, open: string, x: string,
                             p: int, e: int) {
    FirstDelimited(text, open, Fence, p, e) && x == Strip(u, text[p + |open| .. e])
  }

  /** `x` is the text of the match `re.search` reports for `\{(.*?)\}` at `p` and `e`. */
  ghost predicate BracedBody(text: string, x: string, p: int, e: int) {
    FirstDelimited(text, "{", "}", p, e) && x == text[p..e + 1]
  }

  /** A fenced branch decodes the stripped text between the first opening marker and the
      first fence after it. */
  lemma SelectFencePayload(u: CharSemantics, text: string)
    requires Select(u, text).branch in {JsonFence, UpperJsonFence, AnyFence}
    ensures exists p, e ::
              FencedBody(u, text, Opener(Select(u, text).branch), Select(u, text).payload, p, e)
  {
    SelectIsStep(u, text);
    FencePayloadShape(u, text, Select(u, text).branch);
  }

  lemma FencePayloadShape(u: CharSemantics, text: string, b: Branch)
    requires FencePayload(u, text, b).branch == b != Fallback
    ensures exists p, e :: FencedBody(u, text, Opener(b), FencePayload(u, text, b).payload, p, e)
  {
    FenceMatched(u, text, b);
  }

  lemma FenceMatched(u: CharSemantics, text: string, b: Branch)
    requires FencePayload(u, text, b).branch == b != Fallback
    ensures LeftmostLazy(text, Opener(b), Fence).Some?
    ensures var m := LeftmostLazy(text, Opener(b), Fence).value;
            FencedBody(u, text, Opener(b), FencePayload(u, text, b).payload, m.0, m.1)
  {
  }

  /** The bare-object branch runs only without fences and decodes from the first `{` to the
      first `}` after it, so a nested object is cut at its first inner `}`. */
  lemma SelectBareObjectPayload(u: CharSemantics, text: string)
    requires Sane(u)
    requires Select(u, text).branch == BareObject
    ensures !Contains(text, Fence)
    ensures exists p, e :: BracedBody(text, Select(u, text).payload, p, e)
  {
    SelectIsStep(u, text);
    BarePayloadShape(u, text);
  }

  lemma BarePayloadShape(u: CharSemantics, text: string)
    requires Sane(u)
    requires BarePayload(u, text).branch == BareObject
    ensures exists p, e :: BracedBody(text, BarePayload(u, text).payload, p, e)
  {
    BareMatched(u, text);
  }

  /** The bare match runs from a `{` to a `}`, so stripping whitespace leaves it whole. */
  lemma BareMatched(u: CharSemantics, text: string)
    requires Sane(u)
    requires BarePayload(u, text).branch == BareObject
    ensures LeftmostLazy(text, "{", "}").Some?
    ensures var m := LeftmostLazy(text, "{", "}").value;
            BracedBody(text, BarePayload(u, text).payload, m.0, m.1)
  {
    var m := LeftmostLazy(text, "{", "}").value;
    BracedKeepsEnds(u, text, m.0, m.1);
  }

  /** Text from a `{` to a `}` has no whitespace to strip. */
  lemma BracedKeepsEnds(u: CharSemantics, text: string, p: int, e: int)
    requires Sane(u) && DelimitedAt(text, "{", "}", p, e)
    ensures 0 <= p <= e < |text| && Strip(u, text[p..e + 1]) == text[p..e + 1]
  {
    SaneBraces(u);
    OccursAtSingle(text, "{", p);
    OccursAtSingle(text, "}", e);
    var s := text[p..e + 1];
    assert s[0] == text[p] && s[|s| - 1] == text[e];
    TrimKeeps(s, u.isSpace);
  }

  /** When nothing matched, the whole text is decoded after stripping backticks, the letters
      of "json" and newlines from both ends; the second strip in the source removes nothing
      more. */
  lemma SelectFallbackPayload(u: CharSemantics, text: string)
    requires Select(u, text).branch == Fallback
    ensures Select(u, text).payload == Trim(text, c => c in FallbackStripped)
    ensures var x := Select(u, text).payload;
              |x| > 0 ==> x[0] !in FallbackStripped && x[|x| - 1] !in FallbackStripped
  {
    SelectIsStep(u, text);
    FallbackStripsOnce(text);
  }

  /** The second strip of the fallback finds nothing left to remove. */
  lemma FallbackStripsOnce(text: string)
    ensures FallbackSelection(text).payload == Trim(text, c => c in FallbackStripped)
  {
    var once := Trim(text, c => c in FallbackStripped);
    TrimKeeps(once, c => c in FallbackStrippedAgain);
  }

  /** Under a python fence holding neither python pattern, the generic fence branch runs and
      hands the decoder the fence body together with the word "python". */
  lemma PythonFenceFallsToGenericFence(u: CharSemantics, body: string)
    requires Sane(u)
    requires '`' !in body && '{' !in body
    ensures Select(u, PythonFence + body + Fence).branch == AnyFence
    ensures Select(u, PythonFence + body + Fence).payload == Strip(u, "python" + body)
    ensures "python" <= Select(u, PythonFence + body + Fence).payload
  {
    var text := PythonFence + body + Fence;
    var x := "python" + body;
    PythonFenceSelection(u, body);
    assert Select(u, text).payload == Strip(u, x);
    StripKeepsWord(u, x);
  }

  lemma PythonFenceSelection(u: CharSemantics, body: string)
    requires '`' !in body && '{' !in body
    ensures Select(u, PythonFence + body + Fence) == Selection(AnyFence, Strip(u, "python" + body))
  {
    var text := PythonFence + body + Fence;
    PythonFenceTakesGenericStep(u, body);
    FencesOfPythonFence(body);
    GenericFenceAt(u, text, |text| - 3);
    PythonFenceBody(body);
  }

  lemma PythonFenceBody(body: string)
    ensures (PythonFence + body + Fence)[3..|PythonFence + body + Fence| - 3] == "python" + body
  {
  }

  lemma GenericFenceAt(u: CharSemantics, text: string, e: nat)
    requires 3 <= e <= |text|
    requires LeftmostLazy(text, Fence, Fence) == Some((0, e))
    ensures FencePayload(u, text, AnyFence) == Selection(AnyFence, Strip(u, text[3..e]))
  {
    assert Opener(AnyFence) == Fence;
    assert |Fence| == 3;
  }

  lemma PythonFenceTakesGenericStep(u: CharSemantics, body: string)
    requires '`' !in body && '{' !in body
    ensures Select(u, PythonFence + body + Fence)
            == FencePayload(u, PythonFence + body + Fence, AnyFence)
  {
    var text := PythonFence + body + Fence;
    assert '{' !in text;
    NoBraceNoPythonPayload(u, text);
    NoMarkerInPythonFence(body, JsonFenceOpen);
    NoMarkerInPythonFence(body, UpperJsonFenceOpen);
    assert OccursAt(text, Fence, 0);
  }

  lemma FencesOfPythonFence(body: string)
    requires '`' !in body
    ensures LeftmostLazy(PythonFence + body + Fence, Fence, Fence)
            == Some((0, |PythonFence + body + Fence| - 3))
  {
    var text := PythonFence + body + Fence;
    var e := |text| - 3;
    assert OccursAt(text, Fence, 0);
    assert OccursAt(text, Fence, e);
    forall k | 3 <= k < e ensures !OccursAt(text, Fence, k) {
      NoFenceInside(body, k);
    }
  }

  /** Stripping whitespace keeps a leading "python". */
  lemma StripKeepsWord(u: CharSemantics, x: string)
    requires Sane(u)
    requires |x| >= 6 && x[..6] == "python"
    ensures "python" <= Strip(u, x)
  {
    assert 'p' in NeverSpace && 'n' in NeverSpace;
    assert x[0] == 'p' && x[5] == 'n';
    assert !u.isSpace(x[0]) && !u.isSpace(x[5]);
    var left := TrimLeft(x, u.isSpace);
    assert left == x;
    var y := TrimRight(left, u.isSpace);
    assert |y| >= 6;
    assert y[..6] == x[..6];
  }

  lemma NoBraceNoPythonPayload(u: CharSemantics, text: string)
    requires '{' !in text
    ensures PythonPayload(u, text).None?
  {
    assert DumpsOpen[11] == '{';
    AbsentCharNoOccurrence(text, DumpsOpen, 11);
    DictSearchNoBrace(u, text, 0);
  }

  /** A fence marker other than "```python" cannot occur in a python fence without backticks
      in its body. */
  lemma NoMarkerInPythonFence(body: string, marker: string)
    requires '`' !in body
    requires |marker| >= 4 && marker[..3] == Fence && marker[3] != 'p'
    ensures !Contains(PythonFence + body + Fence, marker)
  {
    var text := PythonFence + body + Fence;
    forall i | 0 <= i && i + |marker| <= |text| ensures !OccursAt(text, marker, i) {
      if i == 0 {
        assert text[i..i + |marker|][3] == 'p';
      } else {
        NoFenceInside(body, i);
        var window := text[i..i + |marker|];
        forall k | 0 <= k < 3 ensures window[..3][k] == text[i..i + 3][k] {
          assert window[k] == text[i + k];
        }
        assert window[..3] == text[i..i + 3];
      }
    }
  }

  /** In `"```python" + body + "```"` with no backtick in `body`, a fence starts only at
      either end. */
  lemma NoFenceInside(body: string, i: int)
    requires '`' !in body
    requires 0 < i < |PythonFence + body + Fence| - 3
    ensures !OccursAt(PythonFence + body + Fence, Fence, i)
  {
    var text := PythonFence + body + Fence;
    var j := if i < 3 then 3 else i;
    if j < 9 {
      assert text[j] == PythonFence[j];
    } else {
      assert text[j] == body[j - 9];
    }
    assert text[j] != '`';
    assert text[i..i + 3][j - i] == text[j];
  }

  lemma DictSearchNoBrace(u: CharSemantics, text: string, from: nat)
    requires '{' !in text
    ensures DictSearch(u, text, from).None?
    decreases |text| - from
  {
    if from < |text| {
      DictSearchNoBrace(u, text, from + 1);
    }
  }
}
