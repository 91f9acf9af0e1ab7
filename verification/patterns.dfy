/** The two regular expressions of the core that are not about fences: the staging tag the
    fallback extraction searches for (utils/voting.py) and the tumour size the evidence scorer
    looks for (utils/confidence.py). Each is given twice, as what the pattern means, a match
    predicate over positions, and as a left-to-right scan, and a lemma ties the two. */
module Patterns {

  import opened Wrappers
  import opened Text
  import opened Staging

  // ---------------------------------------------------------------------------------------
  // `\bT[:\s]*([0-4])`, `\bN[:\s]*([0-3])`, `\bM[:\s]*([01])`, all with re.IGNORECASE

  /** The tag letter in upper case; re.IGNORECASE also accepts `LowerLetter`. */
  function UpperLetter(f: Factor): char {
    match f
    case T => 'T'
    case N => 'N'
    case M => 'M'
  }

  function LowerLetter(f: Factor): char {
    match f
    case T => 't'
    case N => 'n'
    case M => 'm'
  }

  /** The characters of the captured digit class: `[0-4]`, `[0-3]` or `[01]`. */
  function DigitClass(f: Factor): string {
    match f
    case T => "01234"
    case N => "0123"
    case M => "01"
  }

  /** `[:\s]` */
  predicate IsSep(u: CharSemantics, c: char) {
    c == ':' || u.isSpace(c)
  }

  /** `\b` at position `p`: a word character on exactly one side. */
  predicate WordBoundary(u: CharSemantics, s: string, p: int)
    requires 0 <= p <= |s|
  {
    (p > 0 && u.isWord(s[p - 1])) != (p < |s| && u.isWord(s[p]))
  }

  /** The tag pattern for `f` matches with its letter at `p` and the captured digit at `q`. */
  predicate TagMatchAt(u: CharSemantics, s: string, f: Factor, p: int, q: int) {
    && 0 <= p < q < |s|
    && WordBoundary(u, s, p)
    && (s[p] == UpperLetter(f) || s[p] == LowerLetter(f))
    && (forall k :: p < k < q ==> IsSep(u, s[k]))
    && s[q] in DigitClass(f)
  }

  /** Where a match with the letter at `p` must put its digit: right after the longest run of
      separators, since backing off inside the run leaves a separator, not a digit. */
  function TagDigitAt(u: CharSemantics, s: string, f: Factor, p: nat): Option<nat>
    requires p < |s|
  {
    if (s[p] == UpperLetter(f) || s[p] == LowerLetter(f)) && WordBoundary(u, s, p) then
      var q := RunEnd(s, p + 1, c => IsSep(u, c));
      if q < |s| && s[q] in DigitClass(f) then Some(q) else None
    else None
  }

  lemma DigitClassNeverSeparates(u: CharSemantics, f: Factor, c: char)
    requires Sane(u) && c in DigitClass(f)
    ensures !IsSep(u, c)
  {
    assert c in NeverSpace;
  }

  /** `TagDigitAt` finds a match exactly when there is one, and then the only one. */
  lemma TagDigitAtIff(u: CharSemantics, s: string, f: Factor, p: nat)
    requires p < |s|
    ensures TagDigitAt(u, s, f, p).Some? ==> TagMatchAt(u, s, f, p, TagDigitAt(u, s, f, p).value)
    ensures Sane(u) ==> forall q :: TagMatchAt(u, s, f, p, q) ==> TagDigitAt(u, s, f, p) == Some(q)
  {
    if Sane(u) {
      forall q | TagMatchAt(u, s, f, p, q) ensures TagDigitAt(u, s, f, p) == Some(q) {
        var r := RunEnd(s, p + 1, c => IsSep(u, c));
        DigitClassNeverSeparates(u, f, s[q]);
        assert r == q;
      }
    }
  }

  /** `re.search` of the tag pattern for `f` in `s[from..]`: the leftmost letter position with a
      match, and the position of its digit. */
  function TagSearch(u: CharSemantics, s: string, f: Factor, from: nat): (r: Option<(nat, nat)>)
    ensures r.Some? ==> from <= r.value.0 && TagMatchAt(u, s, f, r.value.0, r.value.1)
    ensures Sane(u) && r.Some? ==>
              forall p, q :: from <= p < r.value.0 ==> !TagMatchAt(u, s, f, p, q)
    ensures Sane(u) && r.None? ==> forall p, q :: from <= p ==> !TagMatchAt(u, s, f, p, q)
    decreases |s| - from
  {
    if from >= |s| then None
    else
      TagDigitAtIff(u, s, f, from);
      match TagDigitAt(u, s, f, from)
      case Some(q) => Some((from, q))
      case None => TagSearch(u, s, f, from + 1)
  }

  /** The captured digit `m.group(1)` of the first match, if there is one. */
  function FindTag(u: CharSemantics, s: string, f: Factor): (r: Option<char>)
    ensures r.Some? ==> r.value in DigitClass(f)
  {
    match TagSearch(u, s, f, 0)
    case Some((_, q)) => Some(s[q])
    case None => None
  }

  /** `int()` of a captured ASCII digit. */
  function DigitValue(c: char): (v: nat)
    requires '0' <= c <= '9'
    ensures v < 10 && DigitChar(v) == c
  {
    c as int - '0' as int
  }

  /** `int(m.group(1))` for the first match: a value the digit class admits. */
  function TagValue(u: CharSemantics, s: string, f: Factor): (r: Option<nat>)
    ensures r.Some? <==> FindTag(u, s, f).Some?
    ensures r.Some? ==> r.value < |DigitClass(f)| && DigitChar(r.value) == FindTag(u, s, f).value
  {
    match FindTag(u, s, f)
    case Some(c) =>
      assert c in DigitClass(f);
      assert '0' <= c <= DigitClass(f)[|DigitClass(f)| - 1];
      Some(DigitValue(c))
    case None => None
  }

  // ---------------------------------------------------------------------------------------
  // `(\d+(?:\.\d+)?)\s*(?:cm|mm|㎝)` with re.IGNORECASE

  /** `cm|mm|㎝` ignoring case starts at `w`. */
  predicate UnitAt(s: string, w: int) {
    0 <= w < |s| &&
    ((w + 1 < |s| && s[w] in "cCmM" && s[w + 1] in "mM") || s[w] == '㎝')
  }

  /** The size pattern matches with the number in `s[i..f]` (its integer part ending at `j`),
      whitespace in `s[f..w]` and the unit at `w`. */
  predicate SizeMatchAt(u: CharSemantics, s: string, i: int, j: int, f: int, w: int) {
    && 0 <= i < j <= f <= w <= |s|
    && (forall k :: i <= k < j ==> u.isDigit(s[k]))
    && (f == j || (s[j] == '.' && j + 1 < f && forall k :: j + 1 <= k < f ==> u.isDigit(s[k])))
    && (forall k :: f <= k < w ==> u.isSpace(s[k]))
    && UnitAt(s, w)
  }

  /** A digit at `k` followed by optional whitespace and a unit. */
  predicate SizeEndsAt(u: CharSemantics, s: string, k: nat)
    requires k < |s|
  {
    u.isDigit(s[k]) && UnitAt(s, RunEnd(s, k + 1, u.isSpace))
  }

  /** Scans `s[from..]` for a digit followed by a unit. */
  function SizeFrom(u: CharSemantics, s: string, from: nat): (r: bool)
    ensures r <==> exists k :: from <= k < |s| && SizeEndsAt(u, s, k)
    decreases |s| - from
  {
    from < |s| && (SizeEndsAt(u, s, from) || SizeFrom(u, s, from + 1))
  }

  /** Whether `re.search` of the size pattern succeeds. */
  predicate HasSize(u: CharSemantics, s: string) {
    SizeFrom(u, s, 0)
  }

  lemma UnitNeverSpace(u: CharSemantics, s: string, w: int)
    requires Sane(u) && UnitAt(s, w)
    ensures !u.isSpace(s[w])
  {
    assert s[w] in NeverSpace;
  }

  /** The scan agrees with the pattern: a match needs no more than its last digit, and the
      whitespace run before a unit is always the longest one. */
  lemma HasSizeIff(u: CharSemantics, s: string)
    requires Sane(u)
    ensures HasSize(u, s) <==> exists i, j, f, w :: SizeMatchAt(u, s, i, j, f, w)
  {
    if HasSize(u, s) {
      var k :| 0 <= k < |s| && SizeEndsAt(u, s, k);
      var w := RunEnd(s, k + 1, u.isSpace);
      assert SizeMatchAt(u, s, k, k + 1, k + 1, w);
    }
    if i, j, f, w :| SizeMatchAt(u, s, i, j, f, w) {
      UnitNeverSpace(u, s, w);
      var k := f - 1;
      assert u.isDigit(s[k]);
      var r := RunEnd(s, k + 1, u.isSpace);
      assert r == w;
      assert SizeEndsAt(u, s, k);
    }
  }
}
