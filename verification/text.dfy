/** String primitives the Python code gets from `str` and `re`: substring search,
    stripping, decimal rendering, and the Unicode character tables, which are kept abstract. */
module Text {

  import opened Wrappers

  /** The parts of Python's Unicode database the core relies on. They are not modelled:
      every result holds for whatever tables are supplied, provided they are `Sane`. */
  datatype CharSemantics = CharSemantics(
    isWord: char -> bool,     // `\w` in a `str` pattern
    isSpace: char -> bool,    // `\s` in a `str` pattern, and `str.isspace`
    isDigit: char -> bool,    // `\d` in a `str` pattern (any Unicode decimal digit)
    lower: string -> string   // `str.lower`
  )

  /** The characters the patterns spell out literally and that the proofs need to tell apart
      from whitespace. */
  const NeverSpace: string := "0123456789:[]{}cCmM㎝pn"

  /** Facts true of the real Unicode tables that the proofs rely on: the ASCII digits, ':',
      brackets, braces and a few letters are not whitespace, and the staging letters are
      word characters. */
  predicate Sane(u: CharSemantics) {
    && (forall c :: c in NeverSpace ==> !u.isSpace(c))
    && u.isWord('T') && u.isWord('t') && u.isWord('N') && u.isWord('n')
    && u.isWord('M') && u.isWord('m')
  }

  /** `pat` occurs in `s` starting at index `i`. */
  predicate OccursAt(s: string, pat: string, i: int) {
    0 <= i && i + |pat| <= |s| && s[i..i + |pat|] == pat
  }

  /** `str.find(pat, from)`: the first occurrence of `pat` at or after `from`. */
  function FindFrom(s: string, pat: string, from: nat): (r: Option<nat>)
    ensures r.Some? ==> from <= r.value && OccursAt(s, pat, r.value)
    ensures r.Some? ==> forall j :: from <= j < r.value ==> !OccursAt(s, pat, j)
    ensures r.None? ==> forall j :: from <= j ==> !OccursAt(s, pat, j)
    decreases |s| - from
  {
    if from + |pat| > |s| then None
    else if s[from..from + |pat|] == pat then Some(from)
    else FindFrom(s, pat, from + 1)
  }

  /** A one-character pattern occurs exactly where its character stands. */
  lemma OccursAtSingle(s: string, pat: string, i: int)
    requires |pat| == 1 && OccursAt(s, pat, i)
    ensures 0 <= i < |s| && s[i] == pat[0]
  {
    assert s[i..i + 1][0] == s[i];
  }

  /** Python's `pat in s`. */
  predicate Contains(s: string, pat: string) {
    FindFrom(s, pat, 0).Some?
  }

  lemma ContainsIff(s: string, pat: string)
    ensures Contains(s, pat) <==> exists i :: OccursAt(s, pat, i)
  {
  }

  /** A pattern holding a character the text lacks does not occur in it. */
  lemma AbsentCharNoOccurrence(s: string, pat: string, k: nat)
    requires k < |pat| && pat[k] !in s
    ensures forall i :: !OccursAt(s, pat, i)
  {
    forall i | 0 <= i && i + |pat| <= |s| ensures !OccursAt(s, pat, i) {
      assert s[i..i + |pat|][k] == s[i + k];
    }
  }

  /** The end of the longest run of characters satisfying `keep` that starts at `from`. */
  function RunEnd(s: string, from: nat, keep: char -> bool): (r: nat)
    requires from <= |s|
    ensures from <= r <= |s|
    ensures forall k :: from <= k < r ==> keep(s[k])
    ensures r < |s| ==> !keep(s[r])
    decreases |s| - from
  {
    if from == |s| || !keep(s[from]) then from else RunEnd(s, from + 1, keep)
  }

  /** Drops the longest prefix whose characters all satisfy `drop`. */
  function TrimLeft(s: string, drop: char -> bool): (r: string)
    ensures |r| <= |s| && r == s[|s| - |r|..]
    ensures forall k :: 0 <= k < |s| - |r| ==> drop(s[k])
    ensures |r| > 0 ==> !drop(r[0])
    decreases |s|
  {
    if |s| > 0 && drop(s[0]) then TrimLeft(s[1..], drop) else s
  }

  /** Drops the longest suffix whose characters all satisfy `drop`. */
  function TrimRight(s: string, drop: char -> bool): (r: string)
    ensures |r| <= |s| && r == s[..|r|]
    ensures forall k :: |r| <= k < |s| ==> drop(s[k])
    ensures |r| > 0 ==> !drop(r[|r| - 1])
    decreases |s|
  {
    if |s| > 0 && drop(s[|s| - 1]) then TrimRight(s[..|s| - 1], drop) else s
  }

  /** `str.strip(chars)` with the character set given as a predicate. */
  function Trim(s: string, drop: char -> bool): (r: string)
    ensures |r| > 0 ==> !drop(r[0]) && !drop(r[|r| - 1])
  {
    TrimRight(TrimLeft(s, drop), drop)
  }

  /** Stripping leaves alone a string whose ends are kept. */
  lemma TrimKeeps(s: string, drop: char -> bool)
    requires |s| > 0 ==> !drop(s[0]) && !drop(s[|s| - 1])
    ensures Trim(s, drop) == s
  {
  }

  /** `str.strip()` with no argument: Unicode whitespace at both ends. */
  function Strip(u: CharSemantics, s: string): string {
    Trim(s, u.isSpace)
  }

  /** `s[:n]` */
  function Take(s: string, n: nat): (r: string)
    ensures |r| == if |s| < n then |s| else n
    ensures r <= s
  {
    if |s| < n then s else s[..n]
  }

  /** `str.replace(a, b)` for single characters. */
  function ReplaceChar(s: string, a: char, b: char): (r: string)
    ensures |r| == |s|
    ensures forall k :: 0 <= k < |s| ==> r[k] == (if s[k] == a then b else s[k])
  {
    seq(|s|, k requires 0 <= k < |s| => if s[k] == a then b else s[k])
  }

  /** `sep.join(parts)` */
  function Join(parts: seq<string>, sep: string): string
    decreases |parts|
  {
    if |parts| == 0 then ""
    else if |parts| == 1 then parts[0]
    else parts[0] + sep + Join(parts[1..], sep)
  }

  predicate IsAsciiDigit(c: char) {
    '0' <= c <= '9'
  }

  function DigitChar(d: nat): (c: char)
    requires d < 10
    ensures IsAsciiDigit(c) && c as int - '0' as int == d
  {
    (48 + d) as char
  }

  /** Python's `str(n)` for a non-negative integer. */
  function NatToString(n: nat): (r: string)
    ensures |r| > 0
    ensures forall k :: 0 <= k < |r| ==> IsAsciiDigit(r[k])
    ensures r[0] == '0' ==> r == "0"
    decreases n
  {
    if n < 10 then [DigitChar(n)] else NatToString(n / 10) + [DigitChar(n % 10)]
  }

  /** The value of a string of ASCII digits: the inverse of `NatToString`. */
  function DecimalValue(s: string): nat
    requires forall k :: 0 <= k < |s| ==> IsAsciiDigit(s[k])
    decreases |s|
  {
    if |s| == 0 then 0
    else
      assert IsAsciiDigit(s[|s| - 1]);
      DecimalValue(s[..|s| - 1]) * 10 + (s[|s| - 1] as int - '0' as int)
  }

  /** Decimal rendering loses nothing: reading the digits back gives the number. */
  lemma {:induction false} DecimalRoundTrip(n: nat)
    ensures DecimalValue(NatToString(n)) == n
    decreases n
  {
    if n >= 10 {
      var r := NatToString(n);
      assert r[..|r| - 1] == NatToString(n / 10);
      DecimalRoundTrip(n / 10);
    }
  }

  /** Python's `str(i)` for any integer. */
  function IntToString(i: int): (r: string)
    ensures |r| > 0
    ensures i < 0 <==> r[0] == '-'
  {
    if i < 0 then "-" + NatToString(-i) else NatToString(i)
  }
}
