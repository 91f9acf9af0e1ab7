/** The vocabulary shared by the scorers and the vote: the three TNM factors and the three
    confidence levels, which the Python code spells as the strings "T", "N", "M" and "high",
    "medium", "low". */
module Staging {

  /** A factor of a TNM stage: primary tumour, regional nodes, distant metastasis. */
  datatype Factor = T | N | M

  /** The order in which every loop of the source visits the factors. */
  const Factors: seq<Factor> := [T, N, M]

  function FactorName(f: Factor): string {
    match f
    case T => "T"
    case N => "N"
    case M => "M"
  }

  /** A confidence level. */
  datatype Level = Low | Medium | High

  function LevelName(l: Level): string {
    match l
    case Low => "low"
    case Medium => "medium"
    case High => "high"
  }

  /** The order `low < medium < high`. */
  function Rank(l: Level): nat {
    match l
    case Low => 0
    case Medium => 1
    case High => 2
  }

  /** The lower of two levels. */
  function Lower(a: Level, b: Level): (r: Level)
    ensures Rank(r) <= Rank(a) && Rank(r) <= Rank(b)
    ensures r == a || r == b
  {
    if Rank(a) <= Rank(b) then a else b
  }

  /** A dict with keys "T", "N" and "M". */
  datatype Triple<X> = Triple(t: X, n: X, m: X) {

    function Get(f: Factor): X {
      match f
      case T => t
      case N => n
      case M => m
    }
  }

  /** The dict `{"T": x, "N": x, "M": x}`. */
  function Same<X>(x: X): (r: Triple<X>)
    ensures forall f :: r.Get(f) == x
  {
    Triple(x, x, x)
  }

  /** `{f: g(f) for f in ["T", "N", "M"]}` */
  function PerFactor<X>(g: Factor -> X): (r: Triple<X>)
    ensures forall f :: r.Get(f) == g(f)
  {
    Triple(g(T), g(N), g(M))
  }
}
