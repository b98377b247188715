/** The reals extended with the two infinities. The searchers start their
    running best value, and alpha-beta its window, at float('-inf') and
    float('inf'); every score the heuristic produces is a finite real. */
module ExtendedReals {

  datatype ExtReal = NegInf | Fin(r: real) | PosInf

  /** Strict order: NegInf below every finite value, PosInf above. */
  predicate Less(a: ExtReal, b: ExtReal)
  {
    match (a, b)
    case (NegInf, NegInf) => false
    case (NegInf, _) => true
    case (Fin(x), Fin(y)) => x < y
    case (Fin(_), PosInf) => true
    case (_, _) => false
  }

  predicate LessEq(a: ExtReal, b: ExtReal)
  {
    !Less(b, a)
  }

  /** The larger of two values; the first one on a tie. */
  function Max(a: ExtReal, b: ExtReal): (m: ExtReal)
    ensures LessEq(a, m) && LessEq(b, m)
    ensures m == a || m == b
  {
    if Less(a, b) then b else a
  }

  /** The smaller of two values; the first one on a tie. */
  function Min(a: ExtReal, b: ExtReal): (m: ExtReal)
    ensures LessEq(m, a) && LessEq(m, b)
    ensures m == a || m == b
  {
    if Less(b, a) then b else a
  }

  lemma LessIrreflexive(a: ExtReal)
    ensures !Less(a, a)
  {
  }

  lemma LessTransitive(a: ExtReal, b: ExtReal, c: ExtReal)
    requires Less(a, b) && Less(b, c)
    ensures Less(a, c)
  {
  }

  lemma LessEqTransitive(a: ExtReal, b: ExtReal, c: ExtReal)
    requires LessEq(a, b) && LessEq(b, c)
    ensures LessEq(a, c)
  {
  }

  lemma LessTotal(a: ExtReal, b: ExtReal)
    ensures Less(a, b) || a == b || Less(b, a)
  {
  }
}
