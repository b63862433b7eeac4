// is_base_pair in dna.c: whether two nucleotide letters are complementary.

module Pairing {

  /** The upper-case form of an ASCII letter; other characters are unchanged. */
  function Fold(c: char): char
  {
    if 'a' <= c <= 'z' then (c as int - 32) as char else c
  }

  /**
   * The reference rule: ignoring case, the two letters are exactly {A, T}
   * or exactly {C, G}.
   */
  predicate Complementary(x: char, y: char)
  {
    {Fold(x), Fold(y)} == {'A', 'T'} || {Fold(x), Fold(y)} == {'C', 'G'}
  }

  /**
   * is_base_pair: 1 for a complementary pair in either case, 0 otherwise.
   * (The header comment of the C function says it returns 1 for equal
   * letters; the code does not, and this follows the code.)
   */
  function IsBasePair(n1: char, n2: char): (r: int)
    ensures r == 0 || r == 1
    ensures r == 1 <==> Complementary(n1, n2)
  {
    match n1
    case 'A' | 'a' => if n2 == 'T' || n2 == 't' then 1 else 0
    case 'T' | 't' => if n2 == 'A' || n2 == 'a' then 1 else 0
    case 'C' | 'c' => if n2 == 'G' || n2 == 'g' then 1 else 0
    case 'G' | 'g' => if n2 == 'C' || n2 == 'c' then 1 else 0
    case _ => 0
  }

  /** The pairing relation does not depend on argument order. */
  lemma BasePairSymmetric(x: char, y: char)
    ensures IsBasePair(x, y) == IsBasePair(y, x)
  {
  }

  /** No letter pairs with itself, in either case. */
  lemma NoSelfPairing(x: char)
    ensures IsBasePair(x, x) == 0
    ensures IsBasePair(x, Fold(x)) == 0
  {
  }
}
