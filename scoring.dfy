// calculate_score in dna.c: the three-tier codon comparison and the search
// over codon-aligned offsets of the candidate for the best-scoring window.
//
// Comparisons are case-sensitive, as in the C code: strncmp decides the
// exact tier and == the equal-nucleotide rule, and the complement rule of
// the nucleotide tier only recognises upper-case letters.

module Scoring {
  import opened Codons
  import Pairing

  function Max(a: int, b: int): int
  {
    if a < b then b else a
  }

  /** The three letters of s from position p on: what strncmp(ptr, ..., 3) reads at s + p. */
  function CodonFrom(s: string, p: int): Codon
    requires 0 <= p && p + 3 <= |s|
  {
    Codon(s[p], s[p + 1], s[p + 2])
  }

  /** The i-th codon of the window starting at offset o of s. */
  function CodonAt(s: string, o: int, i: int): Codon
    requires 0 <= o && 0 <= i && o + 3 * i + 3 <= |s|
  {
    CodonFrom(s, o + 3 * i)
  }

  /** The number of whole codons of the sample; trailing 1 or 2 letters are not a codon. */
  function CodonCount(s: string): (n: nat)
    ensures 3 * n <= |s| < 3 * n + 3
  {
    |s| / 3
  }

  /** The upper-case complement pairs the nucleotide tier recognises (dna.c:346-356). */
  predicate UpperComplement(a: char, b: char)
  {
    (a == 'A' && b == 'T') || (a == 'T' && b == 'A') ||
    (a == 'C' && b == 'G') || (a == 'G' && b == 'C')
  }

  /** One position of the nucleotide tier: 2 if equal, 1 for an upper-case complement, else 0. */
  function NucleotideScore(a: char, b: char): (r: int)
    ensures r == 2 <==> a == b
    ensures 0 <= r <= 2
  {
    if a == b then 2
    else if UpperComplement(a, b) then 1
    else 0
  }

  /** The nucleotide tier of the calculation differs from is_base_pair only in ignoring lower case. */
  lemma NucleotideTierUsesUpperCasePairs(a: char, b: char)
    requires a != b
    ensures NucleotideScore(a, b) == 1 <==>
              Pairing.IsBasePair(a, b) == 1 && 'A' <= a <= 'Z' && 'A' <= b <= 'Z'
  {
  }

  /** The nucleotide tier summed over the first k positions of two codons. */
  function NucleotideSum(x: Codon, y: Codon, k: nat): (r: int)
    requires k <= 3
    ensures 0 <= r <= 2 * k
    ensures r == 2 * k <==> forall j :: 0 <= j < k ==> x.Letter(j) == y.Letter(j)
  {
    if k == 0 then 0
    else NucleotideSum(x, y, k - 1) + NucleotideScore(x.Letter(k - 1), y.Letter(k - 1))
  }

  /** Two codons agree at all three positions exactly when they are the same codon. */
  lemma SameLetters(x: Codon, y: Codon)
    ensures (forall j :: 0 <= j < 3 ==> x.Letter(j) == y.Letter(j)) <==> x == y
  {
    if forall j :: 0 <= j < 3 ==> x.Letter(j) == y.Letter(j) {
      assert x.Letter(0) == y.Letter(0) && x.Letter(1) == y.Letter(1) && x.Letter(2) == y.Letter(2);
    }
  }

  /**
   * Both amino lookups of a codon pair succeed unless the codons are equal
   * (then the exact tier decides and no lookup happens); otherwise strcmp
   * at dna.c:338 would receive NULL.
   */
  predicate PairDefined(table: Table, x: Codon, y: Codon)
  {
    x == y || (Known(table, x) && Known(table, y))
  }

  /**
   * The score of one aligned codon pair, tiers in strict priority:
   * 10 for the same codon, else 5 for the same amino acid, else the
   * nucleotide tier.
   */
  function CodonScore(table: Table, x: Codon, y: Codon): (r: int)
    requires table.Valid() && PairDefined(table, x, y)
    ensures 0 <= r <= 10
    ensures r == 10 <==> x == y
    ensures x != y && AminoOf(table, x) == AminoOf(table, y) ==> r == 5
    ensures x != y && AminoOf(table, x) != AminoOf(table, y) ==> r <= 5 && r == NucleotideSum(x, y, 3)
  {
    if x == y then 10
    else if AminoOf(table, x) == AminoOf(table, y) then 5
    else
      SameLetters(x, y);
      NucleotideSum(x, y, 3)
  }

  /**
   * Every codon pair that the window at offset o compares can be scored:
   * the window lies inside the candidate and each pair is PairDefined.
   */
  predicate WindowDefined(table: Table, s: string, c: string, o: int)
  {
    0 <= o && o + 3 * CodonCount(s) <= |c| &&
    forall i :: 0 <= i < CodonCount(s) ==> PairDefined(table, CodonAt(s, 0, i), CodonAt(c, o, i))
  }


  /**
   * The score of the window at offset o over its first n codon pairs:
   * the running score of the inner loop of calculate_score (dna.c:325-363).
   */
  function PairSum(table: Table, s: string, c: string, o: int, n: nat): (r: int)
    requires table.Valid() && WindowDefined(table, s, c, o) && n <= CodonCount(s)
    ensures 0 <= r <= 10 * n
  {
    if n == 0 then 0
    else PairSum(table, s, c, o, n - 1) + CodonScore(table, CodonAt(s, 0, n - 1), CodonAt(c, o, n - 1))
  }

  /** The first n pairs score the full 10 each exactly when each of them is an exact codon match. */
  lemma {:induction false} PairSumPerfect(table: Table, s: string, c: string, o: int, n: nat)
    requires table.Valid() && WindowDefined(table, s, c, o) && n <= CodonCount(s)
    ensures PairSum(table, s, c, o, n) == 10 * n <==> forall i :: 0 <= i < n ==> CodonAt(s, 0, i) == CodonAt(c, o, i)
  {
    if 0 < n {
      PairSumPerfect(table, s, c, o, n - 1);
    }
  }

  /** The score of the window at offset o: the sum over all of the sample's whole codons. */
  function WindowScore(table: Table, s: string, c: string, o: int): (r: int)
    requires table.Valid() && WindowDefined(table, s, c, o)
    ensures 0 <= r <= 10 * CodonCount(s)
  {
    PairSum(table, s, c, o, CodonCount(s))
  }

  /** Cutting the sample back to whole codons keeps each of its codons. */
  lemma CodonAtTruncated(s: string, i: int)
    requires 0 <= i < CodonCount(s)
    ensures CodonCount(s[..3 * CodonCount(s)]) == CodonCount(s)
    ensures CodonAt(s[..3 * CodonCount(s)], 0, i) == CodonAt(s, 0, i)
  {
  }

  /** The first n pairs score the same after the sample is cut back to whole codons. */
  lemma {:induction false} PairSumIgnoresTrailing(table: Table, s: string, c: string, o: int, n: nat)
    requires table.Valid() && WindowDefined(table, s, c, o) && n <= CodonCount(s)
    requires WindowDefined(table, s[..3 * CodonCount(s)], c, o)
    ensures CodonCount(s[..3 * CodonCount(s)]) == CodonCount(s)
    ensures PairSum(table, s, c, o, n) == PairSum(table, s[..3 * CodonCount(s)], c, o, n)
  {
    var t := s[..3 * CodonCount(s)];
    assert CodonCount(t) == CodonCount(s);
    if 0 < n {
      PairSumIgnoresTrailing(table, s, c, o, n - 1);
      CodonAtTruncated(s, n - 1);
    }
  }

  /** The trailing 1 or 2 letters of the sample never enter a window score (dna.c:320, 328). */
  lemma WindowScoreIgnoresTrailing(table: Table, s: string, c: string, o: int)
    requires table.Valid() && WindowDefined(table, s, c, o)
    ensures WindowDefined(table, s[..3 * CodonCount(s)], c, o)
    ensures WindowScore(table, s, c, o) == WindowScore(table, s[..3 * CodonCount(s)], c, o)
  {
    var t := s[..3 * CodonCount(s)];
    forall i | 0 <= i < CodonCount(s)
      ensures CodonCount(t) == CodonCount(s) && CodonAt(t, 0, i) == CodonAt(s, 0, i)
    {
      CodonAtTruncated(s, i);
    }
    PairSumIgnoresTrailing(table, s, c, o, CodonCount(s));
  }

  /**
   * The number of codon-aligned offsets 0, 3, 6, ... strictly below limit;
   * the shift k stands for the offset 3 * k.
   */
  function ShiftCount(limit: int): (n: nat)
    ensures limit <= 3 * n
    ensures n == 0 || 3 * (n - 1) < limit
  {
    if limit <= 0 then 0 else (limit + 2) / 3
  }

  /** The window shifted by k codons can be scored. */
  predicate ShiftDefined(table: Table, s: string, c: string, k: int)
  {
    0 <= k && WindowDefined(table, s, c, 3 * k)
  }

  /** The score of the window shifted by k codons. */
  function ShiftScore(table: Table, s: string, c: string, k: int): (r: int)
    requires table.Valid() && ShiftDefined(table, s, c, k)
    ensures 0 <= r <= 10 * CodonCount(s)
  {
    WindowScore(table, s, c, 3 * k)
  }

  /** The first n shifts all have scorable windows. */
  predicate ShiftsDefined(table: Table, s: string, c: string, n: int)
  {
    forall k :: 0 <= k < n ==> ShiftDefined(table, s, c, k)
  }

  /**
   * The running maximum of calculate_score after the first n shifts:
   * maxScore starts at 0 (dna.c:317) and keeps the larger of itself and
   * each window score (dna.c:366-367).
   */
  function BestPrefix(table: Table, s: string, c: string, n: nat): (r: int)
    requires table.Valid() && ShiftsDefined(table, s, c, n)
    ensures 0 <= r <= 10 * CodonCount(s)
  {
    if n == 0 then 0 else Max(BestPrefix(table, s, c, n - 1), ShiftScore(table, s, c, n - 1))
  }

  /** The running maximum bounds every score seen so far and, once one is seen, equals one of them. */
  lemma {:induction false} BestPrefixIsMaximum(table: Table, s: string, c: string, n: nat)
    requires table.Valid() && ShiftsDefined(table, s, c, n)
    ensures forall k :: 0 <= k < n ==> ShiftScore(table, s, c, k) <= BestPrefix(table, s, c, n)
    ensures n == 0 ==> BestPrefix(table, s, c, n) == 0
    ensures 0 < n ==> exists k :: 0 <= k < n && ShiftScore(table, s, c, k) == BestPrefix(table, s, c, n)
  {
    if 0 < n {
      var m := n - 1;
      BestPrefixIsMaximum(table, s, c, m);
      if m == 0 || BestPrefix(table, s, c, m) <= ShiftScore(table, s, c, m) {
        assert ShiftScore(table, s, c, m) == BestPrefix(table, s, c, n);
      } else {
        var k :| 0 <= k < m && ShiftScore(table, s, c, k) == BestPrefix(table, s, c, m);
        assert ShiftScore(table, s, c, k) == BestPrefix(table, s, c, n);
      }
    }
  }

  /**
   * calculate_score visits the offsets 0, 3, 6, ... strictly below
   * |c| - |s| (dna.c:322), that is the shifts k with 3 * k < |c| - |s|.
   * With equal lengths there are none. The function's header comment
   * describes shifting while the sample's whole codons still fit, which this
   * bound does not do: see IntendedBestScore.
   */
  predicate Visited(s: string, c: string, k: int)
  {
    0 <= k && 3 * k < |c| - |s|
  }

  /** The number of shifts calculate_score visits. */
  function VisitedCount(s: string, c: string): nat
  {
    ShiftCount(|c| - |s|)
  }

  /** Every window calculate_score visits can be scored (dna.c:335-338 need non-NULL amino names). */
  predicate ScoreDefined(table: Table, s: string, c: string)
  {
    ShiftsDefined(table, s, c, VisitedCount(s, c))
  }

  /** The result of calculate_score: the running maximum once every visited shift is scored. */
  function BestScore(table: Table, s: string, c: string): (r: int)
    requires table.Valid() && ScoreDefined(table, s, c)
    ensures 0 <= r <= 10 * CodonCount(s)
  {
    BestPrefix(table, s, c, VisitedCount(s, c))
  }

  /** The visited shifts are exactly the first VisitedCount(s, c) shifts. */
  lemma VisitedShifts(s: string, c: string, k: int)
    ensures Visited(s, c, k) <==> 0 <= k < VisitedCount(s, c)
  {
  }

  /** A visited window ends strictly before the candidate does, so every read is in bounds. */
  lemma VisitedWindowInBounds(s: string, c: string, k: int)
    requires Visited(s, c, k)
    ensures 3 * k + 3 * CodonCount(s) < |c|
  {
  }

  /**
   * calculate_score returns the maximum window score over the visited
   * offsets, and 0 when no offset is visited.
   */
  lemma BestScoreIsMaximum(table: Table, s: string, c: string)
    requires table.Valid() && ScoreDefined(table, s, c)
    ensures forall k :: Visited(s, c, k) ==> ShiftDefined(table, s, c, k) && ShiftScore(table, s, c, k) <= BestScore(table, s, c)
    ensures |c| <= |s| ==> BestScore(table, s, c) == 0
    ensures |s| < |c| ==> exists k :: Visited(s, c, k) && ShiftDefined(table, s, c, k) && ShiftScore(table, s, c, k) == BestScore(table, s, c)
  {
    BestPrefixIsMaximum(table, s, c, VisitedCount(s, c));
    forall k | Visited(s, c, k)
      ensures ShiftDefined(table, s, c, k) && ShiftScore(table, s, c, k) <= BestScore(table, s, c)
    {
      VisitedShifts(s, c, k);
    }
    if |s| < |c| {
      var k :| 0 <= k < VisitedCount(s, c) && ShiftScore(table, s, c, k) == BestScore(table, s, c);
      VisitedShifts(s, c, k);
    }
  }

  /** A sample of one whole codon x, at shift k of a candidate holding y there, scores the pair. */
  lemma OneCodonShift(table: Table, s: string, c: string, k: nat, x: Codon, y: Codon)
    requires table.Valid() && CodonCount(s) == 1 && 3 * k + 3 <= |c|
    requires CodonAt(s, 0, 0) == x && CodonAt(c, 3 * k, 0) == y && PairDefined(table, x, y)
    ensures ShiftDefined(table, s, c, k) && ShiftScore(table, s, c, k) == CodonScore(table, x, y)
  {
  }

  /** The running maximum after one and after two shifts. */
  lemma FirstShifts(table: Table, s: string, c: string, n: nat)
    requires table.Valid() && 1 <= n <= 2 && ShiftsDefined(table, s, c, n)
    ensures BestPrefix(table, s, c, 1) == ShiftScore(table, s, c, 0)
    ensures n == 2 ==> BestPrefix(table, s, c, 2) == Max(ShiftScore(table, s, c, 0), ShiftScore(table, s, c, 1))
  {
  }

  /** A candidate one codon longer than the sample is compared at offset 0 only. */
  lemma OneCodonLongerScoresOffsetZero(table: Table, s: string, c: string)
    requires table.Valid() && ScoreDefined(table, s, c) && |c| == |s| + 3
    ensures WindowDefined(table, s, c, 0)
    ensures BestScore(table, s, c) == WindowScore(table, s, c, 0)
  {
    assert VisitedCount(s, c) == 1 && ShiftDefined(table, s, c, 0);
    assert BestPrefix(table, s, c, 1) == ShiftScore(table, s, c, 0);
  }

  /**
   * The body of the inner loop of calculate_score (dna.c:329-359): one
   * aligned codon pair, scored by the first tier that applies.
   */
  method CompareCodons(table: Table, sampleCodon: Codon, candCodon: Codon) returns (tempScore: int)
    requires table.Valid()
    requires PairDefined(table, sampleCodon, candCodon)
    ensures tempScore == CodonScore(table, sampleCodon, candCodon)
  {
    tempScore := 0;
    if sampleCodon == candCodon {
      tempScore := 10;
    } else {
      var amino1 := GetAmino(table, sampleCodon);
      var amino2 := GetAmino(table, candCodon);
      AminoOfKnown(table, sampleCodon);
      AminoOfKnown(table, candCodon);
      if amino1.value == amino2.value {
        tempScore := 5;
      } else {
        for j := 0 to 3
          invariant tempScore == NucleotideSum(sampleCodon, candCodon, j)
        {
          if sampleCodon.Letter(j) == candCodon.Letter(j) {
            tempScore := tempScore + 2;
          } else if sampleCodon.Letter(j) == 'A' && candCodon.Letter(j) == 'T' {
            tempScore := tempScore + 1;
          } else if sampleCodon.Letter(j) == 'T' && candCodon.Letter(j) == 'A' {
            tempScore := tempScore + 1;
          } else if sampleCodon.Letter(j) == 'C' && candCodon.Letter(j) == 'G' {
            tempScore := tempScore + 1;
          } else if sampleCodon.Letter(j) == 'G' && candCodon.Letter(j) == 'C' {
            tempScore := tempScore + 1;
          }
        }
      }
    }
  }

  /**
   * One alignment (dna.c:324-364): the sample's whole codons against the
   * candidate from offset on, both positions advancing one codon at a time.
   */
  method ScoreAlignment(table: Table, sample: string, candidate: string, offset: int) returns (score: int)
    requires table.Valid() && WindowDefined(table, sample, candidate, offset)
    ensures score == WindowScore(table, sample, candidate, offset)
  {
    var sampleLengthInCodons := |sample| / 3;
    var samplePos := 0;
    var candPos := offset;
    score := 0;
    var i := 0;
    while i < sampleLengthInCodons
      invariant 0 <= i <= sampleLengthInCodons
      invariant samplePos == 3 * i && candPos == offset + 3 * i
      invariant score == PairSum(table, sample, candidate, offset, i)
    {
      var sampleCodon := CodonFrom(sample, samplePos);
      var candCodon := CodonFrom(candidate, candPos);
      assert sampleCodon == CodonAt(sample, 0, i) && candCodon == CodonAt(candidate, offset, i);
      var tempScore := CompareCodons(table, sampleCodon, candCodon);
      score := score + tempScore;
      samplePos := samplePos + 3;
      candPos := candPos + 3;
      i := i + 1;
    }
  }

  /**
   * calculate_score: maxScore starts at 0 and keeps the larger of itself and
   * each visited offset's window score.
   */
  method CalculateScore(table: Table, sample: string, candidate: string) returns (maxScore: int)
    requires table.Valid() && ScoreDefined(table, sample, candidate)
    ensures maxScore == BestScore(table, sample, candidate)
  {
    var sampleLength := |sample|;
    var candidateLength := |candidate|;
    ghost var n := VisitedCount(sample, candidate);
    ghost var k := 0;
    maxScore := 0;
    var offset := 0;
    while offset < candidateLength - sampleLength
      invariant offset == 3 * k && 0 <= k <= n
      invariant maxScore == BestPrefix(table, sample, candidate, k)
    {
      assert ShiftDefined(table, sample, candidate, k);
      var score := ScoreAlignment(table, sample, candidate, offset);
      if score > maxScore {
        maxScore := score;
      }
      offset := offset + 3;
      k := k + 1;
    }
  }

  // ---------------------------------------------------------------------
  // The offset range the header comment of calculate_score describes
  // (dna.c:300-305): keep shifting by one codon while the sample, without
  // its trailing letters, still fits inside the candidate.

  /** The number of shifts at which the sample's whole codons fit inside the candidate. */
  function IntendedCount(s: string, c: string): nat
  {
    ShiftCount(|c| - 3 * CodonCount(s) + 1)
  }

  /** Every window the corrected search visits can be scored. */
  predicate IntendedScoreDefined(table: Table, s: string, c: string)
  {
    ShiftsDefined(table, s, c, IntendedCount(s, c))
  }

  /** The best window over every codon-aligned offset at which the sample's whole codons fit. */
  function IntendedBestScore(table: Table, s: string, c: string): (r: int)
    requires table.Valid() && IntendedScoreDefined(table, s, c)
    ensures 0 <= r <= 10 * CodonCount(s)
  {
    BestPrefix(table, s, c, IntendedCount(s, c))
  }

  /** The corrected search visits exactly the shifts whose window lies inside the candidate. */
  lemma IntendedShifts(s: string, c: string, k: int)
    ensures 0 <= k < IntendedCount(s, c) <==> 0 <= k && 3 * k + 3 * CodonCount(s) <= |c|
  {
  }

  /** As written, a sample scored against itself gets 0: no offset is visited. */
  lemma SelfScoreAsWritten(table: Table, s: string)
    requires table.Valid()
    ensures ScoreDefined(table, s, s)
    ensures BestScore(table, s, s) == 0
  {
  }

  /** With the corrected range, a sample scored against itself gets 10 per whole codon. */
  lemma IntendedSelfScore(table: Table, s: string)
    requires table.Valid()
    ensures IntendedScoreDefined(table, s, s)
    ensures IntendedBestScore(table, s, s) == 10 * CodonCount(s)
  {
    assert IntendedCount(s, s) == 1;
    assert ShiftDefined(table, s, s, 0);
    PairSumPerfect(table, s, s, 0, CodonCount(s));
  }

  /** With the corrected range, cutting the sample back to whole codons changes nothing. */
  lemma IntendedIgnoresTrailing(table: Table, s: string, c: string)
    requires table.Valid() && IntendedScoreDefined(table, s, c)
    ensures IntendedScoreDefined(table, s[..3 * CodonCount(s)], c)
    ensures IntendedBestScore(table, s, c) == IntendedBestScore(table, s[..3 * CodonCount(s)], c)
  {
    var t := s[..3 * CodonCount(s)];
    var n := IntendedCount(s, c);
    assert CodonCount(t) == CodonCount(s) && IntendedCount(t, c) == n;
    forall k | 0 <= k < n
      ensures ShiftDefined(table, t, c, k) && ShiftScore(table, s, c, k) == ShiftScore(table, t, c, k)
    {
      WindowScoreIgnoresTrailing(table, s, c, 3 * k);
    }
    SamePrefixes(table, s, t, c, n);
  }

  /** Two samples with the same shift scores have the same running maximum. */
  lemma {:induction false} SamePrefixes(table: Table, s: string, t: string, c: string, n: nat)
    requires table.Valid() && ShiftsDefined(table, s, c, n) && ShiftsDefined(table, t, c, n)
    requires forall k :: 0 <= k < n ==> ShiftScore(table, s, c, k) == ShiftScore(table, t, c, k)
    ensures BestPrefix(table, s, c, n) == BestPrefix(table, t, c, n)
  {
    if 0 < n {
      SamePrefixes(table, s, t, c, n - 1);
    }
  }

  const ATG := Codon('A', 'T', 'G')
  const CCC := Codon('C', 'C', 'C')

  /** The codon scores the two witnesses below compare. */
  lemma WitnessCodons(table: Table)
    requires table.Valid() && Known(table, ATG) && Known(table, CCC)
    ensures PairDefined(table, ATG, CCC)
    ensures CodonScore(table, ATG, CCC) <= 5 && CodonScore(table, ATG, ATG) == 10
  {
  }

  /**
   * As written, a candidate one codon longer than the sample is never
   * compared at its last codon, even where that codon equals the sample.
   */
  lemma LastWindowSkipped(table: Table)
    requires table.Valid() && Known(table, ATG) && Known(table, CCC)
    ensures ScoreDefined(table, "ATG", "CCCATG") && IntendedScoreDefined(table, "ATG", "CCCATG")
    ensures BestScore(table, "ATG", "CCCATG") <= 5
    ensures IntendedBestScore(table, "ATG", "CCCATG") == 10
  {
    var s, c := "ATG", "CCCATG";
    WitnessCodons(table);
    assert CodonAt(s, 0, 0) == ATG && CodonAt(c, 0, 0) == CCC && CodonAt(c, 3, 0) == ATG;
    OneCodonShift(table, s, c, 0, ATG, CCC);
    OneCodonShift(table, s, c, 1, ATG, ATG);
    assert VisitedCount(s, c) == 1 && IntendedCount(s, c) == 2;
    FirstShifts(table, s, c, 2);
  }

  /**
   * As written, the sample's trailing letters shrink the offset range: a
   * fourth letter hides the window at offset 3.
   */
  lemma TrailingLetterChangesScore(table: Table)
    requires table.Valid() && Known(table, ATG) && Known(table, CCC)
    ensures ScoreDefined(table, "ATGA", "CCCATGC") && ScoreDefined(table, "ATG", "CCCATGC")
    ensures BestScore(table, "ATGA", "CCCATGC") <= 5
    ensures BestScore(table, "ATG", "CCCATGC") == 10
  {
    var s, t, c := "ATGA", "ATG", "CCCATGC";
    WitnessCodons(table);
    assert CodonAt(s, 0, 0) == ATG && CodonAt(t, 0, 0) == ATG;
    assert CodonAt(c, 0, 0) == CCC && CodonAt(c, 3, 0) == ATG;
    OneCodonShift(table, s, c, 0, ATG, CCC);
    OneCodonShift(table, t, c, 0, ATG, CCC);
    OneCodonShift(table, t, c, 1, ATG, ATG);
    assert VisitedCount(s, c) == 1 && VisitedCount(t, c) == 2;
    FirstShifts(table, s, c, 1);
    FirstShifts(table, t, c, 2);
  }
}
