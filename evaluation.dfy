// analyze_segments in dna.c: a perfect-match scan over the candidates, then
// a scoring pass. The text the C code formats into its output buffer is
// modelled as a sequence of records, one per output line, appended in order.

module Evaluation {
  import opened Codons
  import opened Scoring

  /**
   * One line of the report: "Candidate number %d is a perfect match" or
   * "Candidate number %d matches with a score of %d". Candidates are
   * numbered from 1.
   */
  datatype Line = PerfectMatch(candidate: nat) | Scored(candidate: nat, score: int)

  /**
   * The lines of the perfect-match scan (dna.c:242-249): one for each
   * candidate equal to the sample, in input order.
   */
  function PerfectMatches(sample: string, candidates: seq<string>): (r: seq<Line>)
    ensures forall l :: l in r ==> l.PerfectMatch? && 1 <= l.candidate <= |candidates| && candidates[l.candidate - 1] == sample
    ensures forall k :: 0 <= k < |candidates| && candidates[k] == sample ==> PerfectMatch(k + 1) in r
    ensures forall a, b :: 0 <= a < b < |r| ==> r[a].candidate < r[b].candidate
  {
    if candidates == [] then []
    else
      var n := |candidates|;
      var prev := PerfectMatches(sample, candidates[..n - 1]);
      assert forall k :: 0 <= k < n - 1 ==> candidates[..n - 1][k] == candidates[k];
      if candidates[n - 1] == sample then prev + [PerfectMatch(n)] else prev
  }

  /** The perfect-match scan reports nothing exactly when no candidate equals the sample. */
  lemma NoPerfectMatches(sample: string, candidates: seq<string>)
    ensures PerfectMatches(sample, candidates) == [] <==> sample !in candidates
  {
    if sample in candidates {
      var k :| 0 <= k < |candidates| && candidates[k] == sample;
      assert PerfectMatch(k + 1) in PerfectMatches(sample, candidates);
    }
  }

  /** calculate_score can run against every candidate. */
  predicate AllScoreDefined(table: Table, sample: string, candidates: seq<string>)
  {
    forall k :: 0 <= k < |candidates| ==> ScoreDefined(table, sample, candidates[k])
  }

  /**
   * The lines of the scoring pass (dna.c:258-268): one per candidate, in
   * input order, with the candidate's calculate_score result.
   */
  function ScoredLines(table: Table, sample: string, candidates: seq<string>): (r: seq<Line>)
    requires table.Valid() && AllScoreDefined(table, sample, candidates)
    ensures |r| == |candidates|
    ensures forall k :: 0 <= k < |candidates| ==> r[k] == Scored(k + 1, BestScore(table, sample, candidates[k]))
  {
    if candidates == [] then []
    else
      var n := |candidates|;
      ScoredLines(table, sample, candidates[..n - 1]) + [Scored(n, BestScore(table, sample, candidates[n - 1]))]
  }

  /** Every score the scoring pass reports lies within 0 and 10 per whole codon of the sample. */
  lemma ScoredLinesBounded(table: Table, sample: string, candidates: seq<string>)
    requires table.Valid() && AllScoreDefined(table, sample, candidates)
    ensures forall l :: l in ScoredLines(table, sample, candidates) ==>
              l.Scored? && 0 <= l.score <= 10 * CodonCount(sample)
  {
    var r := ScoredLines(table, sample, candidates);
    forall l | l in r
      ensures l.Scored? && 0 <= l.score <= 10 * CodonCount(sample)
    {
      var k :| 0 <= k < |r| && r[k] == l;
    }
  }

  /** The scoring pass: calculate_score against each candidate, appended to the output in order. */
  method ScoreCandidates(table: Table, sample: string, candidates: seq<string>, output: seq<Line>) returns (report: seq<Line>)
    requires table.Valid() && AllScoreDefined(table, sample, candidates)
    ensures report == output + ScoredLines(table, sample, candidates)
  {
    report := output;
    for i := 0 to |candidates|
      invariant report == output + ScoredLines(table, sample, candidates[..i])
    {
      var score := CalculateScore(table, sample, candidates[i]);
      assert candidates[..i + 1][..i] == candidates[..i];
      report := report + [Scored(i + 1, score)];
    }
    assert candidates[..|candidates|] == candidates;
  }

  /**
   * analyze_segments as written: has_perfect_match is bumped on every
   * iteration of the scan (dna.c:250), not only on a match, so with any
   * candidate at all the function returns at dna.c:253-255 and the scoring
   * pass runs only over an empty candidate list. The report is therefore
   * the perfect-match lines and nothing else.
   */
  method AnalyzeSegments(table: Table, sample: string, candidates: seq<string>, output: seq<Line>) returns (report: seq<Line>)
    requires table.Valid()
    ensures report == output + PerfectMatches(sample, candidates)
  {
    report := output;
    var hasPerfectMatch := 0;
    var i := 0;
    while i < |candidates|
      invariant 0 <= i <= |candidates|
      invariant hasPerfectMatch == i
      invariant report == output + PerfectMatches(sample, candidates[..i])
    {
      assert candidates[..i + 1][..i] == candidates[..i];
      if sample == candidates[i] {
        report := report + [PerfectMatch(i + 1)];
      }
      hasPerfectMatch := hasPerfectMatch + 1;
      i := i + 1;
    }
    assert candidates[..i] == candidates;
    if hasPerfectMatch > 0 {
      return;
    }
    report := ScoreCandidates(table, sample, candidates, report);
  }

  // ---------------------------------------------------------------------
  // The behaviour the header comment of analyze_segments describes
  // (dna.c:208-214): report the perfect matches if there are any, and
  // score the candidates only when there are none.

  /** The intended report: the perfect matches, or, when there are none, a score for every candidate. */
  function Report(table: Table, sample: string, candidates: seq<string>): (r: seq<Line>)
    requires table.Valid() && (sample !in candidates ==> AllScoreDefined(table, sample, candidates))
    ensures sample in candidates ==> r != [] && forall l :: l in r ==> l.PerfectMatch?
    ensures sample !in candidates ==> |r| == |candidates| && forall l :: l in r ==> l.Scored?
  {
    NoPerfectMatches(sample, candidates);
    if sample in candidates then PerfectMatches(sample, candidates)
    else
      ScoredLinesBounded(table, sample, candidates);
      ScoredLines(table, sample, candidates)
  }

  /**
   * analyze_segments with the counter bumped only on a match: the scoring
   * pass runs exactly when no candidate equals the sample.
   */
  method AnalyzeSegmentsCorrected(table: Table, sample: string, candidates: seq<string>, output: seq<Line>)
    returns (report: seq<Line>)
    requires table.Valid() && (sample !in candidates ==> AllScoreDefined(table, sample, candidates))
    ensures report == output + Report(table, sample, candidates)
  {
    report := output;
    var hasPerfectMatch := 0;
    var i := 0;
    while i < |candidates|
      invariant 0 <= i <= |candidates|
      invariant hasPerfectMatch == |PerfectMatches(sample, candidates[..i])|
      invariant report == output + PerfectMatches(sample, candidates[..i])
    {
      assert candidates[..i + 1][..i] == candidates[..i];
      if sample == candidates[i] {
        report := report + [PerfectMatch(i + 1)];
        hasPerfectMatch := hasPerfectMatch + 1;
      }
      i := i + 1;
    }
    assert candidates[..i] == candidates;
    NoPerfectMatches(sample, candidates);
    if hasPerfectMatch > 0 {
      return;
    }
    report := ScoreCandidates(table, sample, candidates, report);
  }

  /** As written and as intended agree whenever some candidate is a perfect match. */
  lemma AgreeOnPerfectMatch(table: Table, sample: string, candidates: seq<string>)
    requires table.Valid() && sample in candidates
    ensures Report(table, sample, candidates) == PerfectMatches(sample, candidates)
  {
  }

  /**
   * With one candidate that does not match, the code as written reports
   * nothing, while the intended report scores that candidate.
   */
  lemma CounterSkipsScoring(table: Table)
    requires table.Valid()
    ensures "ATG" !in ["CCC"] && AllScoreDefined(table, "ATG", ["CCC"])
    ensures PerfectMatches("ATG", ["CCC"]) == []
    ensures Report(table, "ATG", ["CCC"]) == [Scored(1, 0)]
  {
    var cs: seq<string> := ["CCC"];
    assert cs[0] == "CCC" && "ATG" != "CCC";
    assert VisitedCount("ATG", "CCC") == 0;
    assert PerfectMatches("ATG", cs[..0]) == [];
  }
}
