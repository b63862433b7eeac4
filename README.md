# DNA segment matching (dna.c), modelled in Dafny

This project models the matching core of `dna.c`. A sample DNA segment is
compared against candidate segments, and each candidate is reported as a
perfect match or given a similarity score.

- **Codons** (`codons.dfy`): the 64-entry codon table and its two first-match
  searches, `get_codon_index` and `getAmino`.
  - The table's contents live in `dna.h`, which is not part of this model, so
    the table is a parameter.
  - A code is a three-letter `Codon`, because both searches compare exactly
    three characters.
  - getAmino's NULL result is `None`.
- **Pairing** (`pairing.dfy`): `is_base_pair`, the complementary-nucleotide test
  (A/T, C/G, in either case).
- **Scoring** (`scoring.dfy`): `calculate_score`.
  - Each aligned codon pair scores by three tiers in strict priority: 10 for
    the same codon, else 5 for the same amino acid, else per position 2 for
    equal letters and 1 for an upper-case complement.
  - A window's score is the sum over the sample's whole codons.
  - The result is the largest window score over the codon-aligned offsets
    below `candidate_length - sample_length`, or 0 when there are none.
  - The loops are methods (`CalculateScore`, `ScoreAlignment`, `CompareCodons`)
    proved equal to specification functions (`BestScore`, `WindowScore`,
    `CodonScore`). The properties are proved about those functions.
- **Evaluation** (`evaluation.dfy`): `analyze_segments`.
  - The formatted output lines are `Line` records, appended in order to the
    output that was passed in.

The comparisons are case-sensitive, as in the code: `strncmp` and `strcmp` in
the exact and amino tiers, `==` for equal letters, and only upper-case pairs
in the complement rule.

## Model

| member | source | states |
|---|---|---|
| Pairing.IsBasePair | dna.c:35-60 | returns 0 or 1, and 1 exactly when the two letters, ignoring case, are {A, T} or {C, G} |
| Pairing.BasePairSymmetric | dna.c:35-60 | the result does not depend on argument order |
| Pairing.NoSelfPairing | dna.c:35-60 | a letter never pairs with itself, in either case (the header comment's "returns 1 if equal" is not what the code does) |
| Codons.FindFrom | dna.c:72-84 | the search from a position returns -1 or an in-range index holding the codon |
| Codons.FindFromIsFirst | dna.c:72-84 | the search returns -1 exactly when no entry from the start position matches, and no entry before its result matches |
| Codons.IndexOf | dna.c:72-84 | the result is -1 or an index of the table whose code is the codon |
| Codons.IndexOfIsFirst | dna.c:72-84 | the result is -1 exactly when the codon is not in the table, and is otherwise the least matching index |
| Codons.GetCodonIndex | dna.c:72-84 | the loop over the 64 entries, comparing the three letters, returns the least matching index or -1 |
| Codons.AminoOfKnown | dna.c:274-280 | getAmino's result is NULL exactly for codons not in the table, and otherwise is the name at a matching index |
| Codons.GetAmino | dna.c:274-280 | the loop over the 64 entries returns the name at the first matching entry, or NULL |
| Scoring.CodonCount | dna.c:320 | sample_length / 3 whole codons: 3n <= length < 3n + 3 |
| Scoring.NucleotideScore | dna.c:342-356 | one position scores 2 exactly when the letters are equal, and always lies in [0, 2] |
| Scoring.NucleotideTierUsesUpperCasePairs | dna.c:346-356 | for different letters, the 1-point rule holds exactly when is_base_pair holds and both letters are upper case |
| Scoring.NucleotideSum | dna.c:342-357 | the nucleotide tier over k positions lies in [0, 2k], and reaches 2k exactly when the first k letters agree |
| Scoring.CodonScore | dna.c:329-359 | a pair scores in [0, 10]; 10 exactly for the same codon; 5 for different codons with the same amino acid; otherwise at most 5, from the nucleotide tier |
| Scoring.CompareCodons | dna.c:329-359 | the tier cascade with its inner 3-letter loop computes CodonScore |
| Scoring.PairSum | dna.c:325-363 | the running window score after n codons lies in [0, 10n] |
| Scoring.PairSumPerfect | dna.c:331-332 | the first n pairs score 10n exactly when each of those codon pairs matches exactly |
| Scoring.WindowScore | dna.c:324-364 | a window score lies in [0, 10 * (sample_length / 3)] |
| Scoring.ScoreAlignment | dna.c:324-364 | the inner codon loop, with both positions advancing by 3, computes WindowScore at that offset |
| Scoring.PairSumIgnoresTrailing | dna.c:320-328 | cutting the sample back to whole codons leaves the running window score unchanged |
| Scoring.WindowScoreIgnoresTrailing | dna.c:320-328 | the sample's trailing 1 or 2 letters never affect a window score |
| Scoring.ShiftCount | dna.c:322 | the number of offsets 0, 3, 6, ... strictly below a limit |
| Scoring.ShiftScore | dna.c:324-364 | the window score at offset 3k lies in [0, 10 * (sample_length / 3)] |
| Scoring.BestPrefix | dna.c:317-368 | maxScore after n offsets lies in [0, 10 * (sample_length / 3)] |
| Scoring.BestPrefixIsMaximum | dna.c:317-368 | maxScore after n offsets is at least every window score seen; it is 0 before any and one of the seen scores after |
| Scoring.BestScore | dna.c:312-370 | calculate_score's result lies in [0, 10 * (sample_length / 3)] |
| Scoring.VisitedShifts | dna.c:322 | the visited offsets are exactly the multiples of 3 strictly below candidate_length - sample_length |
| Scoring.VisitedWindowInBounds | dna.c:322-328 | every candidate letter read at a visited offset lies below candidate_length |
| Scoring.BestScoreIsMaximum | dna.c:316-369 | the result bounds every visited window score; it is 0 when the candidate is no longer than the sample, and otherwise is attained at a visited offset |
| Scoring.OneCodonLongerScoresOffsetZero | dna.c:322 | a candidate exactly one codon longer than the sample is compared at offset 0 only |
| Scoring.CalculateScore | dna.c:312-370 | the offset loop keeping the larger score returns BestScore |
| Scoring.SelfScoreAsWritten | dna.c:322 | as written, a sample scored against itself gets 0 |
| Scoring.LastWindowSkipped | dna.c:322 | as written, sample ATG against candidate CCCATG scores at most 5, while the described range gives 10 |
| Scoring.TrailingLetterChangesScore | dna.c:322 | as written, adding a trailing letter to sample ATG changes its score against CCCATGC from 10 to at most 5 |
| Scoring.IntendedBestScore | dna.c:300-305 | the best window over every offset where the sample's whole codons fit lies in [0, 10 * (sample_length / 3)] |
| Scoring.IntendedShifts | dna.c:300-305 | the described range visits exactly the offsets whose window lies inside the candidate |
| Scoring.IntendedSelfScore | dna.c:300-305 | with the described range, a sample scored against itself gets 10 per whole codon |
| Scoring.IntendedIgnoresTrailing | dna.c:300-305 | with the described range, the sample's trailing letters never change the result |
| Evaluation.PerfectMatches | dna.c:242-249 | the scan reports exactly the 1-based numbers of the candidates equal to the sample, in ascending order |
| Evaluation.NoPerfectMatches | dna.c:242-249 | the scan reports nothing exactly when no candidate equals the sample |
| Evaluation.ScoredLines | dna.c:258-268 | the scoring pass gives one line per candidate in input order: number i + 1 with calculate_score of candidate i |
| Evaluation.ScoredLinesBounded | dna.c:258-268 | every reported score lies in [0, 10 * (sample_length / 3)] |
| Evaluation.ScoreCandidates | dna.c:258-268 | the scoring loop appends ScoredLines to the output |
| Evaluation.AnalyzeSegments | dna.c:232-271 | as written, the output gains exactly the perfect-match lines and never a score, because the counter at line 250 counts every candidate |
| Evaluation.CounterSkipsScoring | dna.c:250-255 | as written, sample ATG with the one candidate CCC reports nothing, while the described behaviour reports one score |
| Evaluation.Report | dna.c:208-214 | the described report is the perfect matches (non-empty) when the sample is among the candidates, and otherwise one score line per candidate |
| Evaluation.AnalyzeSegmentsCorrected | dna.c:242-255 | with the counter bumped only on a match, the output gains exactly Report |
| Evaluation.AgreeOnPerfectMatch | dna.c:242-255 | as written and as described agree whenever some candidate equals the sample |

## Left out

- extract_dna (dna.c:105-200) is file reading and heap-buffer growth. It is I/O, not matching logic.
- The text formatting of analyze_segments (`sprintf`/`strcat` into fixed `BUFSIZE` buffers) is left out. Each output line is a `Line` record, so buffer overflow is not modelled.
- The literal codon table of `dna.h` is not part of this model. The table is a parameter of 64 codes and 64 names, and names are compared by equality.
- Strings are `seq<char>` and pointers are indices. NUL terminators, `strlen` and pointer arithmetic are not modelled.
- Scoring.CalculateScore: requires that every codon pair it compares is identical or has both codons in the table. Otherwise the code passes getAmino's NULL to `strcmp` (dna.c:338), which is undefined behaviour with no result to model.
- Scoring.BestScore: C `int` overflow is not modelled. Every score is at most 10 * (sample_length / 3).
- The header comment of analyze_segments (dna.c:214-217) asks for only the best-scoring candidates, with different wording. The code reports every candidate, and the model follows the code.
- The header comment of is_base_pair (dna.c:31-33) says it returns 1 for equal letters. The code returns 1 only for complementary pairs, and the model follows the code.

## Findings

| source | as written | input that shows it | evidently intended | confidence | as-written member | corrected member |
|---|---|---|---|---|---|---|
| dna.c:322 | offsets run while `offset < candidate_length - sample_length`. This skips the last offset at which the sample's whole codons still fit, and lets the sample's trailing letters shrink the range | sample `ATG`, candidate `CCCATG`: only offset 0 is compared (score at most 5), though the codon at offset 3 equals the sample | keep shifting while the sample's whole codons fit, `offset + 3 * (sample_length / 3) <= candidate_length` (dna.c:300-305) | not executed | Scoring.LastWindowSkipped | Scoring.IntendedBestScore |
| dna.c:250 | `has_perfect_match` is incremented on every iteration, so any call with a candidate returns before scoring | sample `ATG`, candidates `[CCC]`: nothing is reported | count only the perfect matches, and score the candidates when there are none (dna.c:208-214) | not executed | Evaluation.CounterSkipsScoring | Evaluation.AnalyzeSegmentsCorrected |
