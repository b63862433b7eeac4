// The codon table and the two linear searches over it (get_codon_index and
// getAmino in dna.c). The table's literal contents live in a header that is
// not part of this model, so the table is a parameter: 64 three-letter codes
// and, at the same positions, the names of their amino acids.

module Codons {

  datatype Option<T> = None | Some(value: T)

  /** NUMBER_OF_CODONS; getAmino spells the same bound as the literal 64. */
  const NumberOfCodons := 64

  /**
   * Three nucleotide letters. Both searches compare exactly three
   * characters (strncmp with 3, or the three letters one by one), so a
   * codon is its three letters.
   */
  datatype Codon = Codon(first: char, second: char, third: char)
  {
    /** The letter at position j of the codon. */
    function Letter(j: int): char
      requires 0 <= j < 3
    {
      if j == 0 then first else if j == 1 then second else third
    }
  }

  /** codon_codes[i] is translated to codon_names[i]. */
  datatype Table = Table(codes: seq<Codon>, names: seq<string>)
  {
    predicate Valid()
    {
      |codes| == NumberOfCodons && |names| == NumberOfCodons
    }
  }

  /** The codon has an entry in the table, so getAmino does not return NULL for it. */
  predicate Known(table: Table, codon: Codon)
  {
    codon in table.codes
  }

  /**
   * The first index at or after `from` whose code equals `codon`, or -1.
   * Both searches of dna.c are this first-match search started at 0.
   */
  function FindFrom(codes: seq<Codon>, codon: Codon, from: nat): (r: int)
    requires from <= |codes|
    ensures r == -1 || (from <= r < |codes| && codes[r] == codon)
    decreases |codes| - from
  {
    if from == |codes| then -1
    else if codes[from] == codon then from
    else FindFrom(codes, codon, from + 1)
  }

  /** FindFrom fails only when no entry from `from` on matches, and otherwise finds the first match. */
  lemma {:induction false} FindFromIsFirst(codes: seq<Codon>, codon: Codon, from: nat)
    requires from <= |codes|
    ensures FindFrom(codes, codon, from) == -1 <==> forall j :: from <= j < |codes| ==> codes[j] != codon
    ensures forall j :: from <= j < FindFrom(codes, codon, from) ==> codes[j] != codon
    decreases |codes| - from
  {
    if from < |codes| && codes[from] != codon {
      FindFromIsFirst(codes, codon, from + 1);
    }
  }

  /** The position of the first table entry for `codon`, -1 when there is none. */
  function IndexOf(table: Table, codon: Codon): (r: int)
    ensures -1 <= r < |table.codes|
    ensures r != -1 ==> table.codes[r] == codon
  {
    FindFrom(table.codes, codon, 0)
  }

  /** IndexOf is -1 exactly for unknown codons, and no earlier entry matches the one it finds. */
  lemma IndexOfIsFirst(table: Table, codon: Codon)
    ensures IndexOf(table, codon) == -1 <==> !Known(table, codon)
    ensures forall j :: 0 <= j < IndexOf(table, codon) ==> table.codes[j] != codon
  {
    FindFromIsFirst(table.codes, codon, 0);
  }

  /** The amino acid getAmino reports for `codon`; None stands for its NULL. */
  function AminoOf(table: Table, codon: Codon): Option<string>
    requires table.Valid()
  {
    var i := IndexOf(table, codon);
    if i == -1 then None else Some(table.names[i])
  }

  /** getAmino returns NULL exactly for unknown codons, and otherwise the name paired with the codon. */
  lemma AminoOfKnown(table: Table, codon: Codon)
    requires table.Valid()
    ensures AminoOf(table, codon).None? <==> !Known(table, codon)
    ensures AminoOf(table, codon).Some? ==>
              exists i :: 0 <= i < |table.codes| && table.codes[i] == codon && AminoOf(table, codon).value == table.names[i]
  {
    IndexOfIsFirst(table, codon);
  }

  /**
   * get_codon_index: scans the table from the start and returns the first
   * index whose three letters equal the codon's, or -1.
   */
  method GetCodonIndex(table: Table, codon: Codon) returns (index: int)
    requires table.Valid()
    ensures index == IndexOf(table, codon)
  {
    IndexOfIsFirst(table, codon);
    var i := 0;
    while i < NumberOfCodons
      invariant 0 <= i <= NumberOfCodons
      invariant forall j :: 0 <= j < i ==> table.codes[j] != codon
    {
      var code := table.codes[i];
      if code.first == codon.first && code.second == codon.second && code.third == codon.third {
        return i;
      }
      i := i + 1;
    }
    return -1;
  }

  /**
   * getAmino: the name at the first table entry whose code is the codon's
   * three letters; None (NULL) when no entry matches.
   */
  method GetAmino(table: Table, codon: Codon) returns (amino: Option<string>)
    requires table.Valid()
    ensures amino == AminoOf(table, codon)
  {
    IndexOfIsFirst(table, codon);
    for i := 0 to 64
      invariant forall j :: 0 <= j < i ==> table.codes[j] != codon
    {
      if codon == table.codes[i] {
        return Some(table.names[i]);
      }
    }
    return None;
  }
}
