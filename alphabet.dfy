/** Shared stock datatype for partial results. */
module Options {
  datatype Option<T> = None | Some(value: T)
}

/**
 * Constants and the integer encodings of nucleotides and base pairs
 * (the macros of energy_model.h and the alphabets of energy_model.cpp).
 *
 * Two nucleotide alphabets are in play and are kept apart on purpose:
 *  - the loader's alphabet "ACGUN": a key letter becomes its position here;
 *  - the scorers' alphabet "NACGU": NumToNuc turns a loader code into a
 *    position here before a table is indexed.
 */
module Alphabet {

  /** Sentinel stored in every freshly created multi-dimensional table cell. */
  const VIE_INF: int := 10000000
  /** Size of the nucleotide dimension of every table. */
  const NUCS_NUM: nat := 5
  /** Largest pair code; pair dimensions have NBPAIRS + 1 slots. */
  const NBPAIRS: nat := 7
  /** Largest tabulated loop length; longer loops are extrapolated. */
  const MAXLOOPSIZE: nat := 30

  /** The loader's nucleotide alphabet: a key letter maps to its position. */
  const C_NUCS: string := "ACGUN"
  /** The alphabet the scorers index with, after NumToNuc. */
  const V_NUCS: string := "NACGU"
  /** Two-letter names of the pair codes 0..7, as keys spell them. */
  const PAIRS: seq<string> := ["NP", "CG", "GC", "GU", "UG", "AU", "UA", "NN"]

  /** A nucleotide code the scorers accept as a table index after NumToNuc. */
  predicate IsNucCode(x: int) { 0 <= x <= 5 }

  /** A pair code that can index a pair dimension. */
  predicate IsPairCode(x: int) { 0 <= x <= NBPAIRS }

  /** NUM_TO_NUC: loader code to scorer code; -1 ("no base") is kept. */
  function NumToNuc(x: int): (r: int)
    ensures 0 <= x < NUCS_NUM ==> 0 <= r < NUCS_NUM
    ensures r < 0 <==> x < 0
    ensures x == -1 ==> r == -1
    ensures x == 4 || x == 5 ==> r == 0
    ensures 0 <= x < 4 ==> r == x + 1
  {
    if x == -1 then -1 else if x == 4 || x == 5 then 0 else x + 1
  }

  /** NUM_TO_PAIR over loader codes (A=0, C=1, G=2, U=3); ordered, 7 = no pair. */
  function NumToPair(x: int, y: int): (r: int)
    ensures 1 <= r <= NBPAIRS
  {
    if x == 0 then (if y == 3 then 5 else 7)
    else if x == 1 then (if y == 2 then 1 else 7)
    else if x == 2 then (if y == 1 then 2 else if y == 3 then 3 else 7)
    else if x == 3 then (if y == 2 then 4 else if y == 0 then 6 else 7)
    else 7
  }

  /** NUC_TO_PAIR over scorer codes (N=0, A=1, C=2, G=3, U=4); 0 = no pair. */
  function NucToPair(x: int, y: int): (r: int)
    ensures 0 <= r < NBPAIRS
  {
    if x == 1 then (if y == 4 then 5 else 0)
    else if x == 2 then (if y == 3 then 1 else 0)
    else if x == 3 then (if y == 2 then 2 else if y == 4 then 3 else 0)
    else if x == 4 then (if y == 3 then 4 else if y == 1 then 6 else 0)
    else 0
  }

  /** The ordered code pairs that NumToPair recognises as a base pair. */
  predicate IsCanonical(x: int, y: int)
  {
    (x, y) == (1, 2) || (x, y) == (2, 1) || (x, y) == (2, 3) ||
    (x, y) == (3, 2) || (x, y) == (0, 3) || (x, y) == (3, 0)
  }

  /** Position of c in s, or -1 when c does not occur (std::string::find on a char). */
  function IndexOf(s: string, c: char): (r: int)
    ensures -1 <= r < |s|
    ensures r == -1 <==> c !in s
    ensures r >= 0 ==> s[r] == c && c !in s[..r]
  {
    if |s| == 0 then -1
    else if s[0] == c then 0
    else
      var r := IndexOf(s[1..], c);
      assert s[1..][..if r < 0 then 0 else r] == s[1..1 + (if r < 0 then 0 else r)];
      if r == -1 then -1 else r + 1
  }

  /** The loader's code for a key letter: its position in "ACGUN", or -1. */
  function NucIndex(c: char): (r: int)
    ensures -1 <= r < NUCS_NUM
  {
    IndexOf(C_NUCS, c)
  }

  /** The six canonical ordered pairs get the codes 1..6 and nothing else does. */
  lemma NumToPairCanonical(x: int, y: int)
    ensures NumToPair(x, y) < NBPAIRS <==> IsCanonical(x, y)
    ensures (x, y) == (1, 2) ==> NumToPair(x, y) == 1
    ensures (x, y) == (2, 1) ==> NumToPair(x, y) == 2
    ensures (x, y) == (2, 3) ==> NumToPair(x, y) == 3
    ensures (x, y) == (3, 2) ==> NumToPair(x, y) == 4
    ensures (x, y) == (0, 3) ==> NumToPair(x, y) == 5
    ensures (x, y) == (3, 0) ==> NumToPair(x, y) == 6
  {
  }

  /** Pair codes are directional: swapping the bases of a pair changes its code. */
  lemma NumToPairDirectional(x: int, y: int)
    requires IsCanonical(x, y)
    ensures NumToPair(y, x) != NumToPair(x, y)
  {
  }

  /** NumToNuc relabels each loader letter with the same letter of the scorer alphabet. */
  lemma NumToNucRelabels(x: int)
    requires 0 <= x < NUCS_NUM
    ensures 0 <= NumToNuc(x) < NUCS_NUM
    ensures V_NUCS[NumToNuc(x)] == C_NUCS[x]
  {
  }

  /**
   * The two pair encodings agree once codes are converted with NumToNuc,
   * except that "no pair" is 7 for NUM_TO_PAIR and 0 for NUC_TO_PAIR.
   */
  lemma NucToPairAgrees(x: int, y: int)
    ensures NucToPair(NumToNuc(x), NumToNuc(y)) ==
            (if NumToPair(x, y) == NBPAIRS then 0 else NumToPair(x, y))
  {
  }

  /** The loader's code of each letter of "ACGUN" is its position. */
  lemma NucIndexOfLetter(k: int)
    requires 0 <= k < NUCS_NUM
    ensures NucIndex(C_NUCS[k]) == k
  {
    assert C_NUCS[k] !in C_NUCS[..k];
  }

  /**
   * Decoding a pair name letter by letter gives back its pair code, except
   * that "NP" (code 0) decodes to 7: 'P' is not a nucleotide letter.
   */
  lemma PairNameCode(p: int)
    requires IsPairCode(p)
    ensures |PAIRS[p]| == 2
    ensures NumToPair(NucIndex(PAIRS[p][0]), NucIndex(PAIRS[p][1])) == (if p == 0 then NBPAIRS else p)
  {
    assert 'P' !in C_NUCS;
    if p == 0 {
      NucIndexOfLetter(4);
    } else if p == 1 {
      NucIndexOfLetter(1); NucIndexOfLetter(2);
    } else if p == 2 {
      NucIndexOfLetter(2); NucIndexOfLetter(1);
    } else if p == 3 {
      NucIndexOfLetter(2); NucIndexOfLetter(3);
    } else if p == 4 {
      NucIndexOfLetter(3); NucIndexOfLetter(2);
    } else if p == 5 {
      NucIndexOfLetter(0); NucIndexOfLetter(3);
    } else if p == 6 {
      NucIndexOfLetter(3); NucIndexOfLetter(0);
    } else {
      NucIndexOfLetter(4);
    }
  }
}
