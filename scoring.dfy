/**
 * Loop energies of the Turner nearest-neighbour model, read from a built
 * parameter table (the inline functions of energy_model.h). Energies are in
 * tenths of kcal/mol; every function is a pure case analysis over table
 * lookups.
 *
 * The logarithmic extrapolation for loops longer than MAXLOOPSIZE,
 * (int)(lxc37 * log(n / 30.)), is floating point; it is passed in as `lx`.
 */
module Scoring {
  import opened Alphabet
  import opened NdArrays
  import opened ParamTable

  /** n |-> (int)(lxc37 * log(n / 30.)), used only for n > MAXLOOPSIZE. */
  type Extrapolation = int -> int

  function Max(a: int, b: int): int { if a > b then a else b }
  function Min(a: int, b: int): int { if a > b then b else a }

  /**
   * Neighbour codes accepted by the stem scorers: a nucleotide code 0..5, or
   * any negative code for a missing neighbour (NumToNuc maps -1 to -1).
   */
  predicate IsFlankCode(x: int) { x <= 5 }

  /** A length-indexed term: the tabulated value up to 30, extrapolated beyond. */
  function LoopLength(p: Params, t: TableId, n: int, lx: Extrapolation): int
    requires p.Valid() && t in {Hairpin, Bulge, Internal} && n >= 0
  {
    if n <= MAXLOOPSIZE then p.At(t, [n]) else p.At(t, [MAXLOOPSIZE]) + lx(n)
  }

  /** TerminalAU37 for a closing pair of type > 2 (a GU, UG, AU, UA or non-pair). */
  function TerminalPenalty(p: Params, pairType: int): (r: int)
    ensures r == 0 || r == p.terminalAU
    ensures pairType <= 2 ==> r == 0
  {
    if pairType > 2 then p.terminalAU else 0
  }

  /** The Ninio asymmetry term min(MAX_NINIO, (nl - ns) * ninio37). */
  function Asymmetry(p: Params, nl: int, ns: int): (r: int)
    ensures r <= p.maxNinio && r <= (nl - ns) * p.ninio
    ensures r == p.maxNinio || r == (nl - ns) * p.ninio
  {
    if (nl - ns) * p.ninio < p.maxNinio then (nl - ns) * p.ninio else p.maxNinio
  }

  /** score_hairpin (without the SPECIAL_HP tri/tetra/hexaloop branch). */
  function ScoreHairpin(p: Params, lx: Extrapolation, i: int, j: int,
                        nuci: int, nuci1: int, nucj_1: int, nucj: int): int
    requires p.Valid()
    requires j - i - 1 >= 0
    requires j - i - 1 >= 3 ==> IsNucCode(nuci1) && IsNucCode(nucj_1)
  {
    var size := j - i - 1;
    var pairType := NumToPair(nuci, nucj);
    var si1 := NumToNuc(nuci1);
    var sj1 := NumToNuc(nucj_1);
    var energy := LoopLength(p, Hairpin, size, lx);
    if size < 3 then energy
    else energy + p.At(MismatchH, [pairType, si1, sj1])
  }

  /**
   * The flanking codes score_single_alifold indexes a table with, for the
   * loop shape (n1, n2), are nucleotide codes.
   */
  predicate SingleFlanksOk(n1: int, n2: int, nuci1: int, nucj_1: int, nucp_1: int, nucq1: int)
  {
    var nl, ns := Max(n1, n2), Min(n1, n2);
    if ns == 0 then true
    else if ns == 1 && nl == 1 then IsNucCode(nuci1) && IsNucCode(nucj_1)
    else if ns == 1 && nl == 2 then
      if n1 == 1 then IsNucCode(nuci1) && IsNucCode(nucq1) && IsNucCode(nucj_1)
      else IsNucCode(nucq1) && IsNucCode(nuci1) && IsNucCode(nucp_1)
    else IsNucCode(nuci1) && IsNucCode(nucj_1) && IsNucCode(nucp_1) && IsNucCode(nucq1)
  }

  /** Generic interior loop of nl + ns unpaired bases. */
  function GenericInterior(p: Params, lx: Extrapolation, nl: int, ns: int, pairType: int, pairType2: int,
                           si1: int, sj1: int, sp1: int, sq1: int): int
    requires p.Valid() && 0 <= ns <= nl
    requires IsPairCode(pairType) && IsPairCode(pairType2)
    requires 0 <= si1 < NUCS_NUM && 0 <= sj1 < NUCS_NUM && 0 <= sp1 < NUCS_NUM && 0 <= sq1 < NUCS_NUM
  {
    LoopLength(p, Internal, nl + ns, lx)
    + Asymmetry(p, nl, ns)
    + p.At(MismatchI, [pairType, si1, sj1]) + p.At(MismatchI, [pairType2, sq1, sp1])
  }

  /**
   * score_single_alifold: stack, bulge or interior loop between the pair
   * (i, j) of type `pairType` and the inner pair (p, q) of type `pairType2`,
   * with n1 unpaired bases on the 5' side and n2 on the 3' side.
   */
  function ScoreSingle(p: Params, lx: Extrapolation, n1: int, n2: int, pairType: int, pairType2: int,
                       nuci1: int, nucj_1: int, nucp_1: int, nucq1: int): int
    requires p.Valid() && n1 >= 0 && n2 >= 0
    requires IsPairCode(pairType) && IsPairCode(pairType2)
    requires SingleFlanksOk(n1, n2, nuci1, nucj_1, nucp_1, nucq1)
  {
    var si1, sj1, sp1, sq1 := NumToNuc(nuci1), NumToNuc(nucj_1), NumToNuc(nucp_1), NumToNuc(nucq1);
    var nl, ns := Max(n1, n2), Min(n1, n2);
    if nl == 0 then
      p.At(Stack, [pairType, pairType2])
    else if ns == 0 then
      LoopLength(p, Bulge, nl, lx)
      + if nl == 1 then p.At(Stack, [pairType, pairType2])
        else TerminalPenalty(p, pairType) + TerminalPenalty(p, pairType2)
    else if ns == 1 && nl == 1 then
      p.At(Int11, [pairType, pairType2, si1, sj1])
    else if ns == 1 && nl == 2 then
      if n1 == 1 then p.At(Int21, [pairType, pairType2, si1, sq1, sj1])
      else p.At(Int21, [pairType2, pairType, sq1, si1, sp1])
    else if ns == 1 then
      LoopLength(p, Internal, nl + 1, lx)
      + Asymmetry(p, nl, ns)
      + p.At(Mismatch1nI, [pairType, si1, sj1]) + p.At(Mismatch1nI, [pairType2, sq1, sp1])
    else if ns == 2 && nl == 2 then
      p.At(Int22, [pairType, pairType2, si1, sp1, sq1, sj1])
    else if ns == 2 && nl == 3 then
      p.At(Internal, [5]) + p.ninio
      + p.At(Mismatch23I, [pairType, si1, sj1]) + p.At(Mismatch23I, [pairType2, sq1, sp1])
    else
      GenericInterior(p, lx, nl, ns, pairType, pairType2, si1, sj1, sp1, sq1)
  }

  /** E_MLstem: one stem of a multiloop with its neighbours si1 (5') and sj1 (3'). */
  function MLStem(p: Params, pairType: int, si1: int, sj1: int): int
    requires p.Valid() && IsPairCode(pairType) && si1 < NUCS_NUM && sj1 < NUCS_NUM
  {
    (if si1 >= 0 && sj1 >= 0 then p.At(MismatchM, [pairType, si1, sj1])
     else if si1 >= 0 then p.At(Dangle5, [pairType, si1])
     else if sj1 >= 0 then p.At(Dangle3, [pairType, sj1])
     else 0)
    + TerminalPenalty(p, pairType)
    + p.mlIntern
  }

  /** score_multi: the pair (i, j) closing a multiloop, seen from inside as (j, i). */
  function ScoreMulti(p: Params, i: int, j: int, nuci: int, nuci1: int, nucj_1: int, nucj: int, len: int): int
    requires p.Valid() && IsFlankCode(nuci1) && IsFlankCode(nucj_1)
  {
    var tt := NumToPair(nucj, nuci);
    var si1 := NumToNuc(nuci1);
    var sj1 := NumToNuc(nucj_1);
    MLStem(p, tt, sj1, si1) + p.mlClosing
  }

  /** score_M1: a branch (i, k) inside a multiloop. */
  function ScoreM1(p: Params, i: int, j: int, k: int, nuci_1: int, nuci: int, nuck: int, nuck1: int, len: int): int
    requires p.Valid() && IsFlankCode(nuci_1) && IsFlankCode(nuck1)
  {
    var tt := NumToPair(nuci, nuck);
    var sp1 := NumToNuc(nuci_1);
    var sq1 := NumToNuc(nuck1);
    MLStem(p, tt, sp1, sq1)
  }

  /** score_external_paired: a stem (i, j) in the exterior loop. */
  function ScoreExternalPaired(p: Params, i: int, j: int, nuci_1: int, nuci: int, nucj: int, nucj1: int, len: int): int
    requires p.Valid() && IsFlankCode(nuci_1) && IsFlankCode(nucj1)
  {
    var pairType := NumToPair(nuci, nucj);
    var si1 := NumToNuc(nuci_1);
    var sj1 := NumToNuc(nucj1);
    (if si1 >= 0 && sj1 >= 0 then p.At(MismatchExt, [pairType, si1, sj1])
     else if si1 >= 0 then p.At(Dangle5, [pairType, si1])
     else if sj1 >= 0 then p.At(Dangle3, [pairType, sj1])
     else 0)
    + TerminalPenalty(p, pairType)
  }

  /** score_multi_unpaired: unpaired bases in a multiloop cost nothing here. */
  function ScoreMultiUnpaired(i: int, j: int): (r: int)
    ensures r == 0
  {
    0
  }

  /**
   * score_external_unpaired: unpaired bases in the exterior loop cost nothing
   * here. The source has this second, identical function; it is kept as written.
   */
  function ScoreExternalUnpaired(i: int, j: int): (r: int)
    ensures r == 0
  {
    0
  }

  /** The shapes of single loop, by the two unpaired-base counts. */
  datatype LoopKind =
    | StackLoop | Bulge1 | BulgeN
    | Int1x1 | Int2x1 | Int1xn | Int2x2 | Int2x3 | GenericLoop

  /** The shape of a single loop with n1 and n2 unpaired bases, stated on the pair of counts. */
  function Kind(n1: nat, n2: nat): LoopKind
  {
    if n1 == 0 && n2 == 0 then StackLoop
    else if n1 == 0 || n2 == 0 then (if n1 + n2 == 1 then Bulge1 else BulgeN)
    else if n1 == 1 && n2 == 1 then Int1x1
    else if (n1, n2) == (1, 2) || (n1, n2) == (2, 1) then Int2x1
    else if n1 == 1 || n2 == 1 then Int1xn
    else if n1 == 2 && n2 == 2 then Int2x2
    else if (n1, n2) == (2, 3) || (n1, n2) == (3, 2) then Int2x3
    else GenericLoop
  }

  /** Swapping the sides of a loop does not change its shape. */
  lemma KindSymmetric(n1: nat, n2: nat)
    ensures Kind(n1, n2) == Kind(n2, n1)
  {
  }

  /**
   * Apart from the 2x1 loop, whose table entry depends on which side has
   * the single base, the energy depends on the two counts only through
   * their maximum and minimum.
   */
  lemma SingleCountsOnly(p: Params, lx: Extrapolation, n1: nat, n2: nat, pairType: int, pairType2: int,
                         nuci1: int, nucj_1: int, nucp_1: int, nucq1: int)
    requires p.Valid() && IsPairCode(pairType) && IsPairCode(pairType2)
    requires SingleFlanksOk(n1, n2, nuci1, nucj_1, nucp_1, nucq1)
    requires Kind(n1, n2) != Int2x1
    ensures SingleFlanksOk(n2, n1, nuci1, nucj_1, nucp_1, nucq1)
    ensures ScoreSingle(p, lx, n1, n2, pairType, pairType2, nuci1, nucj_1, nucp_1, nucq1)
         == ScoreSingle(p, lx, n2, n1, pairType, pairType2, nuci1, nucj_1, nucp_1, nucq1)
  {
  }

  /** With no unpaired base the two pairs are scored as a stack. */
  lemma InteriorStack(p: Params, lx: Extrapolation, n1: nat, n2: nat, pairType: int, pairType2: int,
                      nuci1: int, nucj_1: int, nucp_1: int, nucq1: int)
    requires p.Valid() && IsPairCode(pairType) && IsPairCode(pairType2)
    requires SingleFlanksOk(n1, n2, nuci1, nucj_1, nucp_1, nucq1)
    requires Kind(n1, n2) == StackLoop
    ensures ScoreSingle(p, lx, n1, n2, pairType, pairType2, nuci1, nucj_1, nucp_1, nucq1)
         == p.At(Stack, [pairType, pairType2])
  {
  }

  /** A 1x1 loop reads the 1x1 table at its two flanking bases. */
  lemma InteriorOneByOne(p: Params, lx: Extrapolation, n1: nat, n2: nat, pairType: int, pairType2: int,
                         nuci1: int, nucj_1: int, nucp_1: int, nucq1: int)
    requires p.Valid() && IsPairCode(pairType) && IsPairCode(pairType2)
    requires SingleFlanksOk(n1, n2, nuci1, nucj_1, nucp_1, nucq1)
    requires Kind(n1, n2) == Int1x1
    ensures ScoreSingle(p, lx, n1, n2, pairType, pairType2, nuci1, nucj_1, nucp_1, nucq1)
         == p.At(Int11, [pairType, pairType2, NumToNuc(nuci1), NumToNuc(nucj_1)])
  {
  }

  /** A 2x1 loop reads the 2x1 table, with the pairs swapped when the single base is on the 3' side. */
  lemma InteriorTwoByOne(p: Params, lx: Extrapolation, n1: nat, n2: nat, pairType: int, pairType2: int,
                         nuci1: int, nucj_1: int, nucp_1: int, nucq1: int)
    requires p.Valid() && IsPairCode(pairType) && IsPairCode(pairType2)
    requires SingleFlanksOk(n1, n2, nuci1, nucj_1, nucp_1, nucq1)
    requires Kind(n1, n2) == Int2x1
    ensures var e := ScoreSingle(p, lx, n1, n2, pairType, pairType2, nuci1, nucj_1, nucp_1, nucq1);
      var si1, sj1, sp1, sq1 := NumToNuc(nuci1), NumToNuc(nucj_1), NumToNuc(nucp_1), NumToNuc(nucq1);
      && (n1 == 1 ==> e == p.At(Int21, [pairType, pairType2, si1, sq1, sj1]))
      && (n1 == 2 ==> e == p.At(Int21, [pairType2, pairType, sq1, si1, sp1]))
  {
  }

  /**
   * A 1xn loop (n >= 3) pays the interior length term for n + 1 bases, the
   * asymmetry term capped at MAX_NINIO, and a 1xn mismatch on each pair.
   */
  lemma InteriorOneByN(p: Params, lx: Extrapolation, n1: nat, n2: nat, pairType: int, pairType2: int,
                       nuci1: int, nucj_1: int, nucp_1: int, nucq1: int)
    requires p.Valid() && IsPairCode(pairType) && IsPairCode(pairType2)
    requires SingleFlanksOk(n1, n2, nuci1, nucj_1, nucp_1, nucq1)
    requires Kind(n1, n2) == Int1xn
    ensures Min(n1, n2) == 1 && Max(n1, n2) >= 3
    ensures Asymmetry(p, Max(n1, n2), 1) <= p.maxNinio
    ensures var si1, sj1, sp1, sq1 := NumToNuc(nuci1), NumToNuc(nucj_1), NumToNuc(nucp_1), NumToNuc(nucq1);
      ScoreSingle(p, lx, n1, n2, pairType, pairType2, nuci1, nucj_1, nucp_1, nucq1)
      == LoopLength(p, Internal, Max(n1, n2) + 1, lx) + Asymmetry(p, Max(n1, n2), 1)
         + p.At(Mismatch1nI, [pairType, si1, sj1]) + p.At(Mismatch1nI, [pairType2, sq1, sp1])
  {
  }

  /** A 2x2 loop reads the 2x2 table at the pair types and the four inner flanking bases. */
  lemma InteriorTwoByTwo(p: Params, lx: Extrapolation, n1: nat, n2: nat, pairType: int, pairType2: int,
                         nuci1: int, nucj_1: int, nucp_1: int, nucq1: int)
    requires p.Valid() && IsPairCode(pairType) && IsPairCode(pairType2)
    requires SingleFlanksOk(n1, n2, nuci1, nucj_1, nucp_1, nucq1)
    requires Kind(n1, n2) == Int2x2
    ensures ScoreSingle(p, lx, n1, n2, pairType, pairType2, nuci1, nucj_1, nucp_1, nucq1)
         == p.At(Int22, [pairType, pairType2, NumToNuc(nuci1), NumToNuc(nucp_1), NumToNuc(nucq1), NumToNuc(nucj_1)])
  {
  }

  /** A 2x3 loop pays the size-5 interior term, one ninio step and the 2x3 mismatches. */
  lemma InteriorTwoByThree(p: Params, lx: Extrapolation, n1: nat, n2: nat, pairType: int, pairType2: int,
                           nuci1: int, nucj_1: int, nucp_1: int, nucq1: int)
    requires p.Valid() && IsPairCode(pairType) && IsPairCode(pairType2)
    requires SingleFlanksOk(n1, n2, nuci1, nucj_1, nucp_1, nucq1)
    requires Kind(n1, n2) == Int2x3
    ensures var e := ScoreSingle(p, lx, n1, n2, pairType, pairType2, nuci1, nucj_1, nucp_1, nucq1);
      var si1, sj1, sp1, sq1 := NumToNuc(nuci1), NumToNuc(nucj_1), NumToNuc(nucp_1), NumToNuc(nucq1);
      e == p.At(Internal, [5]) + p.ninio
           + p.At(Mismatch23I, [pairType, si1, sj1]) + p.At(Mismatch23I, [pairType2, sq1, sp1])
  {
  }

  /**
   * Every interior loop with both sides of at least two bases, other than
   * 2x2 and 2x3, is scored by the generic formula, including 2xn for n >= 4
   * (the ns == 2 branch falls through).
   */
  lemma SingleFallThrough(p: Params, lx: Extrapolation, n1: nat, n2: nat, pairType: int, pairType2: int,
                          nuci1: int, nucj_1: int, nucp_1: int, nucq1: int)
    requires p.Valid() && IsPairCode(pairType) && IsPairCode(pairType2)
    requires SingleFlanksOk(n1, n2, nuci1, nucj_1, nucp_1, nucq1)
    requires Kind(n1, n2) == GenericLoop
    ensures Min(n1, n2) >= 2 && !(Min(n1, n2) == 2 && Max(n1, n2) <= 3)
    ensures ScoreSingle(p, lx, n1, n2, pairType, pairType2, nuci1, nucj_1, nucp_1, nucq1)
         == GenericInterior(p, lx, Max(n1, n2), Min(n1, n2), pairType, pairType2,
                            NumToNuc(nuci1), NumToNuc(nucj_1), NumToNuc(nucp_1), NumToNuc(nucq1))
  {
  }

  /**
   * A bulge of one base is scored as the stack of its two pairs plus the
   * bulge length term; longer bulges pay TerminalAU37 for each AU/GU pair.
   */
  lemma BulgeCases(p: Params, lx: Extrapolation, n1: nat, n2: nat, pairType: int, pairType2: int,
                   nuci1: int, nucj_1: int, nucp_1: int, nucq1: int)
    requires p.Valid() && IsPairCode(pairType) && IsPairCode(pairType2)
    requires Kind(n1, n2) == Bulge1 || Kind(n1, n2) == BulgeN
    ensures SingleFlanksOk(n1, n2, nuci1, nucj_1, nucp_1, nucq1)
    ensures Kind(n1, n2) == Bulge1 ==>
      ScoreSingle(p, lx, n1, n2, pairType, pairType2, nuci1, nucj_1, nucp_1, nucq1)
      == p.At(Bulge, [1]) + ScoreSingle(p, lx, 0, 0, pairType, pairType2, nuci1, nucj_1, nucp_1, nucq1)
    ensures Kind(n1, n2) == BulgeN ==>
      ScoreSingle(p, lx, n1, n2, pairType, pairType2, nuci1, nucj_1, nucp_1, nucq1)
      == LoopLength(p, Bulge, n1 + n2, lx) + TerminalPenalty(p, pairType) + TerminalPenalty(p, pairType2)
  {
  }

  /**
   * Reading a loop from its inner pair: the bases swap sides and the two
   * pairs swap roles. Every shape whose energy is not an explicit
   * orientation-dependent table entry (stack, 1-base bulge, 1x1, 2x2) gets
   * the same energy both ways; in particular the two branches of the 2x1
   * case are each other's mirror image.
   */
  lemma SingleMirror(p: Params, lx: Extrapolation, n1: nat, n2: nat, pairType: int, pairType2: int,
                     nuci1: int, nucj_1: int, nucp_1: int, nucq1: int)
    requires p.Valid() && IsPairCode(pairType) && IsPairCode(pairType2)
    requires SingleFlanksOk(n1, n2, nuci1, nucj_1, nucp_1, nucq1)
    requires Kind(n1, n2) !in {StackLoop, Bulge1, Int1x1, Int2x2}
    ensures SingleFlanksOk(n2, n1, nucq1, nucp_1, nucj_1, nuci1)
    ensures ScoreSingle(p, lx, n1, n2, pairType, pairType2, nuci1, nucj_1, nucp_1, nucq1)
         == ScoreSingle(p, lx, n2, n1, pairType2, pairType, nucq1, nucp_1, nucj_1, nuci1)
  {
  }

  /** The loop length term does not depend on the extrapolation up to MAXLOOPSIZE. */
  lemma HairpinTabulated(p: Params, lx1: Extrapolation, lx2: Extrapolation, i: int, j: int,
                         nuci: int, nuci1: int, nucj_1: int, nucj: int)
    requires p.Valid() && 0 <= j - i - 1 <= MAXLOOPSIZE
    requires j - i - 1 >= 3 ==> IsNucCode(nuci1) && IsNucCode(nucj_1)
    ensures ScoreHairpin(p, lx1, i, j, nuci, nuci1, nucj_1, nucj)
         == ScoreHairpin(p, lx2, i, j, nuci, nuci1, nucj_1, nucj)
  {
  }

  /**
   * Hairpins of fewer than three unpaired bases pay only the length term,
   * whatever their bases; longer ones add the terminal mismatch of the
   * closing pair with its two inner neighbours.
   */
  lemma HairpinCases(p: Params, lx: Extrapolation, i: int, j: int,
                     nuci: int, nuci1: int, nucj_1: int, nucj: int)
    requires p.Valid() && j - i - 1 >= 0
    requires j - i - 1 >= 3 ==> IsNucCode(nuci1) && IsNucCode(nucj_1)
    ensures j - i - 1 < 3 ==>
      ScoreHairpin(p, lx, i, j, nuci, nuci1, nucj_1, nucj) == p.At(Hairpin, [j - i - 1])
    ensures j - i - 1 >= 3 ==>
      ScoreHairpin(p, lx, i, j, nuci, nuci1, nucj_1, nucj)
      == LoopLength(p, Hairpin, j - i - 1, lx)
         + p.At(MismatchH, [NumToPair(nuci, nucj), NumToNuc(nuci1), NumToNuc(nucj_1)])
  {
  }

  /**
   * Which neighbour table a multiloop stem reads: the mismatch when both
   * neighbours exist, a single dangle when one does, nothing when neither.
   */
  lemma MLStemNeighbours(p: Params, pairType: int, si1: int, sj1: int)
    requires p.Valid() && IsPairCode(pairType) && si1 < NUCS_NUM && sj1 < NUCS_NUM
    ensures var rest := MLStem(p, pairType, si1, sj1) - TerminalPenalty(p, pairType) - p.mlIntern;
      && (si1 >= 0 && sj1 >= 0 ==> rest == p.At(MismatchM, [pairType, si1, sj1]))
      && (si1 >= 0 && sj1 < 0 ==> rest == p.At(Dangle5, [pairType, si1]))
      && (si1 < 0 && sj1 >= 0 ==> rest == p.At(Dangle3, [pairType, sj1]))
      && (si1 < 0 && sj1 < 0 ==> rest == 0)
  {
  }

  /** The pair closing a multiloop is scored as a branch (j, i) read from inside, plus ML_closing37. */
  lemma MultiIsReversedBranch(p: Params, i: int, j: int, nuci: int, nuci1: int, nucj_1: int, nucj: int, len: int)
    requires p.Valid() && IsFlankCode(nuci1) && IsFlankCode(nucj_1)
    ensures ScoreMulti(p, i, j, nuci, nuci1, nucj_1, nucj, len)
         == ScoreM1(p, j, i, i, nucj_1, nucj, nuci, nuci1, len) + p.mlClosing
  {
  }

  /** The parameter table with the multiloop mismatches replaced by the exterior ones. */
  function WithExteriorMismatch(p: Params): (q: Params)
    requires p.Valid()
    ensures q.Valid()
  {
    p.(tables := p.tables[MismatchM := p.tables[MismatchExt]])
  }

  /**
   * An exterior stem is scored like a multiloop stem, with mismatchExt37 in
   * place of mismatchM37 and without ML_intern37.
   */
  lemma ExteriorIsStemWithoutIntern(p: Params, i: int, j: int, nuci_1: int, nuci: int, nucj: int, nucj1: int, len: int)
    requires p.Valid() && IsFlankCode(nuci_1) && IsFlankCode(nucj1)
    ensures ScoreExternalPaired(p, i, j, nuci_1, nuci, nucj, nucj1, len) + p.mlIntern
         == MLStem(WithExteriorMismatch(p), NumToPair(nuci, nucj), NumToNuc(nuci_1), NumToNuc(nucj1))
  {
  }

  /** Only AU, UA, GU, UG and non-pairs (codes 3..7) pay the terminal AU penalty. */
  lemma TerminalPenaltyPairs(p: Params, x: int, y: int)
    ensures TerminalPenalty(p, NumToPair(x, y)) == 0 <==> ((x, y) == (1, 2) || (x, y) == (2, 1) || p.terminalAU == 0)
  {
  }
}
