/**
 * Decoding one key of the energy-parameter file into the cell it sets
 * (the if-chain of parseEnergyData, decodeEnergyString and updateNucsIdx in
 * energy_model.cpp).
 *
 * The rules are tried in a fixed order; the first rule whose prefix occurs
 * ANYWHERE in the key wins. The winning rule strips as many characters from
 * the FRONT of the key as its prefix has, removes every '_' from what is
 * left, and reads the remainder either as a decimal length (std::stoi) or
 * letter by letter as loader codes ("ACGUN" positions) in a ten-slot buffer.
 *
 * The source has undefined behaviour on several malformed keys: an index
 * outside a table, a remainder longer than the buffer, a slot of the buffer
 * that was never written, a nucleotide code of -1 used as an index. The
 * model gives all of these the outcome `Rejected` (the line changes nothing).
 * A remainder std::stoi cannot read makes it throw: outcome `Throws`.
 */
module KeyDecoder {
  import opened Options
  import opened Alphabet
  import opened NdArrays
  import opened ParamTable
  import opened Text

  /** Slots of the index buffer allocated for each line (`new int[10]`). */
  const NUCS_BUF: nat := 10

  /** Number of key rules tried for each line. */
  const RULE_COUNT: nat := 20

  /** Key prefixes of the rules, in the order the rules are tried. */
  const Patterns: seq<string> := [
    "ML_intern",                   // rule 0
    "ML_closing",                  // rule 1
    "ML_BASE",                     // rule 2
    "MAX_NINIO",                   // rule 3
    "ninio",                       // rule 4
    "TerminalAU",                  // rule 5
    "triloop_length_",             // rule 6
    "tetraloop_length_",           // rule 7
    "hexaloop_length_",            // rule 8
    "hairpin_length_",             // rule 9
    "internal_length_",            // rule 10
    "bulge_length_",               // rule 11
    "stack_",                      // rule 12
    "terminal_mismatch_hairpin_",  // rule 13
    "terminal_mismatch_multi_",    // rule 14
    "terminal_mismatch_external_", // rule 15
    "dangle_5_",                   // rule 16
    "dangle_3_",                   // rule 17
    "terminal_mismatch_internal_", // rule 18
    "internal_explicit_"           // rule 19
  ]

  /** One prefix per rule, and no two rules share a prefix. */
  lemma PatternsDistinct()
    ensures |Patterns| == RULE_COUNT
    ensures forall i, j :: 0 <= i < j < |Patterns| ==> Patterns[i] != Patterns[j]
  {
  }

  /** Key prefix of rule j. */
  function Pattern(j: nat): string
  {
    if j < |Patterns| then Patterns[j] else Patterns[|Patterns| - 1]
  }

  /** What a rule does with the rest of the key once its prefix matched. */
  datatype Action =
    | SetScalar(s: ScalarId)        // the value goes to a scalar; the rest is ignored
    | SetLength(t: TableId)         // the rest is a decimal index into a plain table
    | SetIndexed(t: TableId)        // the rest spells pair names and nucleotides
    | SetInternalMismatch           // first letter of the rest picks mismatchI, mismatch1nI or mismatch23I
    | SetInternalExplicit           // first two letters of the rest pick int11, int21 or int22

  function RuleAction(j: nat): (a: Action)
    ensures a.SetLength? ==> IsPlain(a.t)
    ensures a.SetIndexed? ==> !IsPlain(a.t)
  {
    match j
    case 0 => SetScalar(MLIntern)
    case 1 => SetScalar(MLClosing)
    case 2 => SetScalar(MLBase)
    case 3 => SetScalar(MaxNinio)
    case 4 => SetScalar(Ninio)
    case 5 => SetScalar(TerminalAU)
    case 6 => SetLength(Triloop)
    case 7 => SetLength(Tetraloop)
    case 8 => SetLength(Hexaloop)
    case 9 => SetLength(Hairpin)
    case 10 => SetLength(Internal)
    case 11 => SetLength(Bulge)
    case 12 => SetIndexed(Stack)
    case 13 => SetIndexed(MismatchH)
    case 14 => SetIndexed(MismatchM)
    case 15 => SetIndexed(MismatchExt)
    case 16 => SetIndexed(Dangle5)
    case 17 => SetIndexed(Dangle3)
    case 18 => SetInternalMismatch
    case _ => SetInternalExplicit
  }

  /**
   * decodeEnergyString: None when the prefix occurs nowhere in the input;
   * otherwise the input without its first |prefix| characters and without
   * any '_'.
   */
  function DecodeEnergyString(input: string, prefix: string): (r: Option<string>)
    ensures r.None? <==> !Occurs(input, prefix)
  {
    if !Occurs(input, prefix) then None
    else
      OccursLength(input, prefix);
      Some(RemoveAll(input[|prefix|..], '_'))
  }

  /**
   * What decodeEnergyString returns: no '_', and every other character of the
   * input after its first |prefix| characters, as often as it occurs there and
   * in the same order: cut that remainder anywhere, and the result is the
   * decoded front followed by the decoded back.
   */
  lemma DecodedRemainder(input: string, prefix: string)
    requires Occurs(input, prefix)
    ensures |prefix| <= |input|
    ensures DecodeEnergyString(input, prefix).Some?
    ensures var r := DecodeEnergyString(input, prefix).value;
      '_' !in r && |r| <= |input| - |prefix| &&
      forall c :: c != '_' ==> multiset(r)[c] == multiset(input[|prefix|..])[c]
    ensures var r := DecodeEnergyString(input, prefix).value;
      forall a, b :: input[|prefix|..] == a + b ==> r == RemoveAll(a, '_') + RemoveAll(b, '_')
  {
    OccursLength(input, prefix);
    forall a, b | input[|prefix|..] == a + b
      ensures DecodeEnergyString(input, prefix).value == RemoveAll(a, '_') + RemoveAll(b, '_')
    {
      RemoveAllAppend(a, b, '_');
    }
  }

  /** A key that starts with the prefix decodes to the rest of the key without its '_'. */
  lemma DecodeLeadingPrefix(prefix: string, rest: string)
    ensures DecodeEnergyString(prefix + rest, prefix) == Some(RemoveAll(rest, '_'))
  {
    PrefixOccurs(prefix, rest);
    assert (prefix + rest)[|prefix|..] == rest;
  }

  /** updateNucsIdx as a value: the loader code of every letter, -1 for a letter outside "ACGUN". */
  function NucsIdx(s: string): (r: seq<int>)
    ensures |r| == |s|
    ensures forall k :: 0 <= k < |s| ==> -1 <= r[k] < NUCS_NUM
    ensures forall k :: 0 <= k < |s| ==> (r[k] == -1 <==> s[k] !in C_NUCS)
    ensures forall k :: 0 <= k < |s| && r[k] >= 0 ==> C_NUCS[r[k]] == s[k]
  {
    seq(|s|, k requires 0 <= k < |s| => NucIndex(s[k]))
  }

  /**
   * updateNucsIdx: writes the loader code of input[i] into slot i, for every
   * letter of the input, and leaves the other slots as they were.
   */
  method UpdateNucsIdx(input: string, nucsIdxs: array<int>)
    requires |input| <= nucsIdxs.Length
    modifies nucsIdxs
    ensures nucsIdxs[..|input|] == NucsIdx(input)
    ensures nucsIdxs[|input|..] == old(nucsIdxs[|input|..])
  {
    for i := 0 to |input|
      invariant nucsIdxs[..i] == NucsIdx(input)[..i]
      invariant nucsIdxs[|input|..] == old(nucsIdxs[|input|..])
    {
      nucsIdxs[i] := IndexOf(C_NUCS, input[i]);
    }
  }

  /**
   * Buffer slots skipped before the first pair name: the remainders of
   * the 1n, 23, 1-1, 2-1 and 2-2 keys start with a two-character size tag.
   */
  function Lead(t: TableId): nat
  {
    match t
    case Mismatch1nI | Mismatch23I | Int11 | Int21 | Int22 => 2
    case _ => 0
  }

  /** Buffer slot of the first letter of index k: a pair name takes two letters, a nucleotide one. */
  function SlotPos(t: TableId, k: nat): nat
  {
    Lead(t) + (if k < PairDims(t) then 2 * k else 2 * PairDims(t) + (k - PairDims(t)))
  }

  /**
   * Index k of the cell, read from the codes of the remainder: a pair
   * dimension through NUM_TO_PAIR of two slots, a nucleotide dimension as the
   * code in one slot. None when a slot past the remainder would be read or a
   * nucleotide code is -1.
   */
  function ReadIndex(t: TableId, codes: seq<int>, k: nat): (r: Option<int>)
    requires forall i :: 0 <= i < |codes| ==> -1 <= codes[i] < NUCS_NUM
    ensures r.Some? && k < PairDims(t) ==> 1 <= r.value <= NBPAIRS
    ensures r.Some? && k >= PairDims(t) ==> 0 <= r.value < NUCS_NUM
    ensures r.None? <==>
      if k < PairDims(t) then SlotPos(t, k) + 1 >= |codes|
      else SlotPos(t, k) >= |codes| || codes[SlotPos(t, k)] == -1
  {
    var pos := SlotPos(t, k);
    if k < PairDims(t) then
      if pos + 1 < |codes| then Some(NumToPair(codes[pos], codes[pos + 1])) else None
    else if pos < |codes| && codes[pos] >= 0 then Some(codes[pos])
    else None
  }

  /** The cell addressed by the codes of a remainder, when every index can be read. */
  function CellOf(t: TableId, codes: seq<int>): (r: Option<seq<int>>)
    requires !IsPlain(t)
    requires forall i :: 0 <= i < |codes| ==> -1 <= codes[i] < NUCS_NUM
    ensures r.Some? ==> InRange(Shape(t), r.value)
    ensures r.Some? ==> forall k :: 0 <= k < PairDims(t) ==> r.value[k] != 0
    ensures r.None? <==> exists k :: 0 <= k < |Shape(t)| && ReadIndex(t, codes, k).None?
  {
    ShapeLayout(t);
    if forall k :: 0 <= k < |Shape(t)| ==> ReadIndex(t, codes, k).Some? then
      Some(seq(|Shape(t)|, k requires 0 <= k < |Shape(t)| => ReadIndex(t, codes, k).value))
    else None
  }

  /** The result of decoding one key. */
  datatype Decoded =
    | Unknown              // no rule matched: the line is ignored (a warning in verbose mode)
    | Write(target: Target) // the line's value goes to this cell
    | Rejected             // undefined behaviour in the source; the model drops the line
    | Throws               // std::stoi throws: loading stops

  /** The cells an indexed rule can write: the remainder fits the buffer and spells a cell. */
  function DecodeIndexed(t: TableId, rest: string): (d: Decoded)
    requires !IsPlain(t)
    ensures d.Write? || d.Rejected?
    ensures d.Write? <==> |rest| <= NUCS_BUF && CellOf(t, NucsIdx(rest)).Some?
    ensures d.Write? ==> d.target.TableCell? && d.target.t == t && InBounds(d.target)
    ensures d.Write? ==> AvoidsPairZero(d.target)
  {
    if |rest| > NUCS_BUF then Rejected
    else
      match CellOf(t, NucsIdx(rest))
      case None => Rejected
      case Some(idx) => Write(TableCell(t, idx))
  }

  /** std::stoi on the rest of a length key, then that entry of a plain table. */
  function DecodeLength(t: TableId, rest: string): (d: Decoded)
    requires IsPlain(t)
    ensures d.Throws? <==> ParseLeadingInt(SkipSpace(rest)).None?
    ensures d.Write? <==> exists n :: ParseLeadingInt(SkipSpace(rest)) == Some(n) && 0 <= n < Shape(t)[0]
    ensures d.Write? ==> d.target.TableCell? && d.target.t == t && InBounds(d.target)
    ensures d.Write? ==> AvoidsPairZero(d.target)
    ensures !d.Unknown?
  {
    ShapeLayout(t);
    match ParseLeadingInt(SkipSpace(rest))
    case None => Throws
    case Some(n) => if 0 <= n < Shape(t)[0] then Write(TableCell(t, [n])) else Rejected
  }

  /** key[k] of a std::string: the terminating '\0' at k == |s|, and '\0' past it as well. */
  function CharAt(s: string, k: nat): char
  {
    if k < |s| then s[k] else '\0'
  }

  /** The internal-mismatch table a remainder selects by its first letter. */
  function InternalMismatchTable(rest: string): (t: TableId)
    ensures t == Mismatch1nI <==> CharAt(rest, 0) == '1'
    ensures t == Mismatch23I <==> CharAt(rest, 0) == '2'
    ensures t == MismatchI || t == Mismatch1nI || t == Mismatch23I
  {
    if CharAt(rest, 0) == '1' then Mismatch1nI
    else if CharAt(rest, 0) == '2' then Mismatch23I
    else MismatchI
  }

  /** The explicit internal-loop table a remainder selects by its first two letters. */
  function InternalExplicitTable(rest: string): (t: TableId)
    ensures t == Int11 <==> CharAt(rest, 0) == '1'
    ensures t == Int21 <==> CharAt(rest, 0) != '1' && CharAt(rest, 1) == '1'
    ensures t == Int11 || t == Int21 || t == Int22
  {
    if CharAt(rest, 0) == '1' then Int11
    else if CharAt(rest, 1) == '1' then Int21
    else Int22
  }

  /** What a rule's action does with the remainder of a key the rule matched. */
  function Perform(action: Action, rest: string): (d: Decoded)
    requires action.SetLength? ==> IsPlain(action.t)
    requires action.SetIndexed? ==> !IsPlain(action.t)
    ensures !d.Unknown?
    ensures d.Write? ==> InBounds(d.target) && AvoidsPairZero(d.target)
  {
    match action
    case SetScalar(s) => Write(ScalarCell(s))
    case SetLength(t) => DecodeLength(t, rest)
    case SetIndexed(t) => DecodeIndexed(t, rest)
    case SetInternalMismatch => DecodeIndexed(InternalMismatchTable(rest), rest)
    case SetInternalExplicit => DecodeIndexed(InternalExplicitTable(rest), rest)
  }

  /** The first pattern at or after j that occurs in the key, with the key decoded by it. */
  function FirstMatch(key: string, pats: seq<string>, j: nat): (r: Option<(nat, string)>)
    requires j <= |pats|
    ensures r.Some? ==> j <= r.value.0 < |pats|
    ensures r.Some? ==> DecodeEnergyString(key, pats[r.value.0]) == Some(r.value.1)
    decreases |pats| - j
  {
    if j == |pats| then None
    else
      match DecodeEnergyString(key, pats[j])
      case Some(rest) => Some((j, rest))
      case None => FirstMatch(key, pats, j + 1)
  }

  /** The pattern FirstMatch picks is the first that occurs; None means none occurs. */
  lemma {:induction false} FirstMatchIsFirst(key: string, pats: seq<string>, j: nat)
    requires j <= |pats|
    ensures var r := FirstMatch(key, pats, j);
      (r.Some? ==> forall i :: j <= i < r.value.0 ==> !Occurs(key, pats[i])) &&
      (r.None? <==> forall i :: j <= i < |pats| ==> !Occurs(key, pats[i]))
    decreases |pats| - j
  {
    if j < |pats| && !Occurs(key, pats[j]) {
      FirstMatchIsFirst(key, pats, j + 1);
    }
  }

  /** The first rule at or after j whose prefix occurs in the key, with the decoded remainder. */
  function FirstRule(key: string, j: nat): (r: Option<(nat, string)>)
    requires j <= RULE_COUNT
    ensures r.Some? ==> j <= r.value.0 < RULE_COUNT
    ensures r.Some? ==> DecodeEnergyString(key, Pattern(r.value.0)) == Some(r.value.1)
  {
    FirstMatch(key, Patterns, j)
  }

  /** The cell does not sit in the "NP" row or column of any pair dimension. */
  predicate AvoidsPairZero(c: Target)
  {
    c.TableCell? ==> forall k :: 0 <= k < |c.idx| && k < PairDims(c.t) ==> c.idx[k] != 0
  }

  /**
   * The whole if-chain for one key: a decoded cell always lies inside its
   * table, and no key addresses pair code 0: the loader never writes the
   * "NP" row or column of a table.
   */
  function Decode(key: string): (d: Decoded)
    ensures d.Write? ==> InBounds(d.target) && AvoidsPairZero(d.target)
    ensures d.Unknown? <==> forall i :: 0 <= i < RULE_COUNT ==> !Occurs(key, Pattern(i))
  {
    FirstMatchIsFirst(key, Patterns, 0);
    match FirstRule(key, 0)
    case None => Unknown
    case Some((j, rest)) => Perform(RuleAction(j), rest)
  }

  /**
   * One key as the loader handles it: the if-chain, with the index buffer
   * allocated and filled by updateNucsIdx for the rules that read letters.
   */
  method DecodeKey(key: string) returns (d: Decoded)
    ensures d == Decode(key)
  {
    var m := FirstRule(key, 0);
    if m.None? {
      d := Unknown;
    } else {
      d := PerformRule(RuleAction(m.value.0), m.value.1);
    }
  }

  /** The body of the matched branch of the if-chain. */
  method PerformRule(action: Action, rest: string) returns (d: Decoded)
    requires action.SetLength? ==> IsPlain(action.t)
    requires action.SetIndexed? ==> !IsPlain(action.t)
    ensures d == Perform(action, rest)
  {
    match action
    case SetIndexed(t) =>
      d := ReadCell(t, rest);
    case SetInternalMismatch =>
      d := ReadCell(InternalMismatchTable(rest), rest);
    case SetInternalExplicit =>
      d := ReadCell(InternalExplicitTable(rest), rest);
    case SetScalar(s) =>
      d := Write(ScalarCell(s));
    case SetLength(t) =>
      d := DecodeLength(t, rest);
  }

  /** Fills a fresh ten-slot buffer from the remainder and reads the cell from its written slots. */
  method ReadCell(t: TableId, rest: string) returns (d: Decoded)
    requires !IsPlain(t)
    ensures d == DecodeIndexed(t, rest)
  {
    if |rest| > NUCS_BUF {
      return Rejected;
    }
    var nucsIdxs := new int[NUCS_BUF];
    UpdateNucsIdx(rest, nucsIdxs);
    var codes := nucsIdxs[..|rest|];
    match CellOf(t, codes)
    case None =>
      d := Rejected;
    case Some(idx) =>
      d := Write(TableCell(t, idx));
  }

  /** Rules lo..hi-1 whose prefixes occur nowhere in the key are passed over. */
  lemma {:induction false} PassOver(key: string, pats: seq<string>, lo: nat, hi: nat)
    requires lo <= hi <= |pats|
    requires forall i :: lo <= i < hi ==> !Occurs(key, pats[i])
    ensures FirstMatch(key, pats, lo) == FirstMatch(key, pats, hi)
    decreases hi - lo
  {
    if lo < hi {
      PassOver(key, pats, lo + 1, hi);
    }
  }

  /**
   * Patterns lo..hi-1 are passed over when each of them has a letter
   * (at position pos[i]) that the key does not use.
   */
  lemma {:induction false} PassOverByLetters(key: string, pats: seq<string>, lo: nat, hi: nat, pos: seq<nat>, spelled: char -> bool)
    requires lo <= hi <= |pats| && |pos| >= hi
    requires forall c :: c in key ==> spelled(c)
    requires forall i :: lo <= i < hi ==> pos[i] < |pats[i]| && !spelled(pats[i][pos[i]])
    ensures FirstMatch(key, pats, lo) == FirstMatch(key, pats, hi)
    decreases hi - lo
  {
    if lo < hi {
      OccursContains(key, pats[lo], pats[lo][pos[lo]]);
      PassOverByLetters(key, pats, lo + 1, hi, pos, spelled);
    }
  }
}
