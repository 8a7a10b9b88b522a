/**
 * The parameter dump (energy_model_extract.cpp): the compiled-in parameter
 * tables written out as "<key> <value>" lines, in the format the loader of
 * energy_model.cpp reads.
 *
 * The dump prints the six scalars, then every table section by section.
 * Each section visits the cells of its table with one nested loop per
 * dimension, the first dimension outermost, and prints a cell unless its
 * value is VIE_INF; the hairpin-length and hairpin-mismatch sections print
 * every cell. A key is the rule's prefix, a size tag for the 1n, 23, 1-1,
 * 2-1 and 2-2 tables, and the names of the indices: pair names ("NP" ..
 * "NN") and nucleotide letters ("ACGUN") separated by '_', except that the
 * two pair names of a stack key are written together. A length key ends
 * with the decimal index.
 */
module Dump {
  import opened Alphabet
  import opened NdArrays
  import opened ParamTable
  import opened Text
  import opened KeyDecoder

  /** The rule whose prefix starts every key of table t. */
  function RuleOf(t: TableId): (j: nat)
    ensures j < RULE_COUNT
  {
    match t
    case Triloop => 6
    case Tetraloop => 7
    case Hexaloop => 8
    case Hairpin => 9
    case Internal => 10
    case Bulge => 11
    case Stack => 12
    case MismatchH => 13
    case MismatchM => 14
    case MismatchExt => 15
    case Dangle5 => 16
    case Dangle3 => 17
    case MismatchI | Mismatch1nI | Mismatch23I => 18
    case Int11 | Int21 | Int22 => 19
  }

  /** The size tag written after the rule's prefix. */
  function Tag(t: TableId): string
  {
    match t
    case Mismatch1nI => "1n_"
    case Mismatch23I => "23_"
    case Int11 => "1_1_"
    case Int21 => "2_1_"
    case Int22 => "2_2_"
    case _ => ""
  }

  /** Everything a key of table t starts with. */
  function KeyPrefix(t: TableId): string
  {
    Pattern(RuleOf(t)) + Tag(t)
  }

  /** Name of value i of dimension k: a pair name, or a nucleotide letter. */
  function IndexName(t: TableId, k: nat, i: int): string
    requires 0 <= i < (if k < PairDims(t) then PAIR_DIM else NUCS_NUM)
  {
    if k < PairDims(t) then PAIRS[i] else [C_NUCS[i]]
  }

  /** The names of the indices of a cell of a multi-dimensional table, in order. */
  function Names(t: TableId, idx: seq<int>): (ns: seq<string>)
    requires !IsPlain(t) && InRange(Shape(t), idx)
    ensures |ns| == |idx|
  {
    ShapeLayout(t);
    seq(|idx|, k requires 0 <= k < |idx| => IndexName(t, k, idx[k]))
  }

  /** Strings written one after the other. */
  function Concat(ns: seq<string>): string
  {
    if |ns| == 0 then "" else Concat(ns[..|ns| - 1]) + ns[|ns| - 1]
  }

  /** Strings written one after the other with '_' between neighbours. */
  function Join(ns: seq<string>): string
  {
    if |ns| == 0 then ""
    else if |ns| == 1 then ns[0]
    else Join(ns[..|ns| - 1]) + "_" + ns[|ns| - 1]
  }

  /** The indices as a key spells them after its prefix. */
  function IndexText(t: TableId, idx: seq<int>): string
    requires InRange(Shape(t), idx)
  {
    if IsPlain(t) then Decimal(idx[0])
    else if t == Stack then Concat(Names(t, idx))
    else Join(Names(t, idx))
  }

  /** The key the dump prints for cell idx of table t. */
  function EntryKey(t: TableId, idx: seq<int>): string
    requires InRange(Shape(t), idx)
  {
    KeyPrefix(t) + IndexText(t, idx)
  }

  /** The line printed for a cell: its key, a space, its value. */
  function EntryLine(p: Params, t: TableId, idx: seq<int>): string
    requires p.Valid() && InRange(Shape(t), idx)
  {
    EntryKey(t, idx) + " " + Decimal(p.At(t, idx))
  }

  /**
   * The table whose value decides whether the external-mismatch section
   * prints a cell: as written it is the multi-loop table; its own table
   * is evidently what was intended.
   */
  datatype ExtFilter = MultiLoopTable | OwnTable

  /** The table whose VIE_INF cells the section of t leaves out. */
  function FilterTable(t: TableId, ext: ExtFilter): TableId
  {
    if t == MismatchExt && ext == MultiLoopTable then MismatchM else t
  }

  /** Whether the section of t prints cell idx. */
  predicate Printed(p: Params, t: TableId, idx: seq<int>, ext: ExtFilter)
    requires p.Valid() && InRange(Shape(t), idx)
  {
    t == Hairpin || t == MismatchH || p.At(FilterTable(t, ext), idx) != VIE_INF
  }

  /**
   * The skip tests of the sections: the hairpin and hairpin-mismatch sections
   * print every cell; the external-mismatch section, as written, skips the
   * cells whose multi-loop mismatch value is VIE_INF; every other section
   * skips its own VIE_INF cells.
   */
  lemma PrintedCells(p: Params, t: TableId, idx: seq<int>, ext: ExtFilter)
    requires p.Valid() && InRange(Shape(t), idx)
    ensures t == Hairpin || t == MismatchH ==> Printed(p, t, idx, ext)
    ensures t == MismatchExt ==> Shape(MismatchM) == Shape(t)
    ensures t == MismatchExt ==>
      (Printed(p, t, idx, MultiLoopTable) <==> p.At(MismatchM, idx) != VIE_INF)
    ensures t != Hairpin && t != MismatchH && (t != MismatchExt || ext == OwnTable) ==>
      (Printed(p, t, idx, ext) <==> p.At(t, idx) != VIE_INF)
  {
  }

  /** An index prefix: the values of the outer loops of a section. */
  predicate PrefixIn(t: TableId, prefix: seq<int>)
  {
    |prefix| <= |Shape(t)| && forall k :: 0 <= k < |prefix| ==> 0 <= prefix[k] < Shape(t)[k]
  }

  /**
   * The lines printed while the outer loops hold the values of `prefix`:
   * the cell itself when no loop is left, otherwise the whole next loop.
   */
  function Block(p: Params, t: TableId, prefix: seq<int>, ext: ExtFilter): seq<string>
    requires p.Valid() && PrefixIn(t, prefix)
    decreases |Shape(t)| - |prefix|, 1
  {
    if |prefix| == |Shape(t)| then
      if Printed(p, t, prefix, ext) then [EntryLine(p, t, prefix)] else []
    else Row(p, t, prefix, Shape(t)[|prefix|], ext)
  }

  /** The lines of the first n rounds of the loop below `prefix`. */
  function Row(p: Params, t: TableId, prefix: seq<int>, n: nat, ext: ExtFilter): seq<string>
    requires p.Valid() && PrefixIn(t, prefix) && |prefix| < |Shape(t)| && n <= Shape(t)[|prefix|]
    decreases |Shape(t)| - |prefix|, 0, n
  {
    if n == 0 then []
    else Row(p, t, prefix, n - 1, ext) + Block(p, t, prefix + [n - 1], ext)
  }

  /** The lines of the section of table t. */
  function Section(p: Params, t: TableId, ext: ExtFilter): seq<string>
    requires p.Valid()
  {
    Block(p, t, [], ext)
  }

  /** The tables in the order the dump prints their sections. */
  const DumpOrder: seq<TableId> :=
    [Triloop, Tetraloop, Hexaloop, Hairpin, Bulge, Internal, Stack,
     MismatchI, MismatchH, MismatchM, MismatchExt, Mismatch1nI, Mismatch23I,
     Int11, Int21, Int22, Dangle5, Dangle3]

  /** The dump prints eighteen sections, and no table twice. */
  lemma DumpOrderOnce()
    ensures |DumpOrder| == 18
    ensures forall i, j :: 0 <= i < j < |DumpOrder| ==> DumpOrder[i] != DumpOrder[j]
  {
  }

  /** The sections of the tables ts, one after the other. */
  function Sections(p: Params, ts: seq<TableId>, ext: ExtFilter): seq<string>
    requires p.Valid()
  {
    if |ts| == 0 then [] else Sections(p, ts[..|ts| - 1], ext) + Section(p, ts[|ts| - 1], ext)
  }

  /** The key the dump prints for a scalar. */
  function ScalarKey(s: ScalarId): string
  {
    match s
    case MLIntern => "ML_intern37"
    case MLClosing => "ML_closing37"
    case MLBase => "ML_BASE37"
    case MaxNinio => "MAX_NINIO"
    case Ninio => "ninio37"
    case TerminalAU => "TerminalAU37"
  }

  /** The scalars in the order the dump prints them. */
  const ScalarOrder: seq<ScalarId> := [MLIntern, MLClosing, MLBase, MaxNinio, Ninio, TerminalAU]

  function ScalarLine(p: Params, s: ScalarId): string
  {
    ScalarKey(s) + " " + Decimal(p.Scalar(s))
  }

  /** Where scalar s comes in the scalar order; no other position holds it. */
  function ScalarPosition(s: ScalarId): (i: nat)
    ensures i < |ScalarOrder| && ScalarOrder[i] == s
    ensures forall j :: 0 <= j < |ScalarOrder| && j != i ==> ScalarOrder[j] != s
  {
    match s
    case MLIntern => 0
    case MLClosing => 1
    case MLBase => 2
    case MaxNinio => 3
    case Ninio => 4
    case TerminalAU => 5
  }

  /**
   * The first lines of the dump: six lines, and the line at each scalar's
   * position (which no other scalar shares) prints that scalar's key and value.
   */
  function ScalarLines(p: Params): (lines: seq<string>)
    ensures |lines| == |ScalarOrder| == 6
    ensures forall s :: lines[ScalarPosition(s)] == ScalarLine(p, s)
  {
    seq(|ScalarOrder|, i requires 0 <= i < |ScalarOrder| => ScalarLine(p, ScalarOrder[i]))
  }

  /** Everything the dump prints, line by line. */
  function DumpLines(p: Params, ext: ExtFilter): seq<string>
    requires p.Valid()
  {
    ScalarLines(p) + Sections(p, DumpOrder, ext)
  }

  /** The text on standard output: every line ended by std::endl. */
  function DumpText(p: Params, ext: ExtFilter): string
    requires p.Valid()
  {
    JoinLines(DumpLines(p, ext))
  }

  /**
   * The loops of one section below the outer-loop values `prefix`: the
   * innermost body prints the cell unless it is filtered out, every other
   * level runs the next loop over its dimension.
   */
  method ExtractBlock(p: Params, t: TableId, prefix: seq<int>, ext: ExtFilter) returns (out: seq<string>)
    requires p.Valid() && PrefixIn(t, prefix)
    ensures out == Block(p, t, prefix, ext)
    decreases |Shape(t)| - |prefix|, 1
  {
    if |prefix| == |Shape(t)| {
      out := [];
      if Printed(p, t, prefix, ext) {
        out := [EntryLine(p, t, prefix)];
      }
    } else {
      out := ExtractLoop(p, t, prefix, ext);
    }
  }

  /** The loop over the dimension after `prefix`, each round running the loops inside it. */
  method ExtractLoop(p: Params, t: TableId, prefix: seq<int>, ext: ExtFilter) returns (out: seq<string>)
    requires p.Valid() && PrefixIn(t, prefix) && |prefix| < |Shape(t)|
    ensures out == Row(p, t, prefix, Shape(t)[|prefix|], ext)
    decreases |Shape(t)| - |prefix|, 0
  {
    var n := Shape(t)[|prefix|];
    out := [];
    for i := 0 to n
      invariant out == Row(p, t, prefix, i, ext)
    {
      RowNext(p, t, prefix, i, ext);
      var lines := ExtractBlock(p, t, prefix + [i], ext);
      out := out + lines;
    }
  }

  lemma PrefixExtend(t: TableId, prefix: seq<int>, i: int)
    requires PrefixIn(t, prefix) && |prefix| < |Shape(t)| && 0 <= i < Shape(t)[|prefix|]
    ensures PrefixIn(t, prefix + [i])
  {
  }

  /** One more round of the loop adds the lines of its block. */
  lemma RowNext(p: Params, t: TableId, prefix: seq<int>, i: nat, ext: ExtFilter)
    requires p.Valid() && PrefixIn(t, prefix) && |prefix| < |Shape(t)| && i < Shape(t)[|prefix|]
    ensures PrefixIn(t, prefix + [i])
    ensures Row(p, t, prefix, i + 1, ext) == Row(p, t, prefix, i, ext) + Block(p, t, prefix + [i], ext)
  {
    PrefixExtend(t, prefix, i);
  }

  /** The loops of the section of table t. */
  method ExtractSection(p: Params, t: TableId, ext: ExtFilter) returns (out: seq<string>)
    requires p.Valid()
    ensures out == Section(p, t, ext)
  {
    out := ExtractBlock(p, t, [], ext);
  }

  /** The six scalar lines at the top of the dump. */
  method ExtractScalars(p: Params) returns (out: seq<string>)
    ensures out == ScalarLines(p)
  {
    out := [ScalarLine(p, MLIntern), ScalarLine(p, MLClosing), ScalarLine(p, MLBase),
            ScalarLine(p, MaxNinio), ScalarLine(p, Ninio), ScalarLine(p, TerminalAU)];
  }

  /** The sections of the tables ts, one loop nest after another. */
  method ExtractSections(p: Params, ts: seq<TableId>, ext: ExtFilter) returns (out: seq<string>)
    requires p.Valid()
    ensures out == Sections(p, ts, ext)
  {
    out := [];
    for k := 0 to |ts|
      invariant out == Sections(p, ts[..k], ext)
    {
      var lines := ExtractSection(p, ts[k], ext);
      assert ts[..k + 1][..k] == ts[..k];
      out := out + lines;
    }
    assert ts[..|ts|] == ts;
  }

  /**
   * main: the six scalar lines, then the section of every table in dump
   * order (the eighteen loop nests of the source, one per table, run here
   * as one loop over the tables).
   */
  method Extract(p: Params, ext: ExtFilter) returns (out: seq<string>)
    requires p.Valid()
    ensures out == DumpLines(p, ext)
  {
    var scalars := ExtractScalars(p);
    var sections := ExtractSections(p, DumpOrder, ext);
    out := scalars + sections;
  }
}
