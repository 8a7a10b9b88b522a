/**
 * Loading the whole dump: the loader runs the dump's lines in order, so a
 * cell ends up with the value of the last line that reads back into it.
 * Within a section the cells come in the order of the nested loops, so
 * the line of a cell comes after every line of an "NP" cell that reads
 * back into it; across sections the tables differ.
 *
 * BlockSets, RowSets and SectionsSets mirror Dump.Block, Dump.Row and
 * Dump.Sections on effects instead of lines (BlockEffects, RowEffects and
 * SectionsEffects prove `Effects` of the lines equal to them), and BlockLast
 * and RowLast compute the last write to one cell over the same recursion
 * (BlockLastWrite, RowLastWrite). The proofs about the last write recurse
 * over these mirrors, so they never unfold the key decoder.
 */
module Reload {
  import opened Alphabet
  import opened NdArrays
  import opened ParamTable
  import opened Text
  import opened KeyDecoder
  import opened Loader
  import opened Dump
  import opened RoundTrip

  /** Every value the dump prints fits the int the loader reads it into. */
  ghost predicate Fits(p: Params)
    requires p.Valid()
  {
    (forall s :: IsInt32(p.Scalar(s))) &&
    forall t, idx :: InRange(Shape(t), idx) ==> IsInt32(p.At(t, idx))
  }

  /** idx holds the values of the outer loops `prefix`. */
  predicate Extends(idx: seq<int>, prefix: seq<int>)
  {
    |prefix| <= |idx| && idx[..|prefix|] == prefix
  }

  /** No line throws. */
  predicate NoAbort(es: seq<Effect>)
  {
    forall i :: 0 <= i < |es| ==> !es[i].Abort?
  }

  /**
   * Whenever the section of t prints an "NP" cell, it also prints the "NN"
   * cell that cell reads back into (which it prints later, so the "NN"
   * value wins).
   */
  ghost predicate AliasClosed(p: Params, t: TableId, ext: ExtFilter)
    requires p.Valid()
  {
    forall idx :: InRange(Shape(t), idx) && Printed(p, t, idx, ext) ==> Printed(p, t, Alias(t, idx), ext)
  }

  /** Effects that do not throw, followed by effects that do not throw. */
  lemma NoAbortAppend(a: seq<Effect>, b: seq<Effect>)
    requires NoAbort(a) && NoAbort(b)
    ensures NoAbort(a + b)
  {
    assert forall i :: 0 <= i < |a + b| ==> (a + b)[i] == if i < |a| then a[i] else b[i - |a|];
  }

  /** The effects of lines a then b are those of a, then those of b. */
  lemma EffectsThrough(a: seq<string>, b: seq<string>, whole: seq<string>, x: seq<Effect>, y: seq<Effect>)
    requires whole == a + b && Effects(a) == x && Effects(b) == y
    ensures Effects(whole) == x + y
  {
    EffectsAppend(a, b);
  }

  /** Effects a then b leave c with what b leaves on top of what a leaves. */
  lemma LastWriteThrough(a: seq<Effect>, b: seq<Effect>, whole: seq<Effect>, c: Target, d: int, x: int, y: int)
    requires whole == a + b
    requires LastWrite(a, c, d) == x && LastWrite(b, c, x) == y
    ensures LastWrite(whole, c, d) == y
  {
    LastWriteAppend(a, b, c, d);
  }

  /**
   * What the loader makes of the lines of a block: every printed cell, in
   * loop order, sets the cell it reads back as to its value.
   */
  function BlockSets(p: Params, t: TableId, prefix: seq<int>, ext: ExtFilter): (es: seq<Effect>)
    requires p.Valid() && PrefixIn(t, prefix)
    ensures NoAbort(es)
    decreases |Shape(t)| - |prefix|, 1
  {
    if |prefix| == |Shape(t)| then
      if Printed(p, t, prefix, ext) then [Set(TableCell(t, Alias(t, prefix)), p.At(t, prefix))] else []
    else RowSets(p, t, prefix, Shape(t)[|prefix|], ext)
  }

  function RowSets(p: Params, t: TableId, prefix: seq<int>, n: nat, ext: ExtFilter): (es: seq<Effect>)
    requires p.Valid() && PrefixIn(t, prefix) && |prefix| < |Shape(t)| && n <= Shape(t)[|prefix|]
    ensures NoAbort(es)
    decreases |Shape(t)| - |prefix|, 0, n
  {
    if n == 0 then []
    else
      var front, last := RowSets(p, t, prefix, n - 1, ext), BlockSets(p, t, prefix + [n - 1], ext);
      NoAbortAppend(front, last);
      front + last
  }

  /** The line of one cell, if printed, sets the cell it reads back as to its value. */
  lemma CellEffects(p: Params, t: TableId, idx: seq<int>, ext: ExtFilter)
    requires p.Valid() && Fits(p) && InRange(Shape(t), idx)
    ensures Effects(if Printed(p, t, idx, ext) then [EntryLine(p, t, idx)] else [])
         == if Printed(p, t, idx, ext) then [Set(TableCell(t, Alias(t, idx)), p.At(t, idx))] else []
  {
    if Printed(p, t, idx, ext) {
      EntryEffect(p, t, idx);
    }
  }

  /** Loading the lines of a block has the effects BlockSets lists. */
  lemma {:induction false} BlockEffects(p: Params, t: TableId, prefix: seq<int>, ext: ExtFilter)
    requires p.Valid() && Fits(p) && PrefixIn(t, prefix)
    ensures Effects(Block(p, t, prefix, ext)) == BlockSets(p, t, prefix, ext)
    decreases |Shape(t)| - |prefix|, 1
  {
    if |prefix| == |Shape(t)| {
      CellEffects(p, t, prefix, ext);
    } else {
      RowEffects(p, t, prefix, Shape(t)[|prefix|], ext);
    }
  }

  lemma {:induction false} RowEffects(p: Params, t: TableId, prefix: seq<int>, n: nat, ext: ExtFilter)
    requires p.Valid() && Fits(p) && PrefixIn(t, prefix) && |prefix| < |Shape(t)| && n <= Shape(t)[|prefix|]
    ensures Effects(Row(p, t, prefix, n, ext)) == RowSets(p, t, prefix, n, ext)
    decreases |Shape(t)| - |prefix|, 0, n
  {
    if n > 0 {
      var q, front, last, whole, x, y := RowLinesSplit(p, t, prefix, n, ext);
      RowEffects(p, t, prefix, n - 1, ext);
      BlockEffects(p, t, q, ext);
      EffectsThrough(front, last, whole, x, y);
    }
  }

  /** The lines and the effects of the last round of a loop come after those of the rounds before it. */
  lemma RowLinesSplit(p: Params, t: TableId, prefix: seq<int>, n: nat, ext: ExtFilter)
      returns (q: seq<int>, front: seq<string>, last: seq<string>, whole: seq<string>, x: seq<Effect>, y: seq<Effect>)
    requires p.Valid() && PrefixIn(t, prefix) && |prefix| < |Shape(t)| && 0 < n <= Shape(t)[|prefix|]
    ensures q == prefix + [n - 1] && PrefixIn(t, q)
    ensures front == Row(p, t, prefix, n - 1, ext) && last == Block(p, t, q, ext)
    ensures whole == Row(p, t, prefix, n, ext) && whole == front + last
    ensures x == RowSets(p, t, prefix, n - 1, ext) && y == BlockSets(p, t, q, ext)
    ensures RowSets(p, t, prefix, n, ext) == x + y
  {
    q := prefix + [n - 1];
    PrefixExtend(t, prefix, n - 1);
    front, last, whole := Row(p, t, prefix, n - 1, ext), Block(p, t, q, ext), Row(p, t, prefix, n, ext);
    x, y := RowSets(p, t, prefix, n - 1, ext), BlockSets(p, t, q, ext);
  }

  /**
   * The value cell c holds after the effects of a block, applied onto the
   * value d.
   */
  function BlockLast(p: Params, t: TableId, prefix: seq<int>, ext: ExtFilter, c: Target, d: int): int
    requires p.Valid() && PrefixIn(t, prefix)
    decreases |Shape(t)| - |prefix|, 1
  {
    if |prefix| == |Shape(t)| then
      if Printed(p, t, prefix, ext) && TableCell(t, Alias(t, prefix)) == c then p.At(t, prefix) else d
    else RowLast(p, t, prefix, Shape(t)[|prefix|], ext, c, d)
  }

  function RowLast(p: Params, t: TableId, prefix: seq<int>, n: nat, ext: ExtFilter, c: Target, d: int): int
    requires p.Valid() && PrefixIn(t, prefix) && |prefix| < |Shape(t)| && n <= Shape(t)[|prefix|]
    decreases |Shape(t)| - |prefix|, 0, n
  {
    if n == 0 then d
    else BlockLast(p, t, prefix + [n - 1], ext, c, RowLast(p, t, prefix, n - 1, ext, c, d))
  }

  /** The effects of a block leave c with the value BlockLast gives it. */
  lemma {:induction false} BlockLastWrite(p: Params, t: TableId, prefix: seq<int>, ext: ExtFilter, c: Target, d: int)
    requires p.Valid() && PrefixIn(t, prefix)
    ensures LastWrite(BlockSets(p, t, prefix, ext), c, d) == BlockLast(p, t, prefix, ext, c, d)
    decreases |Shape(t)| - |prefix|, 1
  {
    if |prefix| < |Shape(t)| {
      RowLastWrite(p, t, prefix, Shape(t)[|prefix|], ext, c, d);
    }
  }

  lemma {:induction false} RowLastWrite(p: Params, t: TableId, prefix: seq<int>, n: nat, ext: ExtFilter, c: Target, d: int)
    requires p.Valid() && PrefixIn(t, prefix) && |prefix| < |Shape(t)| && n <= Shape(t)[|prefix|]
    ensures LastWrite(RowSets(p, t, prefix, n, ext), c, d) == RowLast(p, t, prefix, n, ext, c, d)
    decreases |Shape(t)| - |prefix|, 0, n
  {
    if n > 0 {
      var q, front, last, whole, d', r := RowSplit(p, t, prefix, n, ext, c, d);
      RowLastWrite(p, t, prefix, n - 1, ext, c, d);
      BlockLastWrite(p, t, q, ext, c, d');
      LastWriteThrough(front, last, whole, c, d, d', r);
    }
  }

  /** The last round of a loop comes after the rounds before it. */
  lemma RowSplit(p: Params, t: TableId, prefix: seq<int>, n: nat, ext: ExtFilter, c: Target, d: int)
      returns (q: seq<int>, front: seq<Effect>, last: seq<Effect>, whole: seq<Effect>, d': int, r: int)
    requires p.Valid() && PrefixIn(t, prefix) && |prefix| < |Shape(t)| && 0 < n <= Shape(t)[|prefix|]
    ensures q == prefix + [n - 1] && PrefixIn(t, q)
    ensures front == RowSets(p, t, prefix, n - 1, ext) && last == BlockSets(p, t, q, ext)
    ensures whole == RowSets(p, t, prefix, n, ext) && whole == front + last
    ensures d' == RowLast(p, t, prefix, n - 1, ext, c, d)
    ensures r == RowLast(p, t, prefix, n, ext, c, d) && r == BlockLast(p, t, q, ext, c, d')
  {
    q := prefix + [n - 1];
    PrefixExtend(t, prefix, n - 1);
    front, last, d' := RowSets(p, t, prefix, n - 1, ext), BlockSets(p, t, q, ext), RowLast(p, t, prefix, n - 1, ext, c, d);
    whole, r := RowSets(p, t, prefix, n, ext), RowLast(p, t, prefix, n, ext, c, d);
  }

  /** Extending the outer-loop values of idx by one more loop keeps the earlier ones. */
  lemma ExtendsShorter(idx: seq<int>, prefix: seq<int>, i: int)
    requires Extends(idx, prefix + [i])
    ensures Extends(idx, prefix) && idx[|prefix|] == i
  {
    assert idx[..|prefix|] == idx[..|prefix| + 1][..|prefix|];
  }

  /** No printed cell whose outer-loop values are `prefix` reads back into c. */
  ghost predicate Unhit(p: Params, t: TableId, prefix: seq<int>, ext: ExtFilter, c: Target)
    requires p.Valid()
  {
    forall idx :: InRange(Shape(t), idx) && Extends(idx, prefix) && Printed(p, t, idx, ext) ==> TableCell(t, Alias(t, idx)) != c
  }

  lemma UnhitNarrower(p: Params, t: TableId, prefix: seq<int>, i: int, ext: ExtFilter, c: Target)
    requires p.Valid() && Unhit(p, t, prefix, ext, c)
    ensures Unhit(p, t, prefix + [i], ext, c)
  {
    forall idx | InRange(Shape(t), idx) && Extends(idx, prefix + [i]) && Printed(p, t, idx, ext)
      ensures TableCell(t, Alias(t, idx)) != c
    {
      ExtendsShorter(idx, prefix, i);
    }
  }

  /** A block none of whose printed cells reads back into c leaves c as it was. */
  lemma {:induction false} BlockMisses(p: Params, t: TableId, prefix: seq<int>, ext: ExtFilter, c: Target, d: int)
    requires p.Valid() && PrefixIn(t, prefix) && Unhit(p, t, prefix, ext, c)
    ensures BlockLast(p, t, prefix, ext, c, d) == d
    decreases |Shape(t)| - |prefix|, 1
  {
    if |prefix| == |Shape(t)| {
      assert Extends(prefix, prefix);
    } else {
      RowMisses(p, t, prefix, Shape(t)[|prefix|], ext, c, d);
    }
  }

  lemma {:induction false} RowMisses(p: Params, t: TableId, prefix: seq<int>, n: nat, ext: ExtFilter, c: Target, d: int)
    requires p.Valid() && PrefixIn(t, prefix) && |prefix| < |Shape(t)| && n <= Shape(t)[|prefix|]
    requires Unhit(p, t, prefix, ext, c)
    ensures RowLast(p, t, prefix, n, ext, c, d) == d
    decreases |Shape(t)| - |prefix|, 0, n
  {
    if n > 0 {
      var q, front, last, whole, d', r := RowSplit(p, t, prefix, n, ext, c, d);
      UnhitNarrower(p, t, prefix, n - 1, ext, c);
      RowMisses(p, t, prefix, n - 1, ext, c, d);
      BlockMisses(p, t, q, ext, c, d');
    }
  }

  /**
   * A block that prints the cell cidx (one without an "NP" index) leaves
   * cidx with its printed value: the cells after it read back elsewhere.
   */
  lemma {:induction false} BlockHits(p: Params, t: TableId, prefix: seq<int>, ext: ExtFilter, cidx: seq<int>, d: int)
    requires p.Valid() && PrefixIn(t, prefix)
    requires InRange(Shape(t), cidx) && Extends(cidx, prefix) && AvoidsPairZero(TableCell(t, cidx)) && Printed(p, t, cidx, ext)
    ensures BlockLast(p, t, prefix, ext, TableCell(t, cidx), d) == p.At(t, cidx)
    decreases |Shape(t)| - |prefix|, 1, 0, 0
  {
    if |prefix| == |Shape(t)| {
      assert cidx == prefix;
    } else {
      RowHits(p, t, prefix, Shape(t)[|prefix|], ext, cidx, d);
    }
  }

  lemma {:induction false} RowHits(p: Params, t: TableId, prefix: seq<int>, n: nat, ext: ExtFilter, cidx: seq<int>, d: int)
    requires p.Valid() && PrefixIn(t, prefix) && |prefix| < |Shape(t)| && n <= Shape(t)[|prefix|]
    requires InRange(Shape(t), cidx) && Extends(cidx, prefix) && AvoidsPairZero(TableCell(t, cidx)) && Printed(p, t, cidx, ext)
    requires cidx[|prefix|] < n
    ensures RowLast(p, t, prefix, n, ext, TableCell(t, cidx), d) == p.At(t, cidx)
    decreases |Shape(t)| - |prefix|, 0, n, 1
  {
    if cidx[|prefix|] == n - 1 {
      LastRoundHits(p, t, prefix, n, ext, cidx, d);
    } else {
      EarlierRoundHits(p, t, prefix, n, ext, cidx, d);
    }
  }

  /** The round of the loop that prints cidx writes it last of all. */
  lemma {:induction false} LastRoundHits(p: Params, t: TableId, prefix: seq<int>, n: nat, ext: ExtFilter, cidx: seq<int>, d: int)
    requires p.Valid() && PrefixIn(t, prefix) && |prefix| < |Shape(t)| && n <= Shape(t)[|prefix|]
    requires InRange(Shape(t), cidx) && Extends(cidx, prefix) && AvoidsPairZero(TableCell(t, cidx)) && Printed(p, t, cidx, ext)
    requires cidx[|prefix|] == n - 1
    ensures RowLast(p, t, prefix, n, ext, TableCell(t, cidx), d) == p.At(t, cidx)
    decreases |Shape(t)| - |prefix|, 0, n, 0
  {
    var q := prefix + [n - 1];
    PrefixExtend(t, prefix, n - 1);
    assert cidx[..|q|] == cidx[..|prefix|] + [cidx[|prefix|]];
    BlockHits(p, t, q, ext, cidx, RowLast(p, t, prefix, n - 1, ext, TableCell(t, cidx), d));
  }

  /** A round of the loop before the last one prints cidx, and the last round leaves it alone. */
  lemma {:induction false} EarlierRoundHits(p: Params, t: TableId, prefix: seq<int>, n: nat, ext: ExtFilter, cidx: seq<int>, d: int)
    requires p.Valid() && PrefixIn(t, prefix) && |prefix| < |Shape(t)| && n <= Shape(t)[|prefix|]
    requires InRange(Shape(t), cidx) && Extends(cidx, prefix) && AvoidsPairZero(TableCell(t, cidx)) && Printed(p, t, cidx, ext)
    requires cidx[|prefix|] < n - 1
    ensures RowLast(p, t, prefix, n, ext, TableCell(t, cidx), d) == p.At(t, cidx)
    decreases |Shape(t)| - |prefix|, 0, n, 0
  {
    RowHits(p, t, prefix, n - 1, ext, cidx, d);
    LastRoundMisses(p, t, prefix, n, ext, cidx, RowLast(p, t, prefix, n - 1, ext, TableCell(t, cidx), d));
  }

  /** The last round of the loop leaves alone a cell printed by an earlier round. */
  lemma LastRoundMisses(p: Params, t: TableId, prefix: seq<int>, n: nat, ext: ExtFilter, cidx: seq<int>, x: int)
    requires p.Valid() && PrefixIn(t, prefix) && |prefix| < |Shape(t)| && n <= Shape(t)[|prefix|]
    requires |prefix| < |cidx| && 0 <= cidx[|prefix|] < n - 1
    ensures PrefixIn(t, prefix + [n - 1])
    ensures BlockLast(p, t, prefix + [n - 1], ext, TableCell(t, cidx), x) == x
  {
    PrefixExtend(t, prefix, n - 1);
    LaterCellsElsewhere(p, t, prefix, n - 1, ext, cidx);
    BlockMisses(p, t, prefix + [n - 1], ext, TableCell(t, cidx), x);
  }

  /** The cells under a later value of the loop read back into other cells than cidx. */
  lemma LaterCellsElsewhere(p: Params, t: TableId, prefix: seq<int>, i: int, ext: ExtFilter, cidx: seq<int>)
    requires p.Valid() && |prefix| < |cidx| && 0 <= cidx[|prefix|] < i
    ensures Unhit(p, t, prefix + [i], ext, TableCell(t, cidx))
  {
    forall idx | InRange(Shape(t), idx) && Extends(idx, prefix + [i]) && Printed(p, t, idx, ext)
      ensures Alias(t, idx)[|prefix|] != cidx[|prefix|]
    {
      ExtendsShorter(idx, prefix, i);
    }
  }

  /** A cell the dump prints under its own key: in its table, free of "NP", and not filtered out. */
  predicate PrintedCell(p: Params, ext: ExtFilter, c: Target)
    requires p.Valid()
  {
    c.TableCell? && InRange(Shape(c.t), c.idx) && AvoidsPairZero(c) && Printed(p, c.t, c.idx, ext)
  }

  /**
   * Loading the section of t sets every printed cell of t to its value and
   * leaves every other cell alone.
   */
  lemma SectionLastWrite(p: Params, t: TableId, ext: ExtFilter, c: Target, d: int)
    requires p.Valid() && AliasClosed(p, t, ext)
    ensures LastWrite(BlockSets(p, t, [], ext), c, d) ==
      if PrintedCell(p, ext, c) && c.t == t then p.At(t, c.idx) else d
  {
    BlockLastWrite(p, t, [], ext, c, d);
    SectionLast(p, t, ext, c, d);
  }

  /** What the section of t leaves in c, by the loops' order of the cells. */
  lemma SectionLast(p: Params, t: TableId, ext: ExtFilter, c: Target, d: int)
    requires p.Valid() && AliasClosed(p, t, ext)
    ensures BlockLast(p, t, [], ext, c, d) == if PrintedCell(p, ext, c) && c.t == t then p.At(t, c.idx) else d
  {
    if PrintedCell(p, ext, c) && c.t == t {
      assert Extends(c.idx, []);
      BlockHits(p, t, [], ext, c.idx, d);
    } else {
      UnprintedUnhit(p, t, ext, c);
      BlockMisses(p, t, [], ext, c, d);
    }
  }

  /**
   * A cell the section of t does not print under its own key receives no
   * line: the "NN" cell an "NP" line reads back into is printed itself.
   */
  lemma UnprintedUnhit(p: Params, t: TableId, ext: ExtFilter, c: Target)
    requires p.Valid() && AliasClosed(p, t, ext)
    requires !(PrintedCell(p, ext, c) && c.t == t)
    ensures Unhit(p, t, [], ext, c)
  {
    forall idx | InRange(Shape(t), idx) && Extends(idx, []) && Printed(p, t, idx, ext)
      ensures TableCell(t, Alias(t, idx)) != c
    {
      assert Printed(p, t, Alias(t, idx), ext);
    }
  }

  /** What the loader makes of the sections of ts, one after the other. */
  function SectionsSets(p: Params, ts: seq<TableId>, ext: ExtFilter): (es: seq<Effect>)
    requires p.Valid()
    ensures NoAbort(es)
  {
    if |ts| == 0 then []
    else
      var front, last := SectionsSets(p, ts[..|ts| - 1], ext), BlockSets(p, ts[|ts| - 1], [], ext);
      NoAbortAppend(front, last);
      front + last
  }

  /** Loading the sections of ts has the effects SectionsSets lists. */
  lemma {:induction false} SectionsEffects(p: Params, ts: seq<TableId>, ext: ExtFilter)
    requires p.Valid() && Fits(p)
    ensures Effects(Sections(p, ts, ext)) == SectionsSets(p, ts, ext)
  {
    if |ts| > 0 {
      var front, t := ts[..|ts| - 1], ts[|ts| - 1];
      SectionsEffects(p, front, ext);
      BlockEffects(p, t, [], ext);
      EffectsThrough(Sections(p, front, ext), Section(p, t, ext), Sections(p, ts, ext),
                     SectionsSets(p, front, ext), BlockSets(p, t, [], ext));
    }
  }

  /** The sections of ts set every printed cell of their tables, and nothing else. */
  lemma {:induction false} SectionsLastWrite(p: Params, ts: seq<TableId>, ext: ExtFilter, c: Target, d: int)
    requires p.Valid() && forall t :: AliasClosed(p, t, ext)
    ensures LastWrite(SectionsSets(p, ts, ext), c, d) ==
      if PrintedCell(p, ext, c) && c.t in ts then p.At(c.t, c.idx) else d
  {
    if |ts| > 0 {
      var front, t := ts[..|ts| - 1], ts[|ts| - 1];
      assert ts == front + [t];
      SectionsLastWrite(p, front, ext, c, d);
      var d' := LastWrite(SectionsSets(p, front, ext), c, d);
      SectionLastWrite(p, t, ext, c, d');
      LastWriteThrough(SectionsSets(p, front, ext), BlockSets(p, t, [], ext), SectionsSets(p, ts, ext),
                       c, d, d', LastWrite(BlockSets(p, t, [], ext), c, d'));
    }
  }

  /** Every table has its section in the dump. */
  lemma DumpOrderComplete(t: TableId)
    ensures t in DumpOrder
  {
    AllTablesListed();
    assert AllTables[TableIndex(t)] == t;
  }

  /** Effects none of which sets c leave it as it was. */
  lemma {:induction false} LastWriteNone(es: seq<Effect>, c: Target, d: int)
    requires forall i :: 0 <= i < |es| ==> !(es[i].Set? && es[i].target == c)
    ensures LastWrite(es, c, d) == d
    decreases |es|
  {
    if |es| > 0 {
      LastWriteNone(es[..|es| - 1], c, d);
    }
  }

  /** When effect i is the last that sets c, c ends up with its value. */
  lemma {:induction false} LastWriteFinal(es: seq<Effect>, i: nat, c: Target, d: int)
    requires i < |es| && es[i].Set? && es[i].target == c
    requires forall j :: i < j < |es| ==> !(es[j].Set? && es[j].target == c)
    ensures LastWrite(es, c, d) == es[i].value
    decreases |es|
  {
    if i < |es| - 1 {
      LastWriteFinal(es[..|es| - 1], i, c, d);
    }
  }

  /** Each scalar line sets its scalar. */
  lemma ScalarEffects(p: Params)
    requires forall s :: IsInt32(p.Scalar(s))
    ensures forall i :: 0 <= i < |ScalarOrder| ==> Effects(ScalarLines(p))[i] == Set(ScalarCell(ScalarOrder[i]), p.Scalar(ScalarOrder[i]))
  {
    forall i | 0 <= i < |ScalarOrder|
      ensures Effects(ScalarLines(p))[i] == Set(ScalarCell(ScalarOrder[i]), p.Scalar(ScalarOrder[i]))
    {
      ScalarEffect(p, ScalarOrder[i]);
    }
  }

  /** The scalar lines set the six scalars to their values, and nothing else. */
  lemma ScalarsLastWrite(p: Params, c: Target, d: int)
    requires forall s :: IsInt32(p.Scalar(s))
    ensures NoAbort(Effects(ScalarLines(p)))
    ensures LastWrite(Effects(ScalarLines(p)), c, d) == if c.ScalarCell? then p.Scalar(c.s) else d
  {
    ScalarEffects(p);
    ScalarSetsLastWrite(p, Effects(ScalarLines(p)), c, d);
  }

  /** Effects setting each scalar once, in the dump's order, leave every scalar with its value. */
  lemma ScalarSetsLastWrite(p: Params, es: seq<Effect>, c: Target, d: int)
    requires |es| == |ScalarOrder|
    requires forall i :: 0 <= i < |ScalarOrder| ==> es[i] == Set(ScalarCell(ScalarOrder[i]), p.Scalar(ScalarOrder[i]))
    ensures NoAbort(es)
    ensures LastWrite(es, c, d) == if c.ScalarCell? then p.Scalar(c.s) else d
  {
    if c.ScalarCell? {
      var i := ScalarPosition(c.s);
      assert es[i] == Set(c, p.Scalar(c.s));
      LastWriteFinal(es, i, c, d);
    } else {
      LastWriteNone(es, c, d);
    }
  }

  /** The value the dump hands the loader for cell c, or the cell's old value d when it hands none. */
  function Reloaded(p: Params, ext: ExtFilter, c: Target, d: int): int
    requires p.Valid()
  {
    if c.ScalarCell? then p.Scalar(c.s)
    else if PrintedCell(p, ext, c) then p.At(c.t, c.idx)
    else d
  }

  /**
   * Loading the dump onto any table init never throws, and leaves every
   * scalar and every printed cell with the dumped value and every other
   * cell as it was in init.
   */
  lemma DumpRoundTrip(p: Params, ext: ExtFilter, init: Params, c: Target)
    requires p.Valid() && Fits(p) && forall t :: AliasClosed(p, t, ext)
    requires init.Valid() && InBounds(c)
    ensures Sound(Effects(DumpLines(p, ext)))
    ensures Loaded(init, Effects(DumpLines(p, ext))).ok
    ensures Loaded(init, Effects(DumpLines(p, ext))).params.Get(c) == Reloaded(p, ext, c, init.Get(c))
  {
    var es := Effects(DumpLines(p, ext));
    var front := Effects(ScalarLines(p));
    var d := init.Get(c);
    DumpEffects(p, ext);
    EffectsSound(DumpLines(p, ext));
    ScalarsLastWrite(p, c, d);
    SectionsLastWrite(p, DumpOrder, ext, c, LastWrite(front, c, d));
    LastWriteThrough(front, SectionsSets(p, DumpOrder, ext), es, c, d, LastWrite(front, c, d),
                     LastWrite(SectionsSets(p, DumpOrder, ext), c, LastWrite(front, c, d)));
    if c.TableCell? {
      DumpOrderComplete(c.t);
    }
    LoadedLastWrite(init, es, c);
  }

  /** The loader reads the dump as the scalar lines' effects, then those of the sections. */
  lemma DumpEffects(p: Params, ext: ExtFilter)
    requires p.Valid() && Fits(p)
    ensures Effects(DumpLines(p, ext)) == Effects(ScalarLines(p)) + SectionsSets(p, DumpOrder, ext)
    ensures NoAbort(Effects(DumpLines(p, ext)))
  {
    SectionsEffects(p, DumpOrder, ext);
    EffectsThrough(ScalarLines(p), Sections(p, DumpOrder, ext), DumpLines(p, ext),
                   Effects(ScalarLines(p)), SectionsSets(p, DumpOrder, ext));
    ScalarsLastWrite(p, ScalarCell(MLIntern), 0);
    NoAbortAppend(Effects(ScalarLines(p)), SectionsSets(p, DumpOrder, ext));
  }

  /** Every cell a line sets lies inside its table. */
  lemma EffectsSound(lines: seq<string>)
    ensures Sound(Effects(lines))
  {
  }

  /**
   * With the external-mismatch section filtered on its own table, a dump
   * loaded into freshly allocated tables gives back every scalar and every
   * cell of a created table that is free of "NP": a cell the dump leaves
   * out holds VIE_INF, which is what allocation put there.
   */
  lemma CreatedTablesExact(p: Params, init: Params, c: Target)
    requires p.Valid() && Fits(p) && forall t :: AliasClosed(p, t, OwnTable)
    requires Allocated(init) && InBounds(c) && AvoidsPairZero(c)
    requires c.TableCell? ==> !IsPlain(c.t)
    ensures Loaded(init, Effects(DumpLines(p, OwnTable))).ok
    ensures Loaded(init, Effects(DumpLines(p, OwnTable))).params.Get(c) == p.Get(c)
  {
    DumpRoundTrip(p, OwnTable, init, c);
    if c.TableCell? && !PrintedCell(p, OwnTable, c) {
      SizeIsProduct(c.t);
      assert Offset(Shape(c.t), c.idx) < Size(c.t);
    }
  }

  /**
   * As written, the external-mismatch section is filtered on the
   * multi-loop table: a cell whose multi-loop value is VIE_INF is left out
   * even when its own value is not, so the reload keeps the allocated
   * VIE_INF instead of the value.
   */
  lemma ExtLostAsWritten(p: Params, init: Params, idx: seq<int>)
    requires p.Valid() && Fits(p) && forall t :: AliasClosed(p, t, MultiLoopTable)
    requires Allocated(init) && InRange(Shape(MismatchExt), idx) && AvoidsPairZero(TableCell(MismatchExt, idx))
    requires p.At(MismatchM, idx) == VIE_INF && p.At(MismatchExt, idx) != VIE_INF
    ensures Loaded(init, Effects(DumpLines(p, MultiLoopTable))).params.Get(TableCell(MismatchExt, idx)) != p.At(MismatchExt, idx)
  {
    var c := TableCell(MismatchExt, idx);
    DumpRoundTrip(p, MultiLoopTable, init, c);
    SizeIsProduct(MismatchExt);
    assert Offset(Shape(MismatchExt), idx) < Size(MismatchExt);
  }
}
