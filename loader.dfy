/**
 * parseEnergyData (energy_model.cpp): allocate the tables, read the file
 * line by line, and store each line's value in the cell its key names.
 *
 * The loaded state is a class whose fields are the source's globals: the
 * six scalars and one buffer per table. A line's effect, and the effect of
 * a whole sequence of lines, are also given as functions on `Params` values;
 * the loading method is proved to follow them.
 */
module Loader {
  import opened Options
  import opened Alphabet
  import opened NdArrays
  import opened ParamTable
  import opened Text
  import opened KeyDecoder

  /** What one line of the file does to the tables. */
  datatype Effect =
    | NoEffect                      // not "<key> <int>", an unknown key, or a rejected key
    | Set(target: Target, value: int)
    | Abort                         // std::stoi threw

  /** The effect of one line: `is >> key >> value`, then the key's rule. */
  function LineEffect(line: string): (e: Effect)
    ensures e.Set? ==> InBounds(e.target) && AvoidsPairZero(e.target) && IsInt32(e.value)
  {
    match ReadKeyValue(line)
    case None => NoEffect
    case Some((key, v)) => KeyEffect(Decode(key), v)
  }

  /** What a decoded key does with its value. */
  function KeyEffect(d: Decoded, v: int): (e: Effect)
    ensures e.Set? <==> d.Write?
    ensures e.Abort? <==> d.Throws?
    ensures e.Set? ==> e.target == d.target && e.value == v
  {
    match d
    case Write(c) => Set(c, v)
    case Throws => Abort
    case _ => NoEffect
  }

  /** The effects of the lines of a file, in order. */
  function Effects(lines: seq<string>): (es: seq<Effect>)
    ensures |es| == |lines|
  {
    seq(|lines|, i requires 0 <= i < |lines| => LineEffect(lines[i]))
  }

  /** The effects of a file are those of its parts, in order. */
  lemma EffectsAppend(a: seq<string>, b: seq<string>)
    ensures Effects(a + b) == Effects(a) + Effects(b)
  {
    var l, r := Effects(a + b), Effects(a) + Effects(b);
    forall i | 0 <= i < |a + b|
      ensures l[i] == r[i]
    {
      if i < |a| {
        assert (a + b)[i] == a[i];
      } else {
        assert (a + b)[i] == b[i - |a|];
      }
    }
  }

  /** The tables after a sequence of lines, and whether every line was handled without an exception. */
  datatype Outcome = Outcome(params: Params, ok: bool)

  /** One line's effect on the table p. */
  function Step(p: Params, e: Effect): (o: Outcome)
    requires p.Valid()
    requires e.Set? ==> InBounds(e.target)
    ensures o.params.Valid()
    ensures o.ok <==> !e.Abort?
  {
    match e
    case NoEffect => Outcome(p, true)
    case Set(c, v) => Outcome(p.Put(c, v), true)
    case Abort => Outcome(p, false)
  }

  /** Effects whose cells all lie inside their tables. */
  predicate Sound(es: seq<Effect>)
  {
    forall i :: 0 <= i < |es| && es[i].Set? ==> InBounds(es[i].target)
  }

  /**
   * Effects applied in order to the table p; loading stops at the first
   * line whose key made std::stoi throw.
   */
  function Loaded(p: Params, es: seq<Effect>): (o: Outcome)
    requires p.Valid() && Sound(es)
    ensures o.params.Valid()
    ensures o.ok <==> forall i :: 0 <= i < |es| ==> !es[i].Abort?
    decreases |es|
  {
    if |es| == 0 then Outcome(p, true)
    else
      var front := es[..|es| - 1];
      assert forall i :: 0 <= i < |front| ==> front[i] == es[i];
      var o := Loaded(p, front);
      if !o.ok then o else Step(o.params, es[|es| - 1])
  }

  /** Loading one more line: its effect, unless an earlier line has thrown. */
  lemma LoadedNext(p: Params, es: seq<Effect>, i: nat)
    requires p.Valid() && Sound(es) && i < |es|
    ensures Sound(es[..i]) && Sound(es[..i + 1])
    ensures Loaded(p, es[..i + 1]) ==
      (var o := Loaded(p, es[..i]); if o.ok then Step(o.params, es[i]) else o)
  {
    assert es[..i + 1][..i] == es[..i];
  }

  /** Once a line has thrown, later lines change nothing. */
  lemma {:induction false} LoadedStops(p: Params, es: seq<Effect>, n: nat)
    requires p.Valid() && Sound(es) && n <= |es|
    requires !Loaded(p, es[..n]).ok
    ensures Loaded(p, es) == Loaded(p, es[..n])
    decreases |es|
  {
    if n < |es| {
      var front := es[..|es| - 1];
      assert front[..n] == es[..n];
      LoadedStops(p, front, n);
    } else {
      assert es[..n] == es;
    }
  }

  /** Loading two pieces of a file one after the other is loading the whole file. */
  lemma {:induction false} LoadedAppend(p: Params, a: seq<Effect>, b: seq<Effect>)
    requires p.Valid() && Sound(a) && Sound(b)
    ensures Sound(a + b)
    ensures Loaded(p, a + b) ==
      (var o := Loaded(p, a); if o.ok then Loaded(o.params, b) else o)
    decreases |b|
  {
    assert forall i :: 0 <= i < |a + b| ==> (a + b)[i] == if i < |a| then a[i] else b[i - |a|];
    if |b| == 0 {
      assert a + b == a;
    } else {
      var front := b[..|b| - 1];
      assert (a + b)[..|a + b| - 1] == a + front;
      LoadedAppend(p, a, front);
    }
  }

  /** The value the last effect that sets cell c gives it, or d when none does. */
  function LastWrite(es: seq<Effect>, c: Target, d: int): int
    decreases |es|
  {
    if |es| == 0 then d
    else
      var e := es[|es| - 1];
      if e.Set? && e.target == c then e.value else LastWrite(es[..|es| - 1], c, d)
  }

  /** Later lines overrule earlier ones, piece by piece. */
  lemma {:induction false} LastWriteAppend(a: seq<Effect>, b: seq<Effect>, c: Target, d: int)
    ensures LastWrite(a + b, c, d) == LastWrite(b, c, LastWrite(a, c, d))
    decreases |b|
  {
    if |b| == 0 {
      assert a + b == a;
    } else {
      var front := b[..|b| - 1];
      assert (a + b)[..|a + b| - 1] == a + front;
      assert (a + b)[|a + b| - 1] == b[|b| - 1];
      LastWriteAppend(a, front, c, d);
    }
  }

  /**
   * When no line throws, every cell ends up with the value of the last line
   * that sets it, and keeps its value when no line does.
   */
  lemma {:induction false} LoadedLastWrite(p: Params, es: seq<Effect>, c: Target)
    requires p.Valid() && Sound(es) && InBounds(c)
    requires forall i :: 0 <= i < |es| ==> !es[i].Abort?
    ensures Loaded(p, es).ok
    ensures Loaded(p, es).params.Get(c) == LastWrite(es, c, p.Get(c))
    decreases |es|
  {
    if |es| > 0 {
      var front := es[..|es| - 1];
      assert forall i :: 0 <= i < |front| ==> front[i] == es[i];
      LoadedLastWrite(p, front, c);
      var e := es[|es| - 1];
      if e.Set? {
        PutGet(Loaded(p, front).params, e.target, e.value, c);
      }
    }
  }

  /**
   * The buffer of table t: `new int[n]` for a plain table, whose cells are
   * left unset, or a createNDArray call, whose cells are all VIE_INF.
   */
  method NewBuffer(t: TableId) returns (a: array<int>)
    ensures fresh(a) && a.Length == Size(t)
    ensures !IsPlain(t) ==> forall k :: 0 <= k < a.Length ==> a[k] == VIE_INF
  {
    SizeIsProduct(t);
    if IsPlain(t) {
      a := new int[Size(t)];
    } else {
      a := Create(Shape(t));
    }
  }

  /** The contents of every buffer. */
  function Contents(buffers: map<TableId, array<int>>): (m: map<TableId, seq<int>>)
    reads buffers.Values
    ensures m.Keys == buffers.Keys
  {
    map t | t in buffers :: buffers[t][..]
  }

  /** The table right after allocation: scalars zero, created tables VIE_INF, plain tables unset. */
  ghost predicate Allocated(p: Params)
  {
    p.Valid() &&
    p.mlIntern == 0 && p.mlClosing == 0 && p.mlBase == 0 &&
    p.maxNinio == 0 && p.ninio == 0 && p.terminalAU == 0 &&
    forall t :: !IsPlain(t) ==> forall k :: 0 <= k < Size(t) ==> p.tables[t][k] == VIE_INF
  }

  /** std::getline over the whole file, each line pushed onto `lines`. */
  method ReadLines(text: string) returns (lines: seq<string>)
    ensures lines == Lines(text)
  {
    lines := [];
    var pos := 0;
    while pos < |text|
      invariant 0 <= pos <= |text|
      invariant lines + Lines(text[pos..]) == Lines(text)
      decreases |text| - pos
    {
      var rest := text[pos..];
      var n := LineLength(rest);
      if n == |rest| {
        assert Lines(rest) == [rest];
        lines := lines + [rest];
        pos := |text|;
        assert Lines(text[pos..]) == [];
      } else {
        ghost var tail := Lines(rest[n + 1..]);
        assert Lines(rest) == [rest[..n]] + tail;
        assert rest[n + 1..] == text[pos + n + 1..];
        assert (lines + [rest[..n]]) + tail == lines + ([rest[..n]] + tail);
        lines := lines + [rest[..n]];
        pos := pos + n + 1;
      }
    }
  }

  /** The energy parameters the scoring functions read, as the loader keeps them. */
  class EnergyModel {
    var mlIntern: int
    var mlClosing: int
    var mlBase: int
    var maxNinio: int
    var ninio: int
    var terminalAU: int
    /** One buffer per table, each allocated on its own. */
    var tables: map<TableId, array<int>>
    /** Which table each buffer was allocated for. */
    ghost var owner: map<array<int>, TableId>
    ghost var Repr: set<array<int>>

    /** Every buffer present has its table's size and is owned by its table, so no two tables share one. */
    ghost predicate Partial()
      reads this
    {
      forall t :: t in tables ==> tables[t] in Repr && tables[t] in owner && owner[tables[t]] == t && tables[t].Length == Size(t)
    }

    ghost predicate Valid()
      reads this
    {
      Partial() && forall t :: t in tables
    }

    /** The state during allocation: scalars zero and every created table filled with VIE_INF. */
    ghost predicate AllocatedSoFar()
      reads this, Repr
    {
      Partial() &&
      mlIntern == 0 && mlClosing == 0 && mlBase == 0 && maxNinio == 0 && ninio == 0 && terminalAU == 0 &&
      forall t :: t in tables && !IsPlain(t) ==> forall k :: 0 <= k < tables[t].Length ==> tables[t][k] == VIE_INF
    }

    /** The tables as a value. */
    function Snapshot(): (p: Params)
      reads this, Repr
      requires Valid()
      ensures p.Valid()
    {
      Params(mlIntern, mlClosing, mlBase, maxNinio, ninio, terminalAU, Contents(tables))
    }


    /** Allocation of the tables: six plain buffers, twelve created filled with VIE_INF. */
    constructor ()
      ensures Valid() && fresh(Repr)
      ensures Allocated(Snapshot())
    {
      mlIntern, mlClosing, mlBase, maxNinio, ninio, terminalAU := 0, 0, 0, 0, 0, 0;
      tables, owner, Repr := map[], map[], {};
      new;
      AllTablesListed();
      for i := 0 to |AllTables|
        invariant AllocatedSoFar() && fresh(Repr)
        invariant forall t :: t in tables <==> t in AllTables[..i]
      {
        Allocate(AllTables[i]);
      }
      forall t
        ensures t in tables
      {
        assert AllTables[..|AllTables|][TableIndex(t)] == t;
      }
    }

    /** The allocation statement of table t: `new int[n]` for a plain table, createNDArray otherwise. */
    method Allocate(t: TableId)
      requires AllocatedSoFar() && t !in tables
      modifies this
      ensures AllocatedSoFar()
      ensures tables.Keys == old(tables.Keys) + {t} && fresh(tables[t])
      ensures forall u :: u in old(tables) ==> tables[u] == old(tables[u])
      ensures Repr == old(Repr) + {tables[t]}
    {
      var a := NewBuffer(t);
      tables, owner, Repr := tables[t := a], owner[a := t], Repr + {a};
    }

    /** The assignment to a scalar. */
    method StoreScalar(s: ScalarId, v: int)
      requires Valid()
      modifies this
      ensures Valid() && tables == old(tables) && owner == old(owner) && Repr == old(Repr)
      ensures Snapshot() == old(Snapshot()).Put(ScalarCell(s), v)
    {
      match s {
        case MLIntern => mlIntern := v;
        case MLClosing => mlClosing := v;
        case MLBase => mlBase := v;
        case MaxNinio => maxNinio := v;
        case Ninio => ninio := v;
        case TerminalAU => terminalAU := v;
      }
    }

    /** The assignment to entry idx of table t: one cell of its buffer, no other buffer. */
    method StoreEntry(t: TableId, idx: seq<int>, v: int)
      requires Valid() && InRange(Shape(t), idx)
      modifies tables[t]
      ensures Snapshot() == old(Snapshot()).Put(TableCell(t, idx), v)
    {
      ghost var before := Snapshot();
      var a := tables[t];
      SizeIsProduct(t);
      var k := Offset(Shape(t), idx);
      a[k] := v;
      assert before.Put(TableCell(t, idx), v).tables == before.tables[t := before.tables[t][k := v]];
      forall u | u in tables
        ensures tables[u][..] == before.tables[t := before.tables[t][k := v]][u]
      {
      }
      assert Contents(tables) == before.tables[t := before.tables[t][k := v]];
    }

    /** The effect of one line: split, decode, store. */
    method LoadLine(line: string) returns (ok: bool)
      requires Valid()
      modifies this, Repr
      ensures Valid() && tables == old(tables) && owner == old(owner) && Repr == old(Repr)
      ensures Outcome(Snapshot(), ok) == Step(old(Snapshot()), LineEffect(line))
    {
      ok := true;
      match ReadKeyValue(line) {
        case None =>
        case Some((key, value)) =>
          var d := DecodeKey(key);
          ok := Apply(d, value);
      }
    }

    /** Storing the value of a decoded key, or noting that std::stoi threw. */
    method Apply(d: Decoded, value: int) returns (ok: bool)
      requires Valid() && (d.Write? ==> InBounds(d.target))
      modifies this, Repr
      ensures Valid() && tables == old(tables) && owner == old(owner) && Repr == old(Repr)
      ensures Outcome(Snapshot(), ok) == Step(old(Snapshot()), KeyEffect(d, value))
    {
      ok := !d.Throws?;
      if d.Write? {
        if d.target.ScalarCell? {
          StoreScalar(d.target.s, value);
        } else {
          StoreEntry(d.target.t, d.target.idx, value);
        }
      }
    }

    /**
     * The parallel loop of parseEnergyData, run in file order: each line is
     * split into key and value, the key decoded, and the value stored.
     * ok is false when a key made std::stoi throw; loading stops there.
     */
    method Load(lines: seq<string>) returns (ok: bool)
      requires Valid()
      modifies this, Repr
      ensures Valid() && tables == old(tables) && owner == old(owner) && Repr == old(Repr)
      ensures Outcome(Snapshot(), ok) == Loaded(old(Snapshot()), Effects(lines))
    {
      ghost var p0, es := Snapshot(), Effects(lines);
      ok := true;
      var i := 0;
      while i < |lines| && ok
        invariant 0 <= i <= |lines|
        invariant Valid() && tables == old(tables) && owner == old(owner) && Repr == old(Repr)
        invariant Outcome(Snapshot(), ok) == Loaded(p0, es[..i])
      {
        LoadedNext(p0, es, i);
        ok := LoadLine(lines[i]);
        i := i + 1;
      }
      if ok {
        assert es[..i] == es;
      } else {
        LoadedStops(p0, es, i);
      }
    }
  }

  /**
   * parseEnergyData on the text of the file: allocation, then every line.
   * The result is what `Loaded` gives for a freshly allocated table.
   */
  method ParseEnergyData(text: string) returns (model: EnergyModel, ok: bool)
    ensures model.Valid() && fresh(model.Repr)
    ensures exists init :: Allocated(init) && Outcome(model.Snapshot(), ok) == Loaded(init, Effects(Lines(text)))
  {
    model := new EnergyModel();
    ghost var init := model.Snapshot();
    var lines := ReadLines(text);
    ok := model.Load(lines);
  }
}
