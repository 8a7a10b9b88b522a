/**
 * The parameter table: six scalars and eighteen lookup tables, with the
 * shapes energy_model.cpp allocates, and its value `Params` (the tables once
 * built, as the scoring functions read them).
 */
module ParamTable {
  import opened Alphabet
  import opened NdArrays

  /** The six scalar parameters. */
  datatype ScalarId = MLIntern | MLClosing | MLBase | MaxNinio | Ninio | TerminalAU

  /** The eighteen lookup tables, named after the source's globals. */
  datatype TableId =
    | Triloop | Tetraloop | Hexaloop             // Triloop37, Tetraloop37, Hexaloop37
    | Hairpin | Bulge | Internal                 // hairpin37, bulge37, internal_loop37
    | Stack                                      // stack37
    | MismatchH | MismatchM | MismatchExt        // mismatchH37, mismatchM37, mismatchExt37
    | MismatchI | Mismatch1nI | Mismatch23I      // mismatchI37, mismatch1nI37, mismatch23I37
    | Int11 | Int21 | Int22                      // int11_37, int21_37, int22_37
    | Dangle5 | Dangle3                          // dangle5_37, dangle3_37

  /** The tables in the order energy_model.cpp allocates them. */
  const AllTables: seq<TableId> :=
    [Triloop, Tetraloop, Hexaloop, Hairpin, Bulge, Internal, Stack,
     MismatchH, MismatchM, MismatchExt, MismatchI, Mismatch1nI, Mismatch23I,
     Int11, Int21, Int22, Dangle5, Dangle3]

  /** Position of a table in AllTables. */
  function TableIndex(t: TableId): nat
  {
    match t
    case Triloop => 0 case Tetraloop => 1 case Hexaloop => 2 case Hairpin => 3
    case Bulge => 4 case Internal => 5 case Stack => 6 case MismatchH => 7
    case MismatchM => 8 case MismatchExt => 9 case MismatchI => 10 case Mismatch1nI => 11
    case Mismatch23I => 12 case Int11 => 13 case Int21 => 14 case Int22 => 15
    case Dangle5 => 16 case Dangle3 => 17
  }

  /** AllTables lists every table exactly once. */
  lemma AllTablesListed()
    ensures forall t :: TableIndex(t) < |AllTables| && AllTables[TableIndex(t)] == t
    ensures forall i :: 0 <= i < |AllTables| ==> TableIndex(AllTables[i]) == i
  {
  }

  const PAIR_DIM: nat := NBPAIRS + 1
  const LOOP_DIM: nat := MAXLOOPSIZE + 1

  /**
   * The dimensions each table is allocated with, written as numbers:
   * 31 is LOOP_DIM (MAXLOOPSIZE + 1), 8 is PAIR_DIM (NBPAIRS + 1), 5 is NUCS_NUM.
   */
  function Shape(t: TableId): (dims: seq<nat>)
    ensures 1 <= |dims| <= 6
  {
    match t
    case Triloop => [2]
    case Tetraloop => [16]
    case Hexaloop => [4]
    case Hairpin | Bulge | Internal => [31]
    case Stack => [8, 8]
    case MismatchH | MismatchM | MismatchExt | MismatchI | Mismatch1nI | Mismatch23I => [8, 5, 5]
    case Int11 => [8, 8, 5, 5]
    case Int21 => [8, 8, 5, 5, 5]
    case Int22 => [8, 8, 5, 5, 5, 5]
    case Dangle5 | Dangle3 => [8, 5]
  }

  /** The one-dimensional tables are plain `new int[n]`; the others come from createNDArray. */
  predicate IsPlain(t: TableId)
  {
    t.Triloop? || t.Tetraloop? || t.Hexaloop? || t.Hairpin? || t.Bulge? || t.Internal?
  }

  /** Number of leading pair-code dimensions of a table. */
  function PairDims(t: TableId): nat
  {
    match t
    case Stack | Int11 | Int21 | Int22 => 2
    case MismatchH | MismatchM | MismatchExt | MismatchI | Mismatch1nI | Mismatch23I => 1
    case Dangle5 | Dangle3 => 1
    case _ => 0
  }

  /** Pair dimensions come first, nucleotide dimensions after them; plain tables have neither. */
  lemma ShapeLayout(t: TableId)
    ensures IsPlain(t) <==> PairDims(t) == 0
    ensures PairDims(t) <= |Shape(t)|
    ensures forall k :: 0 <= k < PairDims(t) ==> Shape(t)[k] == PAIR_DIM
    ensures !IsPlain(t) ==> forall k :: PairDims(t) <= k < |Shape(t)| ==> Shape(t)[k] == NUCS_NUM
  {
  }

  /** Number of cells of a table. */
  function Size(t: TableId): nat
  {
    match t
    case Triloop => 2
    case Tetraloop => 16
    case Hexaloop => 4
    case Hairpin | Bulge | Internal => 31      // LOOP_DIM
    case Stack => 64                           // PAIR_DIM^2
    case MismatchH | MismatchM | MismatchExt | MismatchI | Mismatch1nI | Mismatch23I =>
      200                                      // PAIR_DIM * NUCS_NUM^2
    case Int11 => 1600                         // PAIR_DIM^2 * NUCS_NUM^2
    case Int21 => 8000                         // PAIR_DIM^2 * NUCS_NUM^3
    case Int22 => 40000                        // PAIR_DIM^2 * NUCS_NUM^4
    case Dangle5 | Dangle3 => 40               // PAIR_DIM * NUCS_NUM
  }

  /** The size is the product of the dimensions, so every in-range index has a cell. */
  lemma SizeIsProduct(t: TableId)
    ensures Size(t) == Product(Shape(t))
    ensures IsPlain(t) <==> |Shape(t)| == 1
  {
    ProductUnrolled(Shape(t));
  }

  /** One cell of the parameter table: a scalar, or an entry of a table. */
  datatype Target = ScalarCell(s: ScalarId) | TableCell(t: TableId, idx: seq<int>)

  predicate InBounds(c: Target)
  {
    c.ScalarCell? || InRange(Shape(c.t), c.idx)
  }

  /** The parameter table as a value. */
  datatype Params = Params(
    mlIntern: int, mlClosing: int, mlBase: int, maxNinio: int, ninio: int, terminalAU: int,
    tables: map<TableId, seq<int>>)
  {
    ghost predicate Valid()
    {
      forall t :: t in tables && |tables[t]| == Size(t)
    }

    function Scalar(s: ScalarId): int
    {
      match s
      case MLIntern => mlIntern
      case MLClosing => mlClosing
      case MLBase => mlBase
      case MaxNinio => maxNinio
      case Ninio => ninio
      case TerminalAU => terminalAU
    }

    /** Entry idx of table t. */
    function At(t: TableId, idx: seq<int>): int
      requires Valid() && InRange(Shape(t), idx)
    {
      SizeIsProduct(t);
      tables[t][Offset(Shape(t), idx)]
    }

    function Get(c: Target): int
      requires Valid() && InBounds(c)
    {
      match c
      case ScalarCell(s) => Scalar(s)
      case TableCell(t, idx) => At(t, idx)
    }

    /** The table with cell c set to v; PutGet says what it holds. */
    function Put(c: Target, v: int): (q: Params)
      requires Valid() && InBounds(c)
      ensures q.Valid()
    {
      match c
      case ScalarCell(s) =>
        (match s
         case MLIntern => this.(mlIntern := v)
         case MLClosing => this.(mlClosing := v)
         case MLBase => this.(mlBase := v)
         case MaxNinio => this.(maxNinio := v)
         case Ninio => this.(ninio := v)
         case TerminalAU => this.(terminalAU := v))
      case TableCell(t, idx) =>
        SizeIsProduct(t);
        this.(tables := tables[t := tables[t][Offset(Shape(t), idx) := v]])
    }
  }

  /** After p.Put(c, v), cell c holds v and every other cell is as before. */
  lemma PutGet(p: Params, c: Target, v: int, d: Target)
    requires p.Valid() && InBounds(c) && InBounds(d)
    ensures p.Put(c, v).Get(d) == if d == c then v else p.Get(d)
  {
    if c.TableCell? && d.TableCell? && c.t == d.t {
      SizeIsProduct(c.t);
      if d != c {
        OffsetInjective(Shape(c.t), c.idx, d.idx);
      }
    }
  }
}
