/**
 * The dump read back by the loader: every line the dump prints decodes to
 * the cell it was printed for (a cell whose pair index is "NP" reads back
 * as the "NN" cell, since 'P' is not a nucleotide letter), so loading the
 * dump into freshly allocated tables gives back every printed cell.
 */
module RoundTrip {
  import opened Options
  import opened Alphabet
  import opened NdArrays
  import opened ParamTable
  import opened Text
  import opened KeyDecoder
  import opened Loader
  import opened Dump
  import opened KeyRoutes

  /** The cell a dumped cell is read back into: pair index 0 ("NP") becomes 7 ("NN"). */
  function Alias(t: TableId, idx: seq<int>): (r: seq<int>)
    ensures |r| == |idx|
    ensures forall k :: 0 <= k < |idx| ==> r[k] == if k < PairDims(t) && idx[k] == 0 then NBPAIRS else idx[k]
    ensures InRange(Shape(t), idx) ==> InRange(Shape(t), r) && AvoidsPairZero(TableCell(t, r))
    ensures AvoidsPairZero(TableCell(t, idx)) ==> r == idx
  {
    ShapeLayout(t);
    seq(|idx|, k requires 0 <= k < |idx| => if k < PairDims(t) && idx[k] == 0 then NBPAIRS else idx[k])
  }

  /** The letters of the size tag that survive the removal of '_'. */
  function TagLetters(t: TableId): (s: string)
    ensures |s| == Lead(t)
  {
    match t
    case Mismatch1nI => "1n"
    case Mismatch23I => "23"
    case Int11 => "11"
    case Int21 => "21"
    case Int22 => "22"
    case _ => ""
  }

  lemma TagRemoved(t: TableId)
    ensures RemoveAll(Tag(t), '_') == TagLetters(t)
  {
    match t
    case Mismatch1nI => SeparatorAfterTwo('1', 'n');
    case Mismatch23I => SeparatorAfterTwo('2', '3');
    case Int11 => SeparatorAfterEach('1', '1');
    case Int21 => SeparatorAfterEach('2', '1');
    case Int22 => SeparatorAfterEach('2', '2');
    case _ =>
  }

  /** A tag of two letters and one separator loses the separator. */
  lemma SeparatorAfterTwo(x: char, y: char)
    requires x != '_' && y != '_'
    ensures RemoveAll([x, y, '_'], '_') == [x, y]
  {
    assert RemoveAll(['_'], '_') == [] by { assert ['_'][1..] == []; }
    assert RemoveAll([y, '_'], '_') == [y] by { assert [y, '_'][1..] == ['_']; }
    assert [x, y, '_'][1..] == [y, '_'];
  }

  /** A tag of two letters, each followed by a separator, loses both separators. */
  lemma SeparatorAfterEach(x: char, y: char)
    requires x != '_' && y != '_'
    ensures RemoveAll([x, '_', y, '_'], '_') == [x, y]
  {
    assert RemoveAll(['_'], '_') == [] by { assert ['_'][1..] == []; }
    assert RemoveAll([y, '_'], '_') == [y] by { assert [y, '_'][1..] == ['_']; }
    assert RemoveAll(['_', y, '_'], '_') == [y] by { assert ['_', y, '_'][1..] == [y, '_']; }
    assert [x, '_', y, '_'][1..] == ['_', y, '_'];
  }

  /** Names use only pair-name and nucleotide letters. */
  predicate Letter(c: char)
  {
    c == 'A' || c == 'C' || c == 'G' || c == 'U' || c == 'N' || c == 'P'
  }

  lemma NamesLetters(t: TableId, idx: seq<int>)
    requires !IsPlain(t) && InRange(Shape(t), idx)
    ensures forall i, k :: 0 <= i < |idx| && 0 <= k < |Names(t, idx)[i]| ==> Letter(Names(t, idx)[i][k])
  {
    ShapeLayout(t);
  }

  lemma {:induction false} JoinLetters(ns: seq<string>)
    requires forall i, k :: 0 <= i < |ns| && 0 <= k < |ns[i]| ==> Letter(ns[i][k])
    ensures forall k :: 0 <= k < |Join(ns)| ==> Letter(Join(ns)[k]) || Join(ns)[k] == '_'
    decreases |ns|
  {
    if |ns| > 1 {
      var front := ns[..|ns| - 1];
      assert forall i :: 0 <= i < |front| ==> front[i] == ns[i];
      JoinLetters(front);
    }
  }

  lemma {:induction false} ConcatLetters(ns: seq<string>)
    requires forall i, k :: 0 <= i < |ns| && 0 <= k < |ns[i]| ==> Letter(ns[i][k])
    ensures forall k :: 0 <= k < |Concat(ns)| ==> Letter(Concat(ns)[k])
    decreases |ns|
  {
    if |ns| > 0 {
      var front := ns[..|ns| - 1];
      assert forall i :: 0 <= i < |front| ==> front[i] == ns[i];
      ConcatLetters(front);
    }
  }

  /** Removing the separators of a joined list leaves the names written together. */
  lemma {:induction false} JoinRemoved(ns: seq<string>)
    requires forall i :: 0 <= i < |ns| ==> '_' !in ns[i]
    ensures RemoveAll(Join(ns), '_') == Concat(ns)
    decreases |ns|
  {
    if |ns| == 1 {
      RemoveAllAbsent(ns[0], '_');
      assert Concat(ns) == Concat(ns[..0]) + ns[0];
    } else if |ns| > 1 {
      var front, last := ns[..|ns| - 1], ns[|ns| - 1];
      var a := Join(front);
      assert RemoveAll(a, '_') == Concat(front) by {
        assert forall i :: 0 <= i < |front| ==> front[i] == ns[i];
        JoinRemoved(front);
      }
      SeparatorRemoved(a, last);
      assert Join(ns) == a + "_" + last;
      assert Concat(ns) == Concat(front) + last;
    }
  }

  /** Removing the separators of "a_last" removes the one before last and those in a. */
  lemma SeparatorRemoved(a: string, last: string)
    requires '_' !in last
    ensures RemoveAll(a + "_" + last, '_') == RemoveAll(a, '_') + last
  {
    var b := a + "_";
    RemoveAllAppend(b, last, '_');
    RemoveAllAppend(a, "_", '_');
    RemoveAllAbsent(last, '_');
    assert RemoveAll("_", '_') == [] by {
      assert "_"[1..] == [];
    }
    var x := RemoveAll(a, '_');
    assert RemoveAll(b, '_') == x + [];
    assert x + [] == x;
    assert RemoveAll(b + last, '_') == RemoveAll(b, '_') + RemoveAll(last, '_');
  }

  lemma ConcatSnoc(ns: seq<string>, k: nat)
    requires k < |ns|
    ensures Concat(ns[..k + 1]) == Concat(ns[..k]) + ns[k]
  {
    assert ns[..k + 1][..k] == ns[..k];
  }

  /** Letter i of name k sits after the names before k. */
  lemma {:induction false} ConcatAt(ns: seq<string>, k: nat, i: nat)
    requires k < |ns| && i < |ns[k]|
    ensures |Concat(ns[..k])| + i < |Concat(ns)|
    ensures Concat(ns)[|Concat(ns[..k])| + i] == ns[k][i]
    decreases |ns|
  {
    var front := ns[..|ns| - 1];
    if k < |ns| - 1 {
      assert front[..k] == ns[..k] && front[k] == ns[k];
      ConcatAt(front, k, i);
    } else {
      assert front == ns[..k];
    }
  }

  /** The names before index k take as many letters as the slots before index k. */
  lemma {:induction false} NamesWidth(t: TableId, idx: seq<int>, k: nat)
    requires !IsPlain(t) && InRange(Shape(t), idx) && k <= |idx|
    ensures |Concat(Names(t, idx)[..k])| == SlotPos(t, k) - Lead(t)
    decreases k
  {
    if k > 0 {
      ShapeLayout(t);
      NamesWidth(t, idx, k - 1);
      ConcatSnoc(Names(t, idx), k - 1);
    }
  }

  /** The letters an indexed rule reads for a dumped cell. */
  function Spelling(t: TableId, idx: seq<int>): string
    requires !IsPlain(t) && InRange(Shape(t), idx)
  {
    TagLetters(t) + Concat(Names(t, idx))
  }

  /** updateNucsIdx stores the loader code of each letter. */
  lemma NucsIdxAt(s: string, k: nat)
    requires k < |s|
    ensures NucsIdx(s)[k] == NucIndex(s[k])
  {
  }

  /** Letter i of the name of index k sits in the slot SlotPos(t, k) + i. */
  lemma SpellingAt(t: TableId, idx: seq<int>, k: nat, i: nat)
    requires !IsPlain(t) && InRange(Shape(t), idx) && k < |idx| && i < |Names(t, idx)[k]|
    ensures SlotPos(t, k) + i < |Spelling(t, idx)|
    ensures NucsIdx(Spelling(t, idx))[SlotPos(t, k) + i] == NucIndex(Names(t, idx)[k][i])
  {
    NamesWidth(t, idx, k);
    ConcatAt(Names(t, idx), k, i);
    NucsIdxAt(Spelling(t, idx), SlotPos(t, k) + i);
  }

  /** Index k is read back from its slots as the alias of the dumped index. */
  lemma ReadIndexBack(t: TableId, idx: seq<int>, k: nat)
    requires !IsPlain(t) && InRange(Shape(t), idx) && k < |idx|
    ensures ReadIndex(t, NucsIdx(Spelling(t, idx)), k) == Some(Alias(t, idx)[k])
  {
    if k < PairDims(t) {
      PairBack(t, idx, k);
    } else {
      NucleotideBack(t, idx, k);
    }
  }

  /** A pair name is read from its two slots through NUM_TO_PAIR. */
  lemma PairBack(t: TableId, idx: seq<int>, k: nat)
    requires !IsPlain(t) && InRange(Shape(t), idx) && k < |idx| && k < PairDims(t)
    ensures ReadIndex(t, NucsIdx(Spelling(t, idx)), k) == Some(Alias(t, idx)[k])
  {
    PairSlots(t, idx, k);
    PairRead(t, Spelling(t, idx), k, idx[k]);
  }

  /** The two slots of pair index k hold the loader codes of the letters of its pair name. */
  lemma PairSlots(t: TableId, idx: seq<int>, k: nat)
    requires !IsPlain(t) && InRange(Shape(t), idx) && k < |idx| && k < PairDims(t)
    ensures IsPairCode(idx[k]) && |PAIRS[idx[k]]| == 2 && SlotPos(t, k) + 1 < |Spelling(t, idx)|
    ensures NucsIdx(Spelling(t, idx))[SlotPos(t, k)] == NucIndex(PAIRS[idx[k]][0])
    ensures NucsIdx(Spelling(t, idx))[SlotPos(t, k) + 1] == NucIndex(PAIRS[idx[k]][1])
  {
    PairNameAt(t, idx, k);
    SpellingAt(t, idx, k, 0);
    SpellingAt(t, idx, k, 1);
  }

  /** Pair index k is dumped as the two-letter pair name of its code. */
  lemma PairNameAt(t: TableId, idx: seq<int>, k: nat)
    requires !IsPlain(t) && InRange(Shape(t), idx) && k < |idx| && k < PairDims(t)
    ensures IsPairCode(idx[k]) && Names(t, idx)[k] == PAIRS[idx[k]] && |PAIRS[idx[k]]| == 2
  {
    ShapeLayout(t);
    PairNameCode(idx[k]);
  }

  /** Slots holding the two letters of pair name c are read as c, with "NP" read as "NN". */
  lemma PairRead(t: TableId, s: string, k: nat, c: int)
    requires k < PairDims(t) && IsPairCode(c) && |PAIRS[c]| == 2 && SlotPos(t, k) + 1 < |s|
    requires NucsIdx(s)[SlotPos(t, k)] == NucIndex(PAIRS[c][0])
    requires NucsIdx(s)[SlotPos(t, k) + 1] == NucIndex(PAIRS[c][1])
    ensures ReadIndex(t, NucsIdx(s), k) == Some(if c == 0 then NBPAIRS else c)
  {
    PairNameCode(c);
  }

  /** A nucleotide letter is read from its slot as its loader code. */
  lemma NucleotideBack(t: TableId, idx: seq<int>, k: nat)
    requires !IsPlain(t) && InRange(Shape(t), idx) && PairDims(t) <= k < |idx|
    ensures ReadIndex(t, NucsIdx(Spelling(t, idx)), k) == Some(Alias(t, idx)[k])
  {
    assert 0 <= idx[k] < NUCS_NUM && Names(t, idx)[k] == [C_NUCS[idx[k]]] by {
      ShapeLayout(t);
    }
    NucIndexOfLetter(idx[k]);
    SpellingAt(t, idx, k, 0);
  }

  /** The slots the dumped letters fill: at most the ten of the buffer. */
  lemma SpellingLength(t: TableId, idx: seq<int>)
    requires !IsPlain(t) && InRange(Shape(t), idx)
    ensures |Spelling(t, idx)| == SlotPos(t, |idx|) <= NUCS_BUF
  {
    NamesWidth(t, idx, |idx|);
    assert Names(t, idx)[..|idx|] == Names(t, idx);
  }

  /** Every index of a dumped cell reads back as the index of its alias. */
  lemma IndicesBack(t: TableId, idx: seq<int>)
    requires !IsPlain(t) && InRange(Shape(t), idx)
    ensures forall k :: 0 <= k < |Shape(t)| ==> ReadIndex(t, NucsIdx(Spelling(t, idx)), k) == Some(Alias(t, idx)[k])
  {
    forall k | 0 <= k < |Shape(t)|
      ensures ReadIndex(t, NucsIdx(Spelling(t, idx)), k) == Some(Alias(t, idx)[k])
    {
      ReadIndexBack(t, idx, k);
    }
  }

  /** The letters of a dumped cell fit the buffer and spell the alias of the cell. */
  lemma CellBack(t: TableId, idx: seq<int>)
    requires !IsPlain(t) && InRange(Shape(t), idx)
    ensures |Spelling(t, idx)| <= NUCS_BUF
    ensures CellOf(t, NucsIdx(Spelling(t, idx))) == Some(Alias(t, idx))
  {
    SpellingLength(t, idx);
    var codes := NucsIdx(Spelling(t, idx));
    IndicesBack(t, idx);
    var cell := seq(|Shape(t)|, k requires 0 <= k < |Shape(t)| => ReadIndex(t, codes, k).value);
    assert cell == Alias(t, idx);
  }

  /** The letters a key's rule reads after its prefix, with the '_' removed. */
  function Remainder(t: TableId, idx: seq<int>): string
    requires InRange(Shape(t), idx)
  {
    if IsPlain(t) then Decimal(idx[0]) else Spelling(t, idx)
  }

  /** The indices of a dumped key use only digits (length keys) or name letters and '_'. */
  lemma IndexTextLetters(t: TableId, idx: seq<int>)
    requires InRange(Shape(t), idx)
    ensures IsPlain(t) ==> forall c :: c in IndexText(t, idx) ==> IsDigit(c)
    ensures !IsPlain(t) ==> forall c :: c in IndexText(t, idx) ==> NameChar(c)
    ensures IsPlain(t) ==> RemoveAll(IndexText(t, idx), '_') == IndexText(t, idx)
    ensures !IsPlain(t) ==> RemoveAll(IndexText(t, idx), '_') == Concat(Names(t, idx))
  {
    var body := IndexText(t, idx);
    if IsPlain(t) {
      assert body == DecimalDigits(idx[0]);
      RemoveAllAbsent(body, '_');
    } else {
      var ns := Names(t, idx);
      NamesLetters(t, idx);
      if t == Stack {
        ConcatLetters(ns);
        RemoveAllAbsent(body, '_');
      } else {
        JoinLetters(ns);
        forall i | 0 <= i < |ns|
          ensures '_' !in ns[i]
        {
          assert forall k :: 0 <= k < |ns[i]| ==> Letter(ns[i][k]);
        }
        JoinRemoved(ns);
      }
      forall c | c in body
        ensures NameChar(c)
      {
        var k :| 0 <= k < |body| && body[k] == c;
      }
    }
  }

  /** No rule before the table's own one has its prefix in a dumped key. */
  lemma Routed(t: TableId, body: string)
    requires IsPlain(t) ==> forall c :: c in body ==> IsDigit(c)
    requires !IsPlain(t) ==> forall c :: c in body ==> NameChar(c)
    ensures FirstRule(KeyPrefix(t) + body, 0) == FirstMatch(KeyPrefix(t) + body, Patterns, RuleOf(t))
  {
    if t == Triloop || t == Tetraloop || t == Hexaloop || t == Hairpin || t == Bulge || t == Internal || t == Stack || t == MismatchH || t == MismatchM {
      RoutedEarly(t, body);
    } else {
      RoutedLate(t, body);
    }
  }

  /** Routed, for the length tables, the stack and the hairpin and multi-loop mismatches. */
  lemma RoutedEarly(t: TableId, body: string)
    requires t == Triloop || t == Tetraloop || t == Hexaloop || t == Hairpin || t == Bulge || t == Internal || t == Stack || t == MismatchH || t == MismatchM
    requires IsPlain(t) ==> forall c :: c in body ==> IsDigit(c)
    requires !IsPlain(t) ==> forall c :: c in body ==> NameChar(c)
    ensures FirstRule(KeyPrefix(t) + body, 0) == FirstMatch(KeyPrefix(t) + body, Patterns, RuleOf(t))
  {
    match t
    case Triloop =>
      assert KeyPrefix(t) == "triloop_length_";
      RouteTriloop(body);
    case Tetraloop =>
      assert KeyPrefix(t) == "tetraloop_length_";
      RouteTetraloop(body);
    case Hexaloop =>
      assert KeyPrefix(t) == "hexaloop_length_";
      RouteHexaloop(body);
    case Hairpin =>
      assert KeyPrefix(t) == "hairpin_length_";
      RouteHairpin(body);
    case Bulge =>
      assert KeyPrefix(t) == "bulge_length_";
      RouteBulge(body);
    case Internal =>
      assert KeyPrefix(t) == "internal_length_";
      RouteInternal(body);
    case Stack =>
      assert KeyPrefix(t) == "stack_";
      RouteStack(body);
    case MismatchH =>
      assert KeyPrefix(t) == "terminal_mismatch_hairpin_";
      RouteMismatchH(body);
    case MismatchM =>
      assert KeyPrefix(t) == "terminal_mismatch_multi_";
      RouteMismatchM(body);
  }

  /** Routed, for the remaining tables. */
  lemma RoutedLate(t: TableId, body: string)
    requires t == MismatchExt || t == MismatchI || t == Mismatch1nI || t == Mismatch23I || t == Int11 || t == Int21 || t == Int22 || t == Dangle5 || t == Dangle3
    requires IsPlain(t) ==> forall c :: c in body ==> IsDigit(c)
    requires !IsPlain(t) ==> forall c :: c in body ==> NameChar(c)
    ensures FirstRule(KeyPrefix(t) + body, 0) == FirstMatch(KeyPrefix(t) + body, Patterns, RuleOf(t))
  {
    match t
    case MismatchExt =>
      assert KeyPrefix(t) == "terminal_mismatch_external_";
      RouteMismatchExt(body);
    case MismatchI =>
      assert KeyPrefix(t) == "terminal_mismatch_internal_";
      RouteMismatchI(body);
    case Mismatch1nI =>
      assert KeyPrefix(t) == "terminal_mismatch_internal_1n_";
      RouteMismatch1nI(body);
    case Mismatch23I =>
      assert KeyPrefix(t) == "terminal_mismatch_internal_23_";
      RouteMismatch23I(body);
    case Int11 =>
      assert KeyPrefix(t) == "internal_explicit_1_1_";
      RouteInt11(body);
    case Int21 =>
      assert KeyPrefix(t) == "internal_explicit_2_1_";
      RouteInt21(body);
    case Int22 =>
      assert KeyPrefix(t) == "internal_explicit_2_2_";
      RouteInt22(body);
    case Dangle5 =>
      assert KeyPrefix(t) == "dangle_5_";
      RouteDangle5(body);
    case Dangle3 =>
      assert KeyPrefix(t) == "dangle_3_";
      RouteDangle3(body);
  }

  /** Rule j matches a key that starts with its prefix and strips that prefix. */
  lemma RuleMatchesAt(j: nat, rest: string)
    requires j < RULE_COUNT
    ensures FirstMatch(Pattern(j) + rest, Patterns, j) == Some((j, RemoveAll(rest, '_')))
  {
    DecodeLeadingPrefix(Pattern(j), rest);
  }

  /** The table's own rule matches a key that starts with its prefix. */
  lemma OwnRuleMatches(t: TableId, body: string)
    ensures FirstMatch(KeyPrefix(t) + body, Patterns, RuleOf(t)) == Some((RuleOf(t), RemoveAll(Tag(t) + body, '_')))
  {
    var j := RuleOf(t);
    assert KeyPrefix(t) + body == Pattern(j) + (Tag(t) + body);
    RuleMatchesAt(j, Tag(t) + body);
  }

  /** What the table's rule leaves of a dumped key once it removed every '_'. */
  lemma RemainderOfKey(t: TableId, idx: seq<int>)
    requires InRange(Shape(t), idx)
    ensures RemoveAll(Tag(t) + IndexText(t, idx), '_') == Remainder(t, idx)
  {
    IndexTextLetters(t, idx);
    RemoveAllAppend(Tag(t), IndexText(t, idx), '_');
    TagRemoved(t);
    if IsPlain(t) {
      assert Tag(t) == "" && TagLetters(t) == "";
    }
  }

  /** A dumped key reaches the rule of its table, which strips it to the remainder. */
  lemma KeyReachesRule(t: TableId, idx: seq<int>)
    requires InRange(Shape(t), idx)
    ensures FirstRule(EntryKey(t, idx), 0) == Some((RuleOf(t), Remainder(t, idx)))
  {
    var body := IndexText(t, idx);
    IndexTextLetters(t, idx);
    Routed(t, body);
    OwnRuleMatches(t, body);
    RemainderOfKey(t, idx);
  }

  /** The action of a table's rule: a length, its own cells, or one of the internal-loop choices. */
  lemma ActionOf(t: TableId)
    ensures RuleAction(RuleOf(t)) ==
      if IsPlain(t) then SetLength(t)
      else if RuleOf(t) == 18 then SetInternalMismatch
      else if RuleOf(t) == 19 then SetInternalExplicit
      else SetIndexed(t)
  {
    match t
    case Triloop =>
    case Tetraloop =>
    case Hexaloop =>
    case Hairpin =>
    case Bulge =>
    case Internal =>
    case _ =>
  }

  /** The size tag of a dumped internal-loop key selects the table it was dumped from. */
  lemma TableChosen(t: TableId, idx: seq<int>)
    requires !IsPlain(t) && InRange(Shape(t), idx)
    ensures RuleOf(t) == 18 ==> InternalMismatchTable(Spelling(t, idx)) == t
    ensures RuleOf(t) == 19 ==> InternalExplicitTable(Spelling(t, idx)) == t
  {
    var s := Spelling(t, idx);
    SpellingLength(t, idx);
    if t == MismatchI {
      NamesLetters(t, idx);
      ConcatLetters(Names(t, idx));
      assert s == Concat(Names(t, idx));
      assert |s| == 4 && Letter(s[0]);
    } else if Lead(t) == 2 {
      assert s[..2] == TagLetters(t);
      assert s[0] == TagLetters(t)[0] && s[1] == TagLetters(t)[1];
    }
  }

  /** Decoding a key is performing the action of the rule it reaches. */
  lemma DecodeVia(key: string, j: nat, rest: string)
    requires FirstRule(key, 0) == Some((j, rest))
    ensures Decode(key) == Perform(RuleAction(j), rest)
  {
  }

  /** std::stoi reads the printed decimal index of a length key back. */
  lemma LengthBack(t: TableId, idx: seq<int>)
    requires IsPlain(t) && InRange(Shape(t), idx)
    ensures Perform(SetLength(t), Decimal(idx[0])) == Write(TableCell(t, Alias(t, idx)))
  {
    ShapeLayout(t);
    assert Alias(t, idx) == idx;
    var s := Decimal(idx[0]);
    assert SkipSpace(s) == s by {
      assert IsDigit(s[0]);
    }
    ParseDecimal(idx[0]);
    assert idx == [idx[0]];
  }

  /** The letters of a dumped multi-dimensional key are read back as the alias of its cell. */
  lemma LettersBack(t: TableId, idx: seq<int>)
    requires !IsPlain(t) && InRange(Shape(t), idx)
    ensures Perform(RuleAction(RuleOf(t)), Spelling(t, idx)) == Write(TableCell(t, Alias(t, idx)))
  {
    ActionOf(t);
    CellBack(t, idx);
    TableChosen(t, idx);
  }

  /**
   * Every key the dump prints decodes to the cell it was printed for, except
   * that a pair index 0 ("NP") is read as 7 ("NN").
   */
  lemma EntryKeyDecodes(t: TableId, idx: seq<int>)
    requires InRange(Shape(t), idx)
    ensures Decode(EntryKey(t, idx)) == Write(TableCell(t, Alias(t, idx)))
  {
    KeyReachesRule(t, idx);
    DecodeVia(EntryKey(t, idx), RuleOf(t), Remainder(t, idx));
    if IsPlain(t) {
      ActionOf(t);
      LengthBack(t, idx);
    } else {
      LettersBack(t, idx);
    }
  }

  /** A letter, a digit or '_': never whitespace. */
  predicate KeyChar(c: char)
  {
    'a' <= c <= 'z' || 'A' <= c <= 'Z' || IsDigit(c) || c == '_'
  }

  /** Every key prefix is a non-empty run of letters, digits and '_'. */
  lemma PrefixChars(t: TableId)
    ensures |KeyPrefix(t)| > 0
    ensures forall c :: c in KeyPrefix(t) ==> KeyChar(c)
  {
    PatternChars(RuleOf(t));
    assert forall c :: c in Tag(t) ==> KeyChar(c);
  }

  /** The prefix of every rule is a non-empty run of letters and '_'. */
  lemma PatternChars(j: nat)
    requires j < RULE_COUNT
    ensures |Pattern(j)| > 0
    ensures forall c :: c in Pattern(j) ==> KeyChar(c)
  {
    if j < 10 {
      EarlyPatternChars(j);
    } else {
      LatePatternChars(j);
    }
  }

  lemma EarlyPatternChars(j: nat)
    requires j < 10
    ensures |Pattern(j)| > 0
    ensures forall c :: c in Pattern(j) ==> KeyChar(c)
  {
  }

  lemma LatePatternChars(j: nat)
    requires 10 <= j < RULE_COUNT
    ensures |Pattern(j)| > 0
    ensures forall c :: c in Pattern(j) ==> KeyChar(c)
  {
  }

  /** A dumped key is one whitespace-free token, as `is >> key` reads it. */
  lemma KeyIsToken(t: TableId, idx: seq<int>)
    requires InRange(Shape(t), idx)
    ensures |EntryKey(t, idx)| > 0
    ensures forall k :: 0 <= k < |EntryKey(t, idx)| ==> !IsSpace(EntryKey(t, idx)[k])
  {
    PrefixChars(t);
    IndexTextLetters(t, idx);
    var key := EntryKey(t, idx);
    forall k | 0 <= k < |key|
      ensures !IsSpace(key[k])
    {
      if k < |KeyPrefix(t)| {
        assert key[k] in KeyPrefix(t);
      } else {
        assert key[k] in IndexText(t, idx);
      }
    }
  }

  /**
   * The line printed for a cell sets the cell it reads back as to the
   * printed value, when that value fits the int the loader reads.
   */
  lemma EntryEffect(p: Params, t: TableId, idx: seq<int>)
    requires p.Valid() && InRange(Shape(t), idx) && IsInt32(p.At(t, idx))
    ensures LineEffect(EntryLine(p, t, idx)) == Set(TableCell(t, Alias(t, idx)), p.At(t, idx))
  {
    KeyIsToken(t, idx);
    ReadPrinted(EntryKey(t, idx), p.At(t, idx));
    EntryKeyDecodes(t, idx);
  }

  /** The rule of a scalar key. */
  function ScalarRule(s: ScalarId): (j: nat)
    ensures j < RULE_COUNT && RuleAction(j) == SetScalar(s)
  {
    match s
    case MLIntern => 0
    case MLClosing => 1
    case MLBase => 2
    case MaxNinio => 3
    case Ninio => 4
    case TerminalAU => 5
  }

  /** Every scalar key the dump prints reaches the rule of its scalar. */
  lemma ScalarKeyReachesRule(s: ScalarId)
    ensures exists rest :: FirstRule(ScalarKey(s), 0) == Some((ScalarRule(s), rest))
  {
    var j := ScalarRule(s);
    var tail := if s == MaxNinio then "" else "37";
    assert ScalarKey(s) == Pattern(j) + tail;
    RuleMatchesAt(j, tail);
    match s
    case MLIntern =>
    case MLClosing => RouteMLClosing();
    case MLBase => RouteMLBase();
    case MaxNinio => RouteMaxNinio();
    case Ninio => RouteNinio();
    case TerminalAU => RouteTerminalAU();
  }

  /** The line printed for a scalar sets that scalar to the printed value. */
  lemma ScalarEffect(p: Params, s: ScalarId)
    requires IsInt32(p.Scalar(s))
    ensures LineEffect(ScalarLine(p, s)) == Set(ScalarCell(s), p.Scalar(s))
  {
    var key := ScalarKey(s);
    assert |key| > 0 && forall c :: c in key ==> KeyChar(c);
    forall k | 0 <= k < |key|
      ensures !IsSpace(key[k])
    {
      assert key[k] in key;
    }
    ReadPrinted(key, p.Scalar(s));
    ScalarKeyReachesRule(s);
    var rest :| FirstRule(key, 0) == Some((ScalarRule(s), rest));
    DecodeVia(key, ScalarRule(s), rest);
  }
}
