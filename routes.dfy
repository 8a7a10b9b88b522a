/**
 * Which rule of the if-chain a dumped key reaches. The rules are tried in
 * order and the first whose prefix occurs anywhere in the key wins, so a
 * key reaches its own rule only when no earlier prefix occurs in it. For
 * each kind of key this holds because every earlier prefix has a letter
 * the key cannot contain (the position of that letter is listed per
 * lemma); "ninio" is ruled out for the triloop keys by counting: it has
 * two 'n's, and those keys have one.
 */
module KeyRoutes {
  import opened Text
  import opened KeyDecoder

  /** A letter of a pair name or a nucleotide name, or the separator. */
  predicate NameChar(c: char)
  {
    c == 'A' || c == 'C' || c == 'G' || c == 'U' || c == 'N' || c == 'P' || c == '_'
  }

  /**
   * "ninio" does not occur in a triloop key, so rule 4 is passed over: a
   * window spelling it has an 'n' at two places, and the key has one 'n'.
   */
  lemma NinioPassedOver(suffix: string)
    requires forall c :: c in suffix ==> IsDigit(c)
    ensures FirstMatch("triloop_length_" + suffix, Patterns, 4) == FirstMatch("triloop_length_" + suffix, Patterns, 5)
  {
    var key := "triloop_length_" + suffix;
    assert !Occurs(key, Patterns[4]) by {
      TriloopOneN(suffix);
      NinioTwoN();
      OccursCount(key, Patterns[4], 'n');
    }
    PassOver(key, Patterns, 4, 5);
  }

  /** A triloop key has one 'n', the one of "length": its index is digits. */
  lemma TriloopOneN(suffix: string)
    requires forall c :: c in suffix ==> IsDigit(c)
    ensures multiset("triloop_length_" + suffix)['n'] == 1
  {
    var key := "triloop_length_" + suffix;
    forall k | 0 <= k < |suffix|
      ensures IsDigit(suffix[k])
    {
      assert suffix[k] in suffix;
    }
    assert key[10] == 'n';
    assert 'n' !in key[..10] by {
      if 'n' in key[..10] {
        var m :| 0 <= m < 10 && key[..10][m] == 'n';
        OnlyOneN(suffix, m);
      }
    }
    assert 'n' !in key[11..] by {
      if 'n' in key[11..] {
        var m :| 0 <= m < |key[11..]| && key[11..][m] == 'n';
        OnlyOneN(suffix, m + 11);
      }
    }
    OneCopy(key[..10], 'n', key[11..]);
    assert key == key[..10] + ['n'] + key[11..];
  }

  /** The only 'n' of a triloop key is the one of "length". */
  lemma OnlyOneN(suffix: string, m: int)
    requires forall k :: 0 <= k < |suffix| ==> IsDigit(suffix[k])
    requires 0 <= m < |"triloop_length_" + suffix| && ("triloop_length_" + suffix)[m] == 'n'
    ensures m == 10
  {
  }

  /** The rule-4 prefix "ninio" has two 'n's. */
  lemma NinioTwoN()
    ensures multiset(Patterns[4])['n'] == 2
  {
    assert Patterns[4] == "ninio";
  }

  /** A letter between two stretches without it occurs once. */
  lemma OneCopy(a: string, ch: char, b: string)
    requires ch !in a && ch !in b
    ensures multiset(a + [ch] + b)[ch] == 1
  {
    assert multiset(a + [ch] + b) == multiset(a) + multiset{ch} + multiset(b);
  }

  /** The letters of the keys of the Triloop table. */
  predicate SpelledTriloop(c: char) { c == '_' || c == 'e' || c == 'g' || c == 'h' || c == 'i' || c == 'l' || c == 'n' || c == 'o' || c == 'p' || c == 'r' || c == 't' || IsDigit(c) }

  lemma RouteTriloop(suffix: string)
    requires forall c :: c in suffix ==> IsDigit(c)
    ensures FirstMatch("triloop_length_" + suffix, Patterns, 0) == FirstMatch("triloop_length_" + suffix, Patterns, 6)
  {
    var key := "triloop_length_" + suffix;
    assert forall c :: c in key ==> SpelledTriloop(c);
    var pos: seq<nat> := [0, 0, 0, 0, 0, 0];
    WitnessTriloop(pos);
    PassOverByLetters(key, Patterns, 0, 4, pos, SpelledTriloop);
    NinioPassedOver(suffix);
    PassOverByLetters(key, Patterns, 5, 6, pos, SpelledTriloop);
  }

  /** The letters of the keys of the Tetraloop table. */
  predicate SpelledTetraloop(c: char) { c == '_' || c == 'a' || c == 'e' || c == 'g' || c == 'h' || c == 'l' || c == 'n' || c == 'o' || c == 'p' || c == 'r' || c == 't' || IsDigit(c) }

  lemma RouteTetraloop(suffix: string)
    requires forall c :: c in suffix ==> IsDigit(c)
    ensures FirstMatch("tetraloop_length_" + suffix, Patterns, 0) == FirstMatch("tetraloop_length_" + suffix, Patterns, 7)
  {
    var key := "tetraloop_length_" + suffix;
    assert forall c :: c in key ==> SpelledTetraloop(c);
    var pos: seq<nat> := [0, 0, 0, 0, 1, 0, 2];
    WitnessTetraloop(pos);
    PassOverByLetters(key, Patterns, 0, 7, pos, SpelledTetraloop);
  }

  /** The letters of the keys of the Hexaloop table. */
  predicate SpelledHexaloop(c: char) { c == '_' || c == 'a' || c == 'e' || c == 'g' || c == 'h' || c == 'l' || c == 'n' || c == 'o' || c == 'p' || c == 't' || c == 'x' || IsDigit(c) }

  lemma RouteHexaloop(suffix: string)
    requires forall c :: c in suffix ==> IsDigit(c)
    ensures FirstMatch("hexaloop_length_" + suffix, Patterns, 0) == FirstMatch("hexaloop_length_" + suffix, Patterns, 8)
  {
    var key := "hexaloop_length_" + suffix;
    assert forall c :: c in key ==> SpelledHexaloop(c);
    var pos: seq<nat> := [0, 0, 0, 0, 1, 0, 1, 3];
    WitnessHexaloop(pos);
    PassOverByLetters(key, Patterns, 0, 8, pos, SpelledHexaloop);
  }

  /** The letters of the keys of the Hairpin table. */
  predicate SpelledHairpin(c: char) { c == '_' || c == 'a' || c == 'e' || c == 'g' || c == 'h' || c == 'i' || c == 'l' || c == 'n' || c == 'p' || c == 'r' || c == 't' || IsDigit(c) }

  lemma RouteHairpin(suffix: string)
    requires forall c :: c in suffix ==> IsDigit(c)
    ensures FirstMatch("hairpin_length_" + suffix, Patterns, 0) == FirstMatch("hairpin_length_" + suffix, Patterns, 9)
  {
    var key := "hairpin_length_" + suffix;
    assert forall c :: c in key ==> SpelledHairpin(c);
    var pos: seq<nat> := [0, 0, 0, 0, 4, 0, 4, 6, 2];
    WitnessHairpin(pos);
    PassOverByLetters(key, Patterns, 0, 9, pos, SpelledHairpin);
  }

  /** The letters of the keys of the Internal table. */
  predicate SpelledInternal(c: char) { c == '_' || c == 'a' || c == 'e' || c == 'g' || c == 'h' || c == 'i' || c == 'l' || c == 'n' || c == 'r' || c == 't' || IsDigit(c) }

  lemma RouteInternal(suffix: string)
    requires forall c :: c in suffix ==> IsDigit(c)
    ensures FirstMatch("internal_length_" + suffix, Patterns, 0) == FirstMatch("internal_length_" + suffix, Patterns, 10)
  {
    var key := "internal_length_" + suffix;
    assert forall c :: c in key ==> SpelledInternal(c);
    var pos: seq<nat> := [0, 0, 0, 0, 4, 0, 4, 6, 2, 4];
    WitnessInternal(pos);
    PassOverByLetters(key, Patterns, 0, 10, pos, SpelledInternal);
  }

  /** The letters of the keys of the Bulge table. */
  predicate SpelledBulge(c: char) { c == '_' || c == 'b' || c == 'e' || c == 'g' || c == 'h' || c == 'l' || c == 'n' || c == 't' || c == 'u' || IsDigit(c) }

  lemma RouteBulge(suffix: string)
    requires forall c :: c in suffix ==> IsDigit(c)
    ensures FirstMatch("bulge_length_" + suffix, Patterns, 0) == FirstMatch("bulge_length_" + suffix, Patterns, 11)
  {
    var key := "bulge_length_" + suffix;
    assert forall c :: c in key ==> SpelledBulge(c);
    var pos: seq<nat> := [0, 0, 0, 0, 1, 0, 1, 3, 2, 1, 0];
    WitnessBulge(pos);
    PassOverByLetters(key, Patterns, 0, 11, pos, SpelledBulge);
  }

  /** The letters of the keys of the Stack table. */
  predicate SpelledStack(c: char) { c == 'A' || c == 'C' || c == 'G' || c == 'N' || c == 'P' || c == 'U' || c == '_' || c == 'a' || c == 'c' || c == 'k' || c == 's' || c == 't' }

  lemma RouteStack(suffix: string)
    requires forall c :: c in suffix ==> NameChar(c)
    ensures FirstMatch("stack_" + suffix, Patterns, 0) == FirstMatch("stack_" + suffix, Patterns, 12)
  {
    var key := "stack_" + suffix;
    assert forall c :: c in key ==> SpelledStack(c);
    var pos: seq<nat> := [0, 0, 0, 0, 0, 0, 1, 1, 0, 0, 0, 0];
    WitnessStack(pos);
    PassOverByLetters(key, Patterns, 0, 12, pos, SpelledStack);
  }

  /** The letters of the keys of the MismatchH table. */
  predicate SpelledMismatchH(c: char) { c == 'A' || c == 'C' || c == 'G' || c == 'N' || c == 'P' || c == 'U' || c == '_' || c == 'a' || c == 'c' || c == 'e' || c == 'h' || c == 'i' || c == 'l' || c == 'm' || c == 'n' || c == 'p' || c == 'r' || c == 's' || c == 't' }

  lemma RouteMismatchH(suffix: string)
    requires forall c :: c in suffix ==> NameChar(c)
    ensures FirstMatch("terminal_mismatch_hairpin_" + suffix, Patterns, 0) == FirstMatch("terminal_mismatch_hairpin_" + suffix, Patterns, 13)
  {
    var key := "terminal_mismatch_hairpin_" + suffix;
    assert forall c :: c in key ==> SpelledMismatchH(c);
    var pos: seq<nat> := [0, 0, 0, 0, 4, 0, 4, 6, 2, 11, 12, 0, 4];
    WitnessMismatchH(pos);
    PassOverByLetters(key, Patterns, 0, 13, pos, SpelledMismatchH);
  }

  /** The letters of the keys of the MismatchM table. */
  predicate SpelledMismatchM(c: char) { c == 'A' || c == 'C' || c == 'G' || c == 'N' || c == 'P' || c == 'U' || c == '_' || c == 'a' || c == 'c' || c == 'e' || c == 'h' || c == 'i' || c == 'l' || c == 'm' || c == 'n' || c == 'r' || c == 's' || c == 't' || c == 'u' }

  lemma RouteMismatchM(suffix: string)
    requires forall c :: c in suffix ==> NameChar(c)
    ensures FirstMatch("terminal_mismatch_multi_" + suffix, Patterns, 0) == FirstMatch("terminal_mismatch_multi_" + suffix, Patterns, 14)
  {
    var key := "terminal_mismatch_multi_" + suffix;
    assert forall c :: c in key ==> SpelledMismatchM(c);
    var pos: seq<nat> := [0, 0, 0, 0, 4, 0, 4, 6, 2, 4, 12, 0, 4, 22];
    WitnessMismatchM(pos);
    PassOverByLetters(key, Patterns, 0, 14, pos, SpelledMismatchM);
  }

  /** The letters of the keys of the MismatchExt table. */
  predicate SpelledMismatchExt(c: char) { c == 'A' || c == 'C' || c == 'G' || c == 'N' || c == 'P' || c == 'U' || c == '_' || c == 'a' || c == 'c' || c == 'e' || c == 'h' || c == 'i' || c == 'l' || c == 'm' || c == 'n' || c == 'r' || c == 's' || c == 't' || c == 'x' }

  lemma RouteMismatchExt(suffix: string)
    requires forall c :: c in suffix ==> NameChar(c)
    ensures FirstMatch("terminal_mismatch_external_" + suffix, Patterns, 0) == FirstMatch("terminal_mismatch_external_" + suffix, Patterns, 15)
  {
    var key := "terminal_mismatch_external_" + suffix;
    assert forall c :: c in key ==> SpelledMismatchExt(c);
    var pos: seq<nat> := [0, 0, 0, 0, 4, 0, 4, 6, 5, 4, 12, 0, 4, 22, 19];
    WitnessMismatchExt(pos);
    PassOverByLetters(key, Patterns, 0, 15, pos, SpelledMismatchExt);
  }

  /** The letters of the keys of the Dangle5 table. */
  predicate SpelledDangle5(c: char) { c == '5' || c == 'A' || c == 'C' || c == 'G' || c == 'N' || c == 'P' || c == 'U' || c == '_' || c == 'a' || c == 'd' || c == 'e' || c == 'g' || c == 'l' || c == 'n' }

  lemma RouteDangle5(suffix: string)
    requires forall c :: c in suffix ==> NameChar(c)
    ensures FirstMatch("dangle_5_" + suffix, Patterns, 0) == FirstMatch("dangle_5_" + suffix, Patterns, 16)
  {
    var key := "dangle_5_" + suffix;
    assert forall c :: c in key ==> SpelledDangle5(c);
    var pos: seq<nat> := [0, 0, 0, 0, 1, 0, 0, 0, 0, 0, 0, 0, 0, 0, 0, 0];
    WitnessDangle5(pos);
    PassOverByLetters(key, Patterns, 0, 16, pos, SpelledDangle5);
  }

  /** The letters of the keys of the Dangle3 table. */
  predicate SpelledDangle3(c: char) { c == '3' || c == 'A' || c == 'C' || c == 'G' || c == 'N' || c == 'P' || c == 'U' || c == '_' || c == 'a' || c == 'd' || c == 'e' || c == 'g' || c == 'l' || c == 'n' }

  lemma RouteDangle3(suffix: string)
    requires forall c :: c in suffix ==> NameChar(c)
    ensures FirstMatch("dangle_3_" + suffix, Patterns, 0) == FirstMatch("dangle_3_" + suffix, Patterns, 17)
  {
    var key := "dangle_3_" + suffix;
    assert forall c :: c in key ==> SpelledDangle3(c);
    var pos: seq<nat> := [0, 0, 0, 0, 1, 0, 0, 0, 0, 0, 0, 0, 0, 0, 0, 0, 7];
    WitnessDangle3(pos);
    PassOverByLetters(key, Patterns, 0, 17, pos, SpelledDangle3);
  }

  /** The letters of the keys of the MismatchI table. */
  predicate SpelledMismatchI(c: char) { c == 'A' || c == 'C' || c == 'G' || c == 'N' || c == 'P' || c == 'U' || c == '_' || c == 'a' || c == 'c' || c == 'e' || c == 'h' || c == 'i' || c == 'l' || c == 'm' || c == 'n' || c == 'r' || c == 's' || c == 't' }

  lemma RouteMismatchI(suffix: string)
    requires forall c :: c in suffix ==> NameChar(c)
    ensures FirstMatch("terminal_mismatch_internal_" + suffix, Patterns, 0) == FirstMatch("terminal_mismatch_internal_" + suffix, Patterns, 18)
  {
    var key := "terminal_mismatch_internal_" + suffix;
    assert forall c :: c in key ==> SpelledMismatchI(c);
    var pos: seq<nat> := [0, 0, 0, 0, 4, 0, 4, 6, 2, 4, 12, 0, 4, 22, 19, 19, 0, 0];
    WitnessMismatchI(pos);
    PassOverByLetters(key, Patterns, 0, 18, pos, SpelledMismatchI);
  }

  /** The letters of the keys of the Mismatch1nI table. */
  predicate SpelledMismatch1nI(c: char) { c == '1' || c == 'A' || c == 'C' || c == 'G' || c == 'N' || c == 'P' || c == 'U' || c == '_' || c == 'a' || c == 'c' || c == 'e' || c == 'h' || c == 'i' || c == 'l' || c == 'm' || c == 'n' || c == 'r' || c == 's' || c == 't' }

  lemma RouteMismatch1nI(suffix: string)
    requires forall c :: c in suffix ==> NameChar(c)
    ensures FirstMatch("terminal_mismatch_internal_1n_" + suffix, Patterns, 0) == FirstMatch("terminal_mismatch_internal_1n_" + suffix, Patterns, 18)
  {
    var key := "terminal_mismatch_internal_1n_" + suffix;
    assert forall c :: c in key ==> SpelledMismatch1nI(c);
    var pos: seq<nat> := [0, 0, 0, 0, 4, 0, 4, 6, 2, 4, 12, 0, 4, 22, 19, 19, 0, 0];
    WitnessMismatch1nI(pos);
    PassOverByLetters(key, Patterns, 0, 18, pos, SpelledMismatch1nI);
  }

  /** The letters of the keys of the Mismatch23I table. */
  predicate SpelledMismatch23I(c: char) { c == '2' || c == '3' || c == 'A' || c == 'C' || c == 'G' || c == 'N' || c == 'P' || c == 'U' || c == '_' || c == 'a' || c == 'c' || c == 'e' || c == 'h' || c == 'i' || c == 'l' || c == 'm' || c == 'n' || c == 'r' || c == 's' || c == 't' }

  lemma RouteMismatch23I(suffix: string)
    requires forall c :: c in suffix ==> NameChar(c)
    ensures FirstMatch("terminal_mismatch_internal_23_" + suffix, Patterns, 0) == FirstMatch("terminal_mismatch_internal_23_" + suffix, Patterns, 18)
  {
    var key := "terminal_mismatch_internal_23_" + suffix;
    assert forall c :: c in key ==> SpelledMismatch23I(c);
    var pos: seq<nat> := [0, 0, 0, 0, 4, 0, 4, 6, 2, 4, 12, 0, 4, 22, 19, 19, 0, 0];
    WitnessMismatch23I(pos);
    PassOverByLetters(key, Patterns, 0, 18, pos, SpelledMismatch23I);
  }

  /** The letters of the keys of the Int11 table. */
  predicate SpelledInt11(c: char) { c == '1' || c == 'A' || c == 'C' || c == 'G' || c == 'N' || c == 'P' || c == 'U' || c == '_' || c == 'a' || c == 'c' || c == 'e' || c == 'i' || c == 'l' || c == 'n' || c == 'p' || c == 'r' || c == 't' || c == 'x' }

  lemma RouteInt11(suffix: string)
    requires forall c :: c in suffix ==> NameChar(c)
    ensures FirstMatch("internal_explicit_1_1_" + suffix, Patterns, 0) == FirstMatch("internal_explicit_1_1_" + suffix, Patterns, 19)
  {
    var key := "internal_explicit_1_1_" + suffix;
    assert forall c :: c in key ==> SpelledInt11(c);
    var pos: seq<nat> := [0, 0, 0, 0, 4, 0, 4, 6, 0, 0, 12, 0, 0, 3, 3, 3, 0, 0, 3];
    WitnessInt11(pos);
    PassOverByLetters(key, Patterns, 0, 19, pos, SpelledInt11);
  }

  /** The letters of the keys of the Int21 table. */
  predicate SpelledInt21(c: char) { c == '1' || c == '2' || c == 'A' || c == 'C' || c == 'G' || c == 'N' || c == 'P' || c == 'U' || c == '_' || c == 'a' || c == 'c' || c == 'e' || c == 'i' || c == 'l' || c == 'n' || c == 'p' || c == 'r' || c == 't' || c == 'x' }

  lemma RouteInt21(suffix: string)
    requires forall c :: c in suffix ==> NameChar(c)
    ensures FirstMatch("internal_explicit_2_1_" + suffix, Patterns, 0) == FirstMatch("internal_explicit_2_1_" + suffix, Patterns, 19)
  {
    var key := "internal_explicit_2_1_" + suffix;
    assert forall c :: c in key ==> SpelledInt21(c);
    var pos: seq<nat> := [0, 0, 0, 0, 4, 0, 4, 6, 0, 0, 12, 0, 0, 3, 3, 3, 0, 0, 3];
    WitnessInt21(pos);
    PassOverByLetters(key, Patterns, 0, 19, pos, SpelledInt21);
  }

  /** The letters of the keys of the Int22 table. */
  predicate SpelledInt22(c: char) { c == '2' || c == 'A' || c == 'C' || c == 'G' || c == 'N' || c == 'P' || c == 'U' || c == '_' || c == 'a' || c == 'c' || c == 'e' || c == 'i' || c == 'l' || c == 'n' || c == 'p' || c == 'r' || c == 't' || c == 'x' }

  lemma RouteInt22(suffix: string)
    requires forall c :: c in suffix ==> NameChar(c)
    ensures FirstMatch("internal_explicit_2_2_" + suffix, Patterns, 0) == FirstMatch("internal_explicit_2_2_" + suffix, Patterns, 19)
  {
    var key := "internal_explicit_2_2_" + suffix;
    assert forall c :: c in key ==> SpelledInt22(c);
    var pos: seq<nat> := [0, 0, 0, 0, 4, 0, 4, 6, 0, 0, 12, 0, 0, 3, 3, 3, 0, 0, 3];
    WitnessInt22(pos);
    PassOverByLetters(key, Patterns, 0, 19, pos, SpelledInt22);
  }

  /** Each of the first 6 prefixes but "ninio" has, at the listed position, a letter no Triloop key contains. */
  lemma WitnessTriloop(pos: seq<nat>)
    requires pos == [0, 0, 0, 0, 0, 0]
    ensures forall i :: 0 <= i < 6 && i != 4 ==> pos[i] < |Patterns[i]| && !SpelledTriloop(Patterns[i][pos[i]])
  {
  }

  /** Each of the first 7 prefixes has, at the listed position, a letter no Tetraloop key contains. */
  lemma WitnessTetraloop(pos: seq<nat>)
    requires pos == [0, 0, 0, 0, 1, 0, 2]
    ensures forall i :: 0 <= i < 7 ==> pos[i] < |Patterns[i]| && !SpelledTetraloop(Patterns[i][pos[i]])
  {
  }

  /** Each of the first 8 prefixes has, at the listed position, a letter no Hexaloop key contains. */
  lemma WitnessHexaloop(pos: seq<nat>)
    requires pos == [0, 0, 0, 0, 1, 0, 1, 3]
    ensures forall i :: 0 <= i < 8 ==> pos[i] < |Patterns[i]| && !SpelledHexaloop(Patterns[i][pos[i]])
  {
  }

  /** Each of the first 9 prefixes has, at the listed position, a letter no Hairpin key contains. */
  lemma WitnessHairpin(pos: seq<nat>)
    requires pos == [0, 0, 0, 0, 4, 0, 4, 6, 2]
    ensures forall i :: 0 <= i < 9 ==> pos[i] < |Patterns[i]| && !SpelledHairpin(Patterns[i][pos[i]])
  {
  }

  /** Each of the first 10 prefixes has, at the listed position, a letter no Internal key contains. */
  lemma WitnessInternal(pos: seq<nat>)
    requires pos == [0, 0, 0, 0, 4, 0, 4, 6, 2, 4]
    ensures forall i :: 0 <= i < 10 ==> pos[i] < |Patterns[i]| && !SpelledInternal(Patterns[i][pos[i]])
  {
  }

  /** Each of the first 11 prefixes has, at the listed position, a letter no Bulge key contains. */
  lemma WitnessBulge(pos: seq<nat>)
    requires pos == [0, 0, 0, 0, 1, 0, 1, 3, 2, 1, 0]
    ensures forall i :: 0 <= i < 11 ==> pos[i] < |Patterns[i]| && !SpelledBulge(Patterns[i][pos[i]])
  {
  }

  /** Each of the first 12 prefixes has, at the listed position, a letter no Stack key contains. */
  lemma WitnessStack(pos: seq<nat>)
    requires pos == [0, 0, 0, 0, 0, 0, 1, 1, 0, 0, 0, 0]
    ensures forall i :: 0 <= i < 12 ==> pos[i] < |Patterns[i]| && !SpelledStack(Patterns[i][pos[i]])
  {
  }

  /** Each of the first 13 prefixes has, at the listed position, a letter no MismatchH key contains. */
  lemma WitnessMismatchH(pos: seq<nat>)
    requires pos == [0, 0, 0, 0, 4, 0, 4, 6, 2, 11, 12, 0, 4]
    ensures forall i :: 0 <= i < 13 ==> pos[i] < |Patterns[i]| && !SpelledMismatchH(Patterns[i][pos[i]])
  {
  }

  /** Each of the first 14 prefixes has, at the listed position, a letter no MismatchM key contains. */
  lemma WitnessMismatchM(pos: seq<nat>)
    requires pos == [0, 0, 0, 0, 4, 0, 4, 6, 2, 4, 12, 0, 4, 22]
    ensures forall i :: 0 <= i < 14 ==> pos[i] < |Patterns[i]| && !SpelledMismatchM(Patterns[i][pos[i]])
  {
  }

  /** Each of the first 15 prefixes has, at the listed position, a letter no MismatchExt key contains. */
  lemma WitnessMismatchExt(pos: seq<nat>)
    requires pos == [0, 0, 0, 0, 4, 0, 4, 6, 5, 4, 12, 0, 4, 22, 19]
    ensures forall i :: 0 <= i < 15 ==> pos[i] < |Patterns[i]| && !SpelledMismatchExt(Patterns[i][pos[i]])
  {
  }

  /** Each of the first 16 prefixes has, at the listed position, a letter no Dangle5 key contains. */
  lemma WitnessDangle5(pos: seq<nat>)
    requires pos == [0, 0, 0, 0, 1, 0, 0, 0, 0, 0, 0, 0, 0, 0, 0, 0]
    ensures forall i :: 0 <= i < 16 ==> pos[i] < |Patterns[i]| && !SpelledDangle5(Patterns[i][pos[i]])
  {
  }

  /** Each of the first 17 prefixes has, at the listed position, a letter no Dangle3 key contains. */
  lemma WitnessDangle3(pos: seq<nat>)
    requires pos == [0, 0, 0, 0, 1, 0, 0, 0, 0, 0, 0, 0, 0, 0, 0, 0, 7]
    ensures forall i :: 0 <= i < 17 ==> pos[i] < |Patterns[i]| && !SpelledDangle3(Patterns[i][pos[i]])
  {
  }

  /** Each of the first 18 prefixes has, at the listed position, a letter no MismatchI key contains. */
  lemma WitnessMismatchI(pos: seq<nat>)
    requires pos == [0, 0, 0, 0, 4, 0, 4, 6, 2, 4, 12, 0, 4, 22, 19, 19, 0, 0]
    ensures forall i :: 0 <= i < 18 ==> pos[i] < |Patterns[i]| && !SpelledMismatchI(Patterns[i][pos[i]])
  {
  }

  /** Each of the first 18 prefixes has, at the listed position, a letter no Mismatch1nI key contains. */
  lemma WitnessMismatch1nI(pos: seq<nat>)
    requires pos == [0, 0, 0, 0, 4, 0, 4, 6, 2, 4, 12, 0, 4, 22, 19, 19, 0, 0]
    ensures forall i :: 0 <= i < 18 ==> pos[i] < |Patterns[i]| && !SpelledMismatch1nI(Patterns[i][pos[i]])
  {
  }

  /** Each of the first 18 prefixes has, at the listed position, a letter no Mismatch23I key contains. */
  lemma WitnessMismatch23I(pos: seq<nat>)
    requires pos == [0, 0, 0, 0, 4, 0, 4, 6, 2, 4, 12, 0, 4, 22, 19, 19, 0, 0]
    ensures forall i :: 0 <= i < 18 ==> pos[i] < |Patterns[i]| && !SpelledMismatch23I(Patterns[i][pos[i]])
  {
  }

  /** Each of the first 19 prefixes has, at the listed position, a letter no Int11 key contains. */
  lemma WitnessInt11(pos: seq<nat>)
    requires pos == [0, 0, 0, 0, 4, 0, 4, 6, 0, 0, 12, 0, 0, 3, 3, 3, 0, 0, 3]
    ensures forall i :: 0 <= i < 19 ==> pos[i] < |Patterns[i]| && !SpelledInt11(Patterns[i][pos[i]])
  {
  }

  /** Each of the first 19 prefixes has, at the listed position, a letter no Int21 key contains. */
  lemma WitnessInt21(pos: seq<nat>)
    requires pos == [0, 0, 0, 0, 4, 0, 4, 6, 0, 0, 12, 0, 0, 3, 3, 3, 0, 0, 3]
    ensures forall i :: 0 <= i < 19 ==> pos[i] < |Patterns[i]| && !SpelledInt21(Patterns[i][pos[i]])
  {
  }

  /** Each of the first 19 prefixes has, at the listed position, a letter no Int22 key contains. */
  lemma WitnessInt22(pos: seq<nat>)
    requires pos == [0, 0, 0, 0, 4, 0, 4, 6, 0, 0, 12, 0, 0, 3, 3, 3, 0, 0, 3]
    ensures forall i :: 0 <= i < 19 ==> pos[i] < |Patterns[i]| && !SpelledInt22(Patterns[i][pos[i]])
  {
  }
  /** The letters of the key ML_closing37. */
  predicate SpelledMLClosing(c: char) { c == '3' || c == '7' || c == 'L' || c == 'M' || c == '_' || c == 'c' || c == 'g' || c == 'i' || c == 'l' || c == 'n' || c == 'o' || c == 's' }

  lemma RouteMLClosing()
    ensures FirstMatch("ML_closing37", Patterns, 0) == FirstMatch("ML_closing37", Patterns, 1)
  {
    var pos: seq<nat> := [5];
    assert forall c :: c in "ML_closing37" ==> SpelledMLClosing(c);
    WitnessMLClosing(pos);
    PassOverByLetters("ML_closing37", Patterns, 0, 1, pos, SpelledMLClosing);
  }

  /** The letters of the key ML_BASE37. */
  predicate SpelledMLBase(c: char) { c == '3' || c == '7' || c == 'A' || c == 'B' || c == 'E' || c == 'L' || c == 'M' || c == 'S' || c == '_' }

  lemma RouteMLBase()
    ensures FirstMatch("ML_BASE37", Patterns, 0) == FirstMatch("ML_BASE37", Patterns, 2)
  {
    var pos: seq<nat> := [3, 3];
    assert forall c :: c in "ML_BASE37" ==> SpelledMLBase(c);
    WitnessMLBase(pos);
    PassOverByLetters("ML_BASE37", Patterns, 0, 2, pos, SpelledMLBase);
  }

  /** The letters of the key MAX_NINIO. */
  predicate SpelledMaxNinio(c: char) { c == 'A' || c == 'I' || c == 'M' || c == 'N' || c == 'O' || c == 'X' || c == '_' }

  lemma RouteMaxNinio()
    ensures FirstMatch("MAX_NINIO", Patterns, 0) == FirstMatch("MAX_NINIO", Patterns, 3)
  {
    var pos: seq<nat> := [1, 1, 1];
    assert forall c :: c in "MAX_NINIO" ==> SpelledMaxNinio(c);
    WitnessMaxNinio(pos);
    PassOverByLetters("MAX_NINIO", Patterns, 0, 3, pos, SpelledMaxNinio);
  }

  /** The letters of the key ninio37. */
  predicate SpelledNinio(c: char) { c == '3' || c == '7' || c == 'i' || c == 'n' || c == 'o' }

  lemma RouteNinio()
    ensures FirstMatch("ninio37", Patterns, 0) == FirstMatch("ninio37", Patterns, 4)
  {
    var pos: seq<nat> := [0, 0, 0, 0];
    assert forall c :: c in "ninio37" ==> SpelledNinio(c);
    WitnessNinio(pos);
    PassOverByLetters("ninio37", Patterns, 0, 4, pos, SpelledNinio);
  }

  /** The letters of the key TerminalAU37. */
  predicate SpelledTerminalAU(c: char) { c == '3' || c == '7' || c == 'A' || c == 'T' || c == 'U' || c == 'a' || c == 'e' || c == 'i' || c == 'l' || c == 'm' || c == 'n' || c == 'r' }

  lemma RouteTerminalAU()
    ensures FirstMatch("TerminalAU37", Patterns, 0) == FirstMatch("TerminalAU37", Patterns, 5)
  {
    var pos: seq<nat> := [0, 0, 0, 0, 4];
    assert forall c :: c in "TerminalAU37" ==> SpelledTerminalAU(c);
    WitnessTerminalAU(pos);
    PassOverByLetters("TerminalAU37", Patterns, 0, 5, pos, SpelledTerminalAU);
  }

  /** Each of the first 1 prefixes has, at the listed position, a letter the key ML_closing37 lacks. */
  lemma WitnessMLClosing(pos: seq<nat>)
    requires pos == [5]
    ensures forall i :: 0 <= i < 1 ==> pos[i] < |Patterns[i]| && !SpelledMLClosing(Patterns[i][pos[i]])
  {
  }

  /** Each of the first 2 prefixes has, at the listed position, a letter the key ML_BASE37 lacks. */
  lemma WitnessMLBase(pos: seq<nat>)
    requires pos == [3, 3]
    ensures forall i :: 0 <= i < 2 ==> pos[i] < |Patterns[i]| && !SpelledMLBase(Patterns[i][pos[i]])
  {
  }

  /** Each of the first 3 prefixes has, at the listed position, a letter the key MAX_NINIO lacks. */
  lemma WitnessMaxNinio(pos: seq<nat>)
    requires pos == [1, 1, 1]
    ensures forall i :: 0 <= i < 3 ==> pos[i] < |Patterns[i]| && !SpelledMaxNinio(Patterns[i][pos[i]])
  {
  }

  /** Each of the first 4 prefixes has, at the listed position, a letter the key ninio37 lacks. */
  lemma WitnessNinio(pos: seq<nat>)
    requires pos == [0, 0, 0, 0]
    ensures forall i :: 0 <= i < 4 ==> pos[i] < |Patterns[i]| && !SpelledNinio(Patterns[i][pos[i]])
  {
  }

  /** Each of the first 5 prefixes has, at the listed position, a letter the key TerminalAU37 lacks. */
  lemma WitnessTerminalAU(pos: seq<nat>)
    requires pos == [0, 0, 0, 0, 4]
    ensures forall i :: 0 <= i < 5 ==> pos[i] < |Patterns[i]| && !SpelledTerminalAU(Patterns[i][pos[i]])
  {
  }
}
