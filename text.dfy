/**
 * The string handling the parameter loader relies on: substring search
 * (std::string::find), removal of a delimiter (the erase/remove idiom),
 * whitespace-separated tokens (operator>> on an istringstream) and decimal
 * integers (operator>> into an int, std::stoi, and operator<< of an int).
 */
module Text {
  import opened Options

  /** q is a prefix of s, compared character by character. */
  predicate StartsWith(s: string, q: string)
  {
    |q| == 0 || (|s| > 0 && s[0] == q[0] && StartsWith(s[1..], q[1..]))
  }

  /** s.find(q) != npos: q occurs somewhere in s, scanning from the left. */
  predicate Occurs(s: string, q: string)
  {
    StartsWith(s, q) || (|s| > 0 && Occurs(s[1..], q))
  }

  lemma {:induction false} StartsWithSlice(s: string, q: string)
    ensures StartsWith(s, q) <==> |q| <= |s| && s[..|q|] == q
  {
    if |q| > 0 && |s| > 0 {
      StartsWithSlice(s[1..], q[1..]);
      if |q| <= |s| && s[..|q|] == q {
        assert s[1..][..|q| - 1] == s[..|q|][1..];
      }
      if StartsWith(s, q) {
        assert s[..|q|] == [s[0]] + s[1..][..|q| - 1];
        assert q == [q[0]] + q[1..];
      }
    }
  }

  /** q equals the window of s starting at k. */
  predicate WindowAt(s: string, q: string, k: int)
  {
    0 <= k <= |s| - |q| && s[k..k + |q|] == q
  }

  /** The scan agrees with the definition of a substring: some window of s equals q. */
  lemma {:induction false} OccursIffWindow(s: string, q: string)
    ensures Occurs(s, q) <==> exists k :: WindowAt(s, q, k)
  {
    StartsWithSlice(s, q);
    if |s| > 0 {
      OccursIffWindow(s[1..], q);
      if Occurs(s[1..], q) {
        var k :| WindowAt(s[1..], q, k);
        assert s[k + 1..k + 1 + |q|] == s[1..][k..k + |q|];
        assert WindowAt(s, q, k + 1);
      } else if StartsWith(s, q) {
        assert WindowAt(s, q, 0);
      }
      if exists k :: WindowAt(s, q, k) {
        var k :| WindowAt(s, q, k);
        if k > 0 {
          assert s[1..][k - 1..k - 1 + |q|] == s[k..k + |q|];
          assert WindowAt(s[1..], q, k - 1);
        } else {
          assert s[..|q|] == q;
        }
      }
    } else if StartsWith(s, q) {
      assert WindowAt(s, q, 0);
    }
  }

  /** A string found in another is no longer than it. */
  lemma OccursLength(s: string, q: string)
    ensures Occurs(s, q) ==> |q| <= |s|
  {
    OccursIffWindow(s, q);
  }

  /** Every letter of a string found in another is a letter of that other string. */
  lemma OccursContains(s: string, q: string, ch: char)
    ensures Occurs(s, q) && ch in q ==> ch in s
  {
    OccursIffWindow(s, q);
    if Occurs(s, q) && ch in q {
      var k :| WindowAt(s, q, k);
      assert ch in s[k..k + |q|];
    }
  }

  /** A string found in another has no more copies of any letter than that other string. */
  lemma OccursCount(s: string, q: string, ch: char)
    ensures Occurs(s, q) ==> multiset(q)[ch] <= multiset(s)[ch]
  {
    OccursIffWindow(s, q);
    if Occurs(s, q) {
      var k :| WindowAt(s, q, k);
      assert s == s[..k] + s[k..k + |q|] + s[k + |q|..];
    }
  }

  /** Every string occurs at the start of what it prefixes. */
  lemma PrefixOccurs(p: string, rest: string)
    ensures Occurs(p + rest, p)
  {
    StartsWithSlice(p + rest, p);
    assert (p + rest)[..|p|] == p;
  }

  /** std::remove(begin, end, d) followed by erase: s without any occurrence of d. */
  function RemoveAll(s: string, d: char): (r: string)
    ensures |r| <= |s| && d !in r
    ensures forall c :: c != d ==> multiset(r)[c] == multiset(s)[c]
  {
    if |s| == 0 then []
    else
      assert s == [s[0]] + s[1..];
      (if s[0] == d then [] else [s[0]]) + RemoveAll(s[1..], d)
  }

  /** Removal works piece by piece, keeping the order of what is left. */
  lemma {:induction false} RemoveAllAppend(a: string, b: string, d: char)
    ensures RemoveAll(a + b, d) == RemoveAll(a, d) + RemoveAll(b, d)
  {
    if |a| > 0 {
      var head := if a[0] == d then [] else [a[0]];
      assert (a + b)[0] == a[0] && (a + b)[1..] == a[1..] + b;
      assert RemoveAll(a + b, d) == head + RemoveAll(a[1..] + b, d);
      RemoveAllAppend(a[1..], b, d);
      assert RemoveAll(a, d) == head + RemoveAll(a[1..], d);
    } else {
      assert a + b == b;
    }
  }

  /** A string without the delimiter is left as it is. */
  lemma {:induction false} RemoveAllAbsent(s: string, d: char)
    requires d !in s
    ensures RemoveAll(s, d) == s
  {
    if |s| > 0 {
      RemoveAllAbsent(s[1..], d);
    }
  }

  /** isspace in the C locale. */
  predicate IsSpace(c: char)
  {
    c == ' ' || c == '\t' || c == '\n' || c == '\U{000B}' || c == '\U{000C}' || c == '\r'
  }

  /** The input after the leading whitespace an extraction skips. */
  function SkipSpace(s: string): (r: string)
    ensures |r| <= |s|
  {
    if |s| > 0 && IsSpace(s[0]) then SkipSpace(s[1..]) else s
  }

  /** What is skipped is whitespace, and what is left is a suffix that does not start with whitespace. */
  lemma {:induction false} SkipSpaceSkips(s: string)
    ensures SkipSpace(s) == s[|s| - |SkipSpace(s)|..]
    ensures |SkipSpace(s)| > 0 ==> !IsSpace(SkipSpace(s)[0])
    ensures forall k :: 0 <= k < |s| - |SkipSpace(s)| ==> IsSpace(s[k])
  {
    if |s| > 0 && IsSpace(s[0]) {
      SkipSpaceSkips(s[1..]);
    }
  }

  /** Length of the leading run of non-whitespace characters. */
  function TokenLength(s: string): (n: nat)
    ensures n <= |s|
  {
    if |s| > 0 && !IsSpace(s[0]) then 1 + TokenLength(s[1..]) else 0
  }

  /** The token is the longest whitespace-free prefix. */
  lemma {:induction false} TokenLengthMaximal(s: string)
    ensures forall k :: 0 <= k < TokenLength(s) ==> !IsSpace(s[k])
    ensures TokenLength(s) < |s| ==> IsSpace(s[TokenLength(s)])
  {
    if |s| > 0 && !IsSpace(s[0]) {
      TokenLengthMaximal(s[1..]);
    }
  }

  predicate IsDigit(c: char) { '0' <= c <= '9' }

  function DigitValue(c: char): nat
    requires IsDigit(c)
  {
    c as int - '0' as int
  }

  function DigitChar(d: nat): char
    requires d < 10
  {
    ('0' as int + d) as char
  }

  /** Length of the leading run of decimal digits. */
  function LeadingDigits(s: string): (n: nat)
    ensures n <= |s|
  {
    if |s| > 0 && IsDigit(s[0]) then 1 + LeadingDigits(s[1..]) else 0
  }

  /** The run is the longest prefix of digits. */
  lemma {:induction false} LeadingDigitsMaximal(s: string)
    ensures forall k :: 0 <= k < LeadingDigits(s) ==> IsDigit(s[k])
    ensures LeadingDigits(s) < |s| ==> !IsDigit(s[LeadingDigits(s)])
  {
    if |s| > 0 && IsDigit(s[0]) {
      LeadingDigitsMaximal(s[1..]);
    }
  }

  /** The value of a run of decimal digits, most significant first. */
  function DigitsValue(s: string): nat
    requires forall k :: 0 <= k < |s| ==> IsDigit(s[k])
  {
    if |s| == 0 then 0 else DigitsValue(s[..|s| - 1]) * 10 + DigitValue(s[|s| - 1])
  }

  const INT_MIN: int := -0x8000_0000
  const INT_MAX: int := 0x7FFF_FFFF

  predicate IsInt32(n: int) { INT_MIN <= n <= INT_MAX }

  /**
   * A decimal int at the start of s: an optional sign, then the longest run
   * of digits. None when there is no digit or the value does not fit in an
   * int (operator>> then fails, std::stoi throws).
   */
  function ParseLeadingInt(s: string): (r: Option<int>)
    ensures r.Some? ==> IsInt32(r.value)
  {
    var start := if |s| > 0 && (s[0] == '-' || s[0] == '+') then 1 else 0;
    var n := LeadingDigits(s[start..]);
    LeadingDigitsMaximal(s[start..]);
    if n == 0 then None
    else
      var magnitude: int := DigitsValue(s[start..start + n]);
      var v: int := if start == 1 && s[0] == '-' then -magnitude else magnitude;
      if IsInt32(v) then Some(v) else None
  }

  /** The digits of n, most significant first, without leading zeros. */
  function DecimalDigits(n: nat): (r: string)
    ensures |r| >= 1
    ensures forall k :: 0 <= k < |r| ==> IsDigit(r[k])
  {
    if n < 10 then [DigitChar(n)] else DecimalDigits(n / 10) + [DigitChar(n % 10)]
  }

  /** operator<< of an int: a minus sign for negative values, then the digits. */
  function Decimal(n: int): (r: string)
    ensures |r| >= 1
    ensures forall k :: 0 <= k < |r| ==> IsDigit(r[k]) || (k == 0 && r[k] == '-')
  {
    if n < 0 then "-" + DecimalDigits(-n) else DecimalDigits(n)
  }

  lemma {:induction false} DecimalDigitsValue(n: nat)
    ensures DigitsValue(DecimalDigits(n)) == n
  {
    if n >= 10 {
      DecimalDigitsValue(n / 10);
      var s := DecimalDigits(n / 10) + [DigitChar(n % 10)];
      assert s[..|s| - 1] == DecimalDigits(n / 10);
    }
  }

  lemma {:induction false} AllDigitsLeading(s: string)
    requires forall k :: 0 <= k < |s| ==> IsDigit(s[k])
    ensures LeadingDigits(s) == |s|
  {
    if |s| > 0 {
      AllDigitsLeading(s[1..]);
    }
  }

  /** Printing an int and reading it back gives the same int. */
  lemma ParseDecimal(n: int)
    requires IsInt32(n)
    ensures ParseLeadingInt(Decimal(n)) == Some(n)
  {
    var digits := DecimalDigits(if n < 0 then -n else n);
    DecimalDigitsValue(if n < 0 then -n else n);
    AllDigitsLeading(digits);
    assert IsDigit(digits[0]);
    if n < 0 {
      assert Decimal(n)[1..] == digits;
      assert Decimal(n)[1..1 + |digits|] == digits;
    } else {
      assert Decimal(n) == digits;
      assert Decimal(n)[0] != '-' && Decimal(n)[0] != '+';
      assert Decimal(n)[0..] == digits;
      assert Decimal(n)[0..0 + |digits|] == digits;
    }
  }

  /**
   * `is >> key >> value` on one line: a non-empty token, then an int after
   * optional whitespace. None when either extraction fails.
   */
  function ReadKeyValue(line: string): (r: Option<(string, int)>)
    ensures r.Some? ==> |r.value.0| > 0 && forall k :: 0 <= k < |r.value.0| ==> !IsSpace(r.value.0[k])
    ensures r.Some? ==> IsInt32(r.value.1)
  {
    var s := SkipSpace(line);
    var n := TokenLength(s);
    TokenLengthMaximal(s);
    if n == 0 then None
    else
      match ParseLeadingInt(SkipSpace(s[n..]))
      case None => None
      case Some(v) => Some((s[..n], v))
  }

  /** A line "<key> <value>" as the parameter dump prints it reads back as that key and value. */
  lemma ReadPrinted(key: string, v: int)
    requires |key| > 0 && forall k :: 0 <= k < |key| ==> !IsSpace(key[k])
    requires IsInt32(v)
    ensures ReadKeyValue(key + " " + Decimal(v)) == Some((key, v))
  {
    var value := Decimal(v);
    var rest := " " + value;
    var line := key + rest;
    assert line == key + " " + value;
    assert !IsSpace(line[0]);
    assert SkipSpace(line) == line;
    TokenExact(key, rest);
    assert line[..|key|] == key;
    assert line[|key|..] == rest;
    SkipOneSpace(value);
    ParseDecimal(v);
  }

  lemma SkipOneSpace(value: string)
    requires |value| > 0 && !IsSpace(value[0])
    ensures SkipSpace(" " + value) == value
  {
    assert (" " + value)[1..] == value;
  }

  lemma {:induction false} TokenExact(key: string, rest: string)
    requires forall k :: 0 <= k < |key| ==> !IsSpace(key[k])
    requires |rest| > 0 && IsSpace(rest[0])
    ensures TokenLength(key + rest) == |key|
  {
    if |key| > 0 {
      assert (key + rest)[1..] == key[1..] + rest;
      TokenExact(key[1..], rest);
    }
  }

  /** std::getline over a whole text: the pieces between newlines; a final newline ends the last line. */
  function Lines(text: string): seq<string>
    decreases |text|
  {
    if |text| == 0 then []
    else
      var n := LineLength(text);
      if n == |text| then [text] else [text[..n]] + Lines(text[n + 1..])
  }

  /** Length of the first line: the characters before the first newline. */
  function LineLength(s: string): (n: nat)
    ensures n <= |s|
    ensures forall k :: 0 <= k < n ==> s[k] != '\n'
    ensures n < |s| ==> s[n] == '\n'
  {
    if |s| > 0 && s[0] != '\n' then 1 + LineLength(s[1..]) else 0
  }

  /** Text written line by line, each line followed by a newline (std::endl). */
  function JoinLines(lines: seq<string>): string
  {
    if |lines| == 0 then "" else lines[0] + "\n" + JoinLines(lines[1..])
  }

  lemma {:induction false} LineLengthOf(line: string, rest: string)
    requires '\n' !in line
    ensures LineLength(line + "\n" + rest) == |line|
  {
    if |line| > 0 {
      assert (line + "\n" + rest)[1..] == line[1..] + "\n" + rest;
      LineLengthOf(line[1..], rest);
    }
  }

  /** Reading back text written line by line gives the same lines. */
  lemma {:induction false} LinesOfJoin(lines: seq<string>)
    requires forall i :: 0 <= i < |lines| ==> '\n' !in lines[i]
    ensures Lines(JoinLines(lines)) == lines
  {
    if |lines| > 0 {
      var tail := lines[1..];
      var rest := JoinLines(tail);
      var text := lines[0] + "\n" + rest;
      assert JoinLines(lines) == text;
      var n := |lines[0]|;
      LineLengthOf(lines[0], rest);
      assert n < |text| && text[..n] == lines[0] && text[n + 1..] == rest;
      assert Lines(text) == [lines[0]] + Lines(rest);
      assert forall i :: 0 <= i < |tail| ==> tail[i] == lines[i + 1];
      LinesOfJoin(tail);
      assert lines == [lines[0]] + tail;
    }
  }
}
