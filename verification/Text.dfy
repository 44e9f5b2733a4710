/** Strings as sequences of UTF-16 units: splitting, decimal numerals, ASCII case and order. */
module Text {

  // ---------------------------------------------------------------- split and join

  function Split(s: string, sep: char): (parts: seq<string>)
    ensures |parts| >= 1
  {
    if s == "" then [""]
    else
      var rest := Split(s[1..], sep);
      if s[0] == sep then [""] + rest else [[s[0]] + rest[0]] + rest[1..]
  }

  function Join(parts: seq<string>, sep: char): string
    requires |parts| >= 1
  {
    if |parts| == 1 then parts[0] else parts[0] + [sep] + Join(parts[1..], sep)
  }

  lemma {:induction false} SplitPlain(a: string, sep: char)
    requires sep !in a
    ensures Split(a, sep) == [a]
  {
    if a != "" {
      assert a == [a[0]] + a[1..];
      SplitPlain(a[1..], sep);
    }
  }

  lemma {:induction false} SplitFirst(a: string, sep: char, b: string)
    requires sep !in a
    ensures Split(a + [sep] + b, sep) == [a] + Split(b, sep)
  {
    if a == "" {
      assert (a + [sep] + b)[1..] == b;
    } else {
      assert (a + [sep] + b)[1..] == a[1..] + [sep] + b;
      assert a == [a[0]] + a[1..] && a[0] in a;
      SplitFirst(a[1..], sep, b);
    }
  }

  /** Splitting undoes joining, for parts that do not contain the separator. */
  lemma {:induction false} SplitJoin(parts: seq<string>, sep: char)
    requires |parts| >= 1 && forall p :: p in parts ==> sep !in p
    ensures Split(Join(parts, sep), sep) == parts
  {
    if |parts| == 1 {
      SplitPlain(parts[0], sep);
    } else {
      SplitFirst(parts[0], sep, Join(parts[1..], sep));
      SplitJoin(parts[1..], sep);
    }
  }

  /** And joining undoes splitting, for every string. */
  lemma {:induction false} JoinSplit(s: string, sep: char)
    ensures Join(Split(s, sep), sep) == s
    ensures forall p :: p in Split(s, sep) ==> sep !in p
  {
    if s != "" {
      JoinSplit(s[1..], sep);
      var rest := Split(s[1..], sep);
      if s[0] == sep {
        assert ([""] + rest)[1..] == rest;
      } else if |rest| > 1 {
        assert ([[s[0]] + rest[0]] + rest[1..])[1..] == rest[1..];
      }
      assert s == [s[0]] + s[1..];
    }
  }

  // ---------------------------------------------------------------- decimal numerals

  predicate IsDigit(c: char) {
    '0' <= c <= '9'
  }

  predicate AllDigits(s: string) {
    forall i :: 0 <= i < |s| ==> IsDigit(s[i])
  }

  function DigitValue(c: char): nat
    requires IsDigit(c)
  {
    c as int - '0' as int
  }

  function Show(n: nat): (s: string)
    ensures |s| >= 1 && AllDigits(s)
  {
    if n < 10 then [n as char + '0'] else Show(n / 10) + [(n % 10) as char + '0']
  }

  function Value(s: string): nat
    requires AllDigits(s)
  {
    if s == "" then 0 else 10 * Value(s[..|s| - 1]) + DigitValue(s[|s| - 1])
  }

  lemma {:induction false} ValueShow(n: nat)
    ensures Value(Show(n)) == n
  {
    if n >= 10 {
      ValueShow(n / 10);
      assert Show(n)[..|Show(n)| - 1] == Show(n / 10);
    }
  }

  lemma {:induction false} ShowLength(n: nat, digits: nat, bound: nat)
    requires digits >= 1 && bound == Power10(digits) && n < bound
    ensures |Show(n)| <= digits
  {
    if n >= 10 {
      assert digits > 1;
      ShowLength(n / 10, digits - 1, Power10(digits - 1));
    }
  }

  function Power10(n: nat): nat {
    if n == 0 then 1 else 10 * Power10(n - 1)
  }

  /** Every digit string is the shortest numeral of its value after some leading zeros. */
  lemma {:induction false} DigitsAreZerosThenShow(s: string) returns (zeros: nat)
    requires s != "" && AllDigits(s)
    ensures zeros < |s| && s == seq(zeros, _ => '0') + Show(Value(s))
  {
    var last, init := s[|s| - 1], s[..|s| - 1];
    assert s == init + [last];
    if init == "" {
      assert Value(init) == 0 && Show(Value(s)) == [last];
      zeros := 0;
    } else {
      zeros := DigitsAreZerosThenShow(init);
      if Value(init) == 0 {
        assert Show(Value(init)) == ['0'] && Show(Value(s)) == [last];
        assert s == seq(zeros + 1, _ => '0') + Show(Value(s));
        zeros := zeros + 1;
      } else {
        assert Value(s) == 10 * Value(init) + DigitValue(last) && Value(s) / 10 == Value(init);
        assert Show(Value(s)) == Show(Value(init)) + [last];
        assert s == seq(zeros, _ => '0') + (Show(Value(init)) + [last]);
      }
    }
  }

  lemma {:induction false} ValueSkipsZeros(zeros: nat, s: string)
    requires AllDigits(s)
    ensures AllDigits(seq(zeros, _ => '0') + s) && Value(seq(zeros, _ => '0') + s) == Value(s)
  {
    var t := seq(zeros, _ => '0') + s;
    if s != "" {
      assert t[..|t| - 1] == seq(zeros, _ => '0') + s[..|s| - 1];
      ValueSkipsZeros(zeros, s[..|s| - 1]);
    } else if zeros > 0 {
      assert t[..|t| - 1] == seq(zeros - 1, _ => '0') + s;
      ValueSkipsZeros(zeros - 1, s);
    }
  }

  // ---------------------------------------------------------------- ASCII letters

  function LowerChar(c: char): char {
    if 'A' <= c <= 'Z' then c - 'A' + 'a' else c
  }

  function Lower(s: string): (t: string)
    ensures |t| == |s|
    ensures forall i :: 0 <= i < |s| ==> t[i] == LowerChar(s[i])
  {
    seq(|s|, i requires 0 <= i < |s| => LowerChar(s[i]))
  }

  /** Nothing is left after `trim()`. */
  predicate Blank(s: string) {
    forall i :: 0 <= i < |s| ==> s[i] == ' ' || '\t' <= s[i] <= '\r'
  }

  // ---------------------------------------------------------------- order by code units

  predicate Less(a: string, b: string) {
    b != "" && (a == "" || a[0] < b[0] || (a[0] == b[0] && Less(a[1..], b[1..])))
  }

  lemma {:induction false} LessIsStrictTotal(a: string, b: string)
    ensures !(Less(a, b) && Less(b, a))
    ensures a == b <==> !Less(a, b) && !Less(b, a)
  {
    if a != "" && b != "" {
      LessIsStrictTotal(a[1..], b[1..]);
      if a[0] == b[0] && a[1..] == b[1..] {
        assert a == [a[0]] + a[1..] == b;
      }
    }
  }

  lemma {:induction false} LessTransitive(a: string, b: string, c: string)
    requires Less(a, b) && Less(b, c)
    ensures Less(a, c)
  {
    if a != "" && a[0] == b[0] && b[0] == c[0] {
      LessTransitive(a[1..], b[1..], c[1..]);
    }
  }

  /** Code-unit order: a proper prefix comes first, and otherwise the first difference decides. */
  lemma {:induction false} LessMeans(a: string, b: string)
    ensures Less(a, b) <==> a < b || exists k :: DiffersFirst(a, b, k) && a[k] < b[k]
  {
    if a != "" && b != "" && a[0] == b[0] {
      LessMeans(a[1..], b[1..]);
      assert a < b <==> a[1..] < b[1..];
      if k :| DiffersFirst(a[1..], b[1..], k) && a[1..][k] < b[1..][k] {
        assert DiffersFirst(a, b, k + 1);
      }
      if k :| DiffersFirst(a, b, k) && a[k] < b[k] {
        assert k > 0;
        assert a[..k][1..] == a[1..][..k - 1] && b[..k][1..] == b[1..][..k - 1];
        assert DiffersFirst(a[1..], b[1..], k - 1);
      }
    } else if a != "" && b != "" {
      assert DiffersFirst(a, b, 0);
      forall k | DiffersFirst(a, b, k) ensures k == 0 {
        if k > 0 {
          SameHead(a, b, k);
        }
      }
    }
  }

  lemma SameHead(a: string, b: string, k: int)
    requires 0 < k <= |a| && k <= |b| && a[..k] == b[..k]
    ensures a[0] == b[0]
  {
    assert a[..k][0] == b[..k][0];
  }

  predicate DiffersFirst(a: string, b: string, k: int) {
    0 <= k < |a| && k < |b| && a[..k] == b[..k] && a[k] != b[k]
  }

  const CAPITALS := "ABCDEFGHIJKLMNOPQRSTUVWXYZ"
  const SMALL_LETTERS := "abcdefghijklmnopqrstuvwxyz"

  /** Only the 26 capitals change, each to its own small letter. */
  lemma LowerCharMeans(c: char)
    ensures |CAPITALS| == |SMALL_LETTERS| == 26
    ensures c in CAPITALS <==> 'A' <= c <= 'Z'
    ensures if c in CAPITALS then exists k :: 0 <= k < 26 && c == CAPITALS[k] && LowerChar(c) == SMALL_LETTERS[k] else LowerChar(c) == c
  {
    if 'A' <= c <= 'Z' {
      var k := (c - 'A') as int;
      assert CAPITALS[k] == c;
      assert SMALL_LETTERS[k] == LowerChar(c);
    }
  }
}
