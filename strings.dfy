/**
 * The few operations on Python `str` values that the reconciliation engine
 * relies on: `strip`, `isdigit`, `zfill`, `int` on a digit string, decimal
 * formatting of a non-negative integer, `lower` and string ordering.
 */
module Strings {

  /** The set of the elements of a sequence. */
  function Elems<T>(s: seq<T>): set<T>
  {
    set x | x in s
  }

  lemma ElemsConcat<T>(a: seq<T>, b: seq<T>)
    ensures Elems(a + b) == Elems(a) + Elems(b)
  {
    forall x | x in Elems(a + b) ensures x in Elems(a) + Elems(b) {
      var i :| 0 <= i < |a + b| && (a + b)[i] == x;
      if i >= |a| {
        assert b[i - |a|] == x;
      }
    }
  }

  /** Python's `str.isspace()`: exactly the characters `str.strip()` removes. */
  predicate IsSpace(c: char)
  {
    || c == ' '
    || '\t' <= c <= '\r'
    || '\U{1C}' <= c <= '\U{1F}'
    || c == '\U{85}'
    || c == '\U{A0}'
    || c == '\U{1680}'
    || '\U{2000}' <= c <= '\U{200A}'
    || c == '\U{2028}'
    || c == '\U{2029}'
    || c == '\U{202F}'
    || c == '\U{205F}'
    || c == '\U{3000}'
  }

  /** An ASCII decimal digit. */
  predicate IsDigit(c: char)
  {
    '0' <= c <= '9'
  }

  predicate AllDigits(s: string)
  {
    forall i | 0 <= i < |s| :: IsDigit(s[i])
  }

  lemma AllDigitsConcat(a: string, b: string)
    requires AllDigits(a) && AllDigits(b)
    ensures AllDigits(a + b)
  {
    forall i | 0 <= i < |a + b| ensures IsDigit((a + b)[i]) {
      if i >= |a| {
        assert (a + b)[i] == b[i - |a|];
      }
    }
  }

  predicate AllSpaces(s: string)
  {
    forall i | 0 <= i < |s| :: IsSpace(s[i])
  }

  /** `s.lstrip()`: drops the leading white space. */
  function StripLeft(s: string): string
  {
    if s != [] && IsSpace(s[0]) then StripLeft(s[1..]) else s
  }

  /** `s.rstrip()`: drops the trailing white space. */
  function StripRight(s: string): string
  {
    if s != [] && IsSpace(s[|s| - 1]) then StripRight(s[..|s| - 1]) else s
  }

  /** `s.strip()`: drops white space at both ends. */
  function Strip(s: string): (r: string)
    ensures |r| <= |s|
    ensures r == [] || (!IsSpace(r[0]) && !IsSpace(r[|r| - 1]))
  {
    StripLeftSuffix(s);
    StripRightPrefix(StripLeft(s));
    StripRight(StripLeft(s))
  }

  /** `lstrip` drops a run of white space from the front and stops at the first other character. */
  lemma {:induction false} StripLeftSuffix(s: string)
    ensures |StripLeft(s)| <= |s| && StripLeft(s) == s[|s| - |StripLeft(s)|..]
    ensures AllSpaces(s[..|s| - |StripLeft(s)|])
    ensures StripLeft(s) == [] || !IsSpace(StripLeft(s)[0])
  {
    if s != [] && IsSpace(s[0]) {
      StripLeftSuffix(s[1..]);
      var r := StripLeft(s[1..]);
      assert s[..|s| - |r|] == [s[0]] + s[1..][..|s| - 1 - |r|];
    }
  }

  /** `rstrip` drops a run of white space from the back and stops at the last other character. */
  lemma {:induction false} StripRightPrefix(s: string)
    ensures |StripRight(s)| <= |s| && StripRight(s) == s[..|StripRight(s)|]
    ensures AllSpaces(s[|StripRight(s)|..])
    ensures StripRight(s) == [] || !IsSpace(StripRight(s)[|StripRight(s)| - 1])
  {
    if s != [] && IsSpace(s[|s| - 1]) {
      StripRightPrefix(s[..|s| - 1]);
      var r := StripRight(s[..|s| - 1]);
      assert s[|r|..] == s[..|s| - 1][|r|..] + [s[|s| - 1]];
    }
  }

  /** `s.strip()` is the infix of `s` left between two runs of white space, with no white space at its ends. */
  lemma StripInfix(s: string) returns (i: nat, j: nat)
    ensures i <= j <= |s| && Strip(s) == s[i..j]
    ensures AllSpaces(s[..i]) && AllSpaces(s[j..])
    ensures Strip(s) == [] || (!IsSpace(Strip(s)[0]) && !IsSpace(Strip(s)[|Strip(s)| - 1]))
  {
    var l := StripLeft(s);
    StripLeftSuffix(s);
    StripRightPrefix(l);
    i := |s| - |l|;
    j := i + |Strip(s)|;
    assert s[j..] == l[|Strip(s)|..];
  }

  lemma {:induction false} StripLeftSpaces(l: string, y: string)
    requires AllSpaces(l)
    ensures StripLeft(l + y) == StripLeft(y)
  {
    if l != [] {
      assert (l + y)[1..] == l[1..] + y;
      StripLeftSpaces(l[1..], y);
    } else {
      assert l + y == y;
    }
  }

  lemma {:induction false} StripRightSpaces(y: string, t: string)
    requires AllSpaces(t)
    ensures StripRight(y + t) == StripRight(y)
  {
    if t != [] {
      assert (y + t)[..|y + t| - 1] == y + t[..|t| - 1];
      StripRightSpaces(y, t[..|t| - 1]);
    } else {
      assert y + t == y;
    }
  }

  /** Leading white space can be stripped before or after appending a tail. */
  lemma {:induction false} StripLeftAppend(x: string, t: string)
    ensures StripLeft(x + t) == if StripLeft(x) == [] then StripLeft(t) else StripLeft(x) + t
  {
    if x == [] {
      assert x + t == t;
    } else if IsSpace(x[0]) {
      assert (x + t)[1..] == x[1..] + t;
      StripLeftAppend(x[1..], t);
    }
  }

  /** A text of white space strips to the empty string. */
  lemma StripSpaces(s: string)
    requires AllSpaces(s)
    ensures Strip(s) == []
  {
    StripPadded(s, [], []);
    assert s + [] + [] == s;
  }

  /** Padding a text with white space on both sides does not change what `strip` gives. */
  lemma {:induction false} StripPadded(l: string, x: string, t: string)
    requires AllSpaces(l) && AllSpaces(t)
    ensures Strip(l + x + t) == Strip(x)
  {
    assert l + x + t == l + (x + t);
    StripLeftSpaces(l, x + t);
    StripLeftAppend(x, t);
    if StripLeft(x) == [] {
      assert StripLeft(t) == [] by {
        StripLeftSpaces(t, []);
        assert t + [] == t;
      }
    } else {
      StripRightSpaces(StripLeft(x), t);
    }
  }

  /** A text with no white space at either end is its own `strip`. */
  lemma StripUnpadded(t: string)
    requires t != [] && !IsSpace(t[0]) && !IsSpace(t[|t| - 1])
    ensures Strip(t) == t
  {
  }

  /** `strip` is idempotent. */
  lemma StripIdempotent(s: string)
    ensures Strip(Strip(s)) == Strip(s)
  {
    var i, j := StripInfix(s);
    if Strip(s) != [] {
      StripUnpadded(Strip(s));
    }
  }

  /** `strip` only removes characters: one absent from `s` is absent from `s.strip()`. */
  lemma StripKeepsAbsent(s: string, c: char)
    requires c !in s
    ensures c !in Strip(s)
  {
    var i, j := StripInfix(s);
    var t := Strip(s);
    forall k | 0 <= k < |t| ensures t[k] != c {
      assert t[k] == s[i + k];
    }
  }

  /** `"".join(ch for ch in s if ch.isdigit())`: the digits of `s`, in order. */
  function Digits(s: string): (r: string)
    ensures AllDigits(r) && |r| <= |s|
  {
    if s == [] then [] else (if IsDigit(s[0]) then [s[0]] else []) + Digits(s[1..])
  }

  /** The join of the digits is empty exactly when the text holds no digit. */
  lemma {:induction false} DigitsEmpty(t: string)
    ensures Digits(t) == [] <==> forall i | 0 <= i < |t| :: !IsDigit(t[i])
  {
    if t != [] {
      DigitsEmpty(t[1..]);
      assert forall i | 1 <= i < |t| :: t[i] == t[1..][i - 1];
    }
  }

  lemma {:induction false} DigitsConcat(a: string, b: string)
    ensures Digits(a + b) == Digits(a) + Digits(b)
  {
    if a == [] {
      assert a + b == b;
    } else {
      assert (a + b)[1..] == a[1..] + b;
      DigitsConcat(a[1..], b);
    }
  }

  lemma {:induction false} DigitsOfSpaces(s: string)
    requires AllSpaces(s)
    ensures Digits(s) == []
  {
    if s != [] {
      DigitsOfSpaces(s[1..]);
    }
  }

  /** White space holds no digits, so stripping it first changes nothing that is extracted. */
  lemma DigitsOfStrip(t: string)
    ensures Digits(Strip(t)) == Digits(t)
  {
    var i, j := StripInfix(t);
    var l, m, r := t[..i], t[i..j], t[j..];
    assert t == l + m + r;
    DigitsConcat(l + m, r);
    DigitsConcat(l, m);
    DigitsOfSpaces(l);
    DigitsOfSpaces(r);
  }

  /** Digit extraction keeps a digit string as it is. */
  lemma {:induction false} DigitsOfDigits(s: string)
    requires AllDigits(s)
    ensures Digits(s) == s
  {
    if s != [] {
      DigitsOfDigits(s[1..]);
    }
  }

  /** `a` is `b` with some elements deleted, the rest kept in order. */
  predicate IsSubsequence<T(==)>(a: seq<T>, b: seq<T>)
  {
    if a == [] then true
    else if b == [] then false
    else if a[0] == b[0] then IsSubsequence(a[1..], b[1..])
    else IsSubsequence(a, b[1..])
  }

  lemma {:induction false} DigitsIsSubsequence(s: string)
    ensures IsSubsequence(Digits(s), s)
  {
    if s != [] {
      DigitsIsSubsequence(s[1..]);
      if IsDigit(s[0]) {
        assert Digits(s)[1..] == Digits(s[1..]);
      } else {
        assert Digits(s) == Digits(s[1..]);
        if Digits(s[1..]) != [] {
          assert Digits(s[1..])[0] != s[0];
        }
      }
    }
  }

  /** A run of `n` zero characters. */
  function Zeros(n: nat): (r: string)
    ensures |r| == n && AllDigits(r)
  {
    seq(n, _ => '0')
  }

  /** `s.zfill(width)` for a string without sign: left-pads with zeros. */
  function ZFill(s: string, width: nat): (r: string)
    ensures |r| == if |s| < width then width else |s|
    ensures r == Zeros(|r| - |s|) + s
  {
    if |s| < width then Zeros(width - |s|) + s else assert s == Zeros(0) + s; s
  }

  function Pow10(k: nat): (p: nat)
    ensures p >= 1
  {
    if k == 0 then 1 else 10 * Pow10(k - 1)
  }

  function DigitValue(c: char): (d: nat)
    requires IsDigit(c)
    ensures d < 10
  {
    (c as int) - ('0' as int)
  }

  function DigitChar(d: nat): (c: char)
    requires d < 10
    ensures IsDigit(c) && DigitValue(c) == d
  {
    (('0' as int) + d) as char
  }

  /** `int(s)` for a string of ASCII digits. */
  function ParseNat(s: string): (n: nat)
    requires AllDigits(s)
    ensures n < Pow10(|s|)
  {
    if s == [] then 0 else 10 * ParseNat(s[..|s| - 1]) + DigitValue(s[|s| - 1])
  }

  /** `str(n)` for a non-negative integer: its decimal digits, most significant first. */
  function ToDecimal(n: nat): (r: string)
    ensures AllDigits(r) && |r| >= 1
  {
    if n < 10 then [DigitChar(n)] else ToDecimal(n / 10) + [DigitChar(n % 10)]
  }

  /** Parsing the decimal text of a number gives the number back. */
  lemma {:induction false} ParseNatToDecimal(n: nat)
    ensures ParseNat(ToDecimal(n)) == n
  {
    if n >= 10 {
      var t := ToDecimal(n);
      assert t[..|t| - 1] == ToDecimal(n / 10);
      ParseNatToDecimal(n / 10);
    }
  }

  /** A number below `10^k` needs at most `k` decimal digits. */
  lemma {:induction false} ToDecimalLength(n: nat, k: nat)
    requires 1 <= k && n < Pow10(k)
    ensures |ToDecimal(n)| <= k
  {
    if n >= 10 {
      assert k >= 2;
      ToDecimalLength(n / 10, k - 1);
    }
  }

  lemma {:induction false} ToDecimalLengthAtLeast(n: nat, k: nat)
    requires 1 <= k && Pow10(k - 1) <= n
    ensures |ToDecimal(n)| >= k
  {
    if k > 1 {
      assert Pow10(k - 1) == 10 * Pow10(k - 2);
      ToDecimalLengthAtLeast(n / 10, k - 1);
    }
  }

  /** The value of a concatenation of digit strings. */
  lemma {:induction false} ParseNatConcat(a: string, b: string)
    requires AllDigits(a) && AllDigits(b)
    ensures AllDigits(a + b)
    ensures ParseNat(a + b) == ParseNat(a) * Pow10(|b|) + ParseNat(b)
  {
    if b == [] {
      assert a + b == a;
    } else {
      var b' := b[..|b| - 1];
      assert (a + b)[..|a + b| - 1] == a + b';
      ParseNatConcat(a, b');
      var x, p, y, d := ParseNat(a), Pow10(|b'|), ParseNat(b'), DigitValue(b[|b| - 1]);
      assert ParseNat(a + b) == 10 * ParseNat(a + b') + d;
      assert ParseNat(b) == 10 * y + d;
      assert Pow10(|b|) == 10 * p;
      ShiftDigit(x, p, y, d);
    }
  }

  lemma ShiftDigit(x: nat, p: nat, y: nat, d: nat)
    ensures 10 * (x * p + y) + d == x * (10 * p) + (10 * y + d)
  {
  }

  lemma {:induction false} ParseNatZeros(n: nat)
    ensures ParseNat(Zeros(n)) == 0
  {
    if n > 0 {
      assert Zeros(n)[..n - 1] == Zeros(n - 1);
      ParseNatZeros(n - 1);
    }
  }

  /** Leading zeros do not change the value of a digit string. */
  lemma ParseNatLeadingZeros(k: nat, s: string)
    requires AllDigits(s)
    ensures AllDigits(Zeros(k) + s) && ParseNat(Zeros(k) + s) == ParseNat(s)
  {
    ParseNatConcat(Zeros(k), s);
    ParseNatZeros(k);
  }

  /** `f"{n:04d}"`: the decimal text of `n` zero-padded to at least four digits. */
  function Format04(n: nat): (r: string)
    ensures AllDigits(r)
    ensures n < 10000 ==> |r| == 4 && ParseNat(r) == n
  {
    var t := ToDecimal(n);
    if n < 10000 then
      ToDecimalLength(n, 4);
      ParseNatToDecimal(n);
      ParseNatLeadingZeros(4 - |t|, t);
      ZFill(t, 4)
    else
      ZFill(t, 4)
  }

  /** The last four characters of `s`, or all of it when it is shorter: `s[-4:]`. */
  function LastFour(s: string): (r: string)
    ensures |r| == if |s| > 4 then 4 else |s|
    ensures r == s[|s| - |r|..]
  {
    if |s| > 4 then s[|s| - 4..] else s
  }

  lemma Pow10UpToFour(k: nat)
    requires k <= 4
    ensures Pow10(k) <= 10000 && Pow10(4) == 10000
  {
    assert Pow10(0) == 1 && Pow10(1) == 10 && Pow10(2) == 100 && Pow10(3) == 1000 && Pow10(4) == 10000;
  }

  lemma ModShift(x: nat, y: nat)
    requires y < 10000
    ensures (x * 10000 + y) % 10000 == y
  {
  }

  lemma ModSmall(x: nat)
    requires x < 10000
    ensures x % 10000 == x
  {
  }

  /** The last four digits of a digit string carry its value modulo 10000. */
  lemma LastFourValue(s: string)
    requires AllDigits(s)
    ensures AllDigits(LastFour(s)) && ParseNat(LastFour(s)) == ParseNat(s) % 10000
  {
    if |s| > 4 {
      var a, b := s[..|s| - 4], s[|s| - 4..];
      assert s == a + b;
      ParseNatConcat(a, b);
      Pow10UpToFour(4);
      ModShift(ParseNat(a), ParseNat(b));
    } else {
      Pow10UpToFour(|s|);
      assert LastFour(s) == s;
      ModSmall(ParseNat(s));
    }
  }

  /** The position of the first occurrence of `c` in `s`: `s.index(c)`. */
  function IndexOf(s: string, c: char): (k: nat)
    requires c in s
    ensures k < |s| && s[k] == c && c !in s[..k]
  {
    if s[0] == c then 0 else
      assert s == [s[0]] + s[1..];
      var k := 1 + IndexOf(s[1..], c);
      assert s[..k] == [s[0]] + s[1..][..k - 1];
      k
  }

  /** `s.replace(",", "")`. */
  function RemoveCommas(s: string): (r: string)
    ensures ',' !in r && |r| <= |s|
  {
    if s == [] then [] else (if s[0] == ',' then [] else [s[0]]) + RemoveCommas(s[1..])
  }

  lemma {:induction false} RemoveCommasConcat(a: string, b: string)
    ensures RemoveCommas(a + b) == RemoveCommas(a) + RemoveCommas(b)
  {
    if a == [] {
      assert a + b == b;
    } else {
      var head := if a[0] == ',' then [] else [a[0]];
      assert (a + b)[0] == a[0] && (a + b)[1..] == a[1..] + b;
      RemoveCommasConcat(a[1..], b);
      assert RemoveCommas(a + b) == head + RemoveCommas(a[1..] + b);
      assert RemoveCommas(a) == head + RemoveCommas(a[1..]);
    }
  }

  lemma {:induction false} RemoveCommasNone(s: string)
    requires ',' !in s
    ensures RemoveCommas(s) == s
  {
    if s != [] {
      assert s == [s[0]] + s[1..];
      RemoveCommasNone(s[1..]);
    }
  }

  /** Removing commas keeps every digit. */
  lemma {:induction false} DigitsOfRemoveCommas(s: string)
    ensures Digits(RemoveCommas(s)) == Digits(s)
  {
    if s != [] {
      DigitsOfRemoveCommas(s[1..]);
      var head := if s[0] == ',' then [] else [s[0]];
      DigitsConcat(head, RemoveCommas(s[1..]));
    }
  }

  /** Removing the commas before or after stripping gives the same stripped text. */
  lemma StripRemoveCommas(s: string)
    ensures Strip(RemoveCommas(s)) == Strip(RemoveCommas(Strip(s)))
  {
    var i, j := StripInfix(s);
    var l, t, r := s[..i], s[i..j], s[j..];
    assert s == l + t + r;
    RemoveCommasConcat(l + t, r);
    RemoveCommasConcat(l, t);
    assert ',' !in l by { assert !IsSpace(','); }
    assert ',' !in r by { assert !IsSpace(','); }
    RemoveCommasNone(l);
    RemoveCommasNone(r);
    StripPadded(l, RemoveCommas(t), r);
  }

  /** Python's `<` on `str`: code-point order, a proper prefix before its extensions. */
  predicate LexLess(a: string, b: string)
    ensures |a| < |b| && a == b[..|a|] ==> LexLess(a, b)
  {
    if a == [] then b != []
    else if b == [] then false
    else if a[0] != b[0] then a[0] < b[0]
    else LexLess(a[1..], b[1..])
  }

  lemma {:induction false} LexLessIrreflexive(a: string)
    ensures !LexLess(a, a)
  {
    if a != [] {
      LexLessIrreflexive(a[1..]);
    }
  }

  lemma {:induction false} LexLessTransitive(a: string, b: string, c: string)
    requires LexLess(a, b) && LexLess(b, c)
    ensures LexLess(a, c)
  {
    if a != [] && a[0] == b[0] && b[0] == c[0] {
      LexLessTransitive(a[1..], b[1..], c[1..]);
    }
  }

  lemma {:induction false} LexLessTotal(a: string, b: string)
    requires a != b
    ensures LexLess(a, b) || LexLess(b, a)
  {
    if a != [] && b != [] && a[0] == b[0] {
      assert a == [a[0]] + a[1..] && b == [b[0]] + b[1..];
      LexLessTotal(a[1..], b[1..]);
    }
  }

  /** Strictly ascending in Python's string order (so also free of repetitions). */
  predicate StrictlySorted(s: seq<string>)
  {
    forall i, j | 0 <= i < j < |s| :: LexLess(s[i], s[j])
  }

  lemma StrictlySortedDistinct(s: seq<string>, i: nat, j: nat)
    requires StrictlySorted(s) && i < |s| && j < |s| && i != j
    ensures s[i] != s[j]
  {
    if i < j {
      LexLessIrreflexive(s[i]);
    } else {
      LexLessIrreflexive(s[j]);
    }
  }

  /** Inserts `x` into its place in an ascending sequence, unless it is already there. */
  function InsertSorted(s: seq<string>, x: string): (r: seq<string>)
    ensures Elems(r) == Elems(s) + {x} && |r| <= |s| + 1
  {
    if s == [] then [x]
    else if x == s[0] then s
    else if LexLess(x, s[0]) then [x] + s
    else
      var r := [s[0]] + InsertSorted(s[1..], x);
      assert s == [s[0]] + s[1..];
      ElemsConcat([s[0]], s[1..]);
      ElemsConcat([s[0]], InsertSorted(s[1..], x));
      r
  }

  lemma {:induction false} InsertSortedSorted(s: seq<string>, x: string)
    requires StrictlySorted(s)
    ensures StrictlySorted(InsertSorted(s, x))
  {
    if s == [] || x == s[0] {
    } else if LexLess(x, s[0]) {
      var r := [x] + s;
      forall i, j | 0 <= i < j < |r| ensures LexLess(r[i], r[j]) {
        if i == 0 && j > 1 {
          LexLessTransitive(x, s[0], s[j - 1]);
        }
      }
    } else {
      LexLessTotal(x, s[0]);
      var tail := InsertSorted(s[1..], x);
      InsertSortedSorted(s[1..], x);
      var r := [s[0]] + tail;
      forall i, j | 0 <= i < j < |r| ensures LexLess(r[i], r[j]) {
        if i == 0 {
          assert r[j] in Elems(tail);
          if r[j] != x {
            var k :| 0 <= k < |s[1..]| && s[1..][k] == r[j];
            assert s[k + 1] == r[j];
          }
        }
      }
    }
  }

  /** `sorted(set(xs))`: the distinct elements of `xs` in ascending order. */
  function SortedDistinct(xs: seq<string>): (r: seq<string>)
    ensures StrictlySorted(r) && Elems(r) == Elems(xs) && |r| <= |xs|
  {
    if xs == [] then []
    else
      var p := SortedDistinct(xs[..|xs| - 1]);
      InsertSortedSorted(p, xs[|xs| - 1]);
      assert xs == xs[..|xs| - 1] + [xs[|xs| - 1]];
      InsertSorted(p, xs[|xs| - 1])
  }

  /** Two ascending sequences with the same elements are equal. */
  lemma {:induction false} StrictlySortedUnique(a: seq<string>, b: seq<string>)
    requires StrictlySorted(a) && StrictlySorted(b) && Elems(a) == Elems(b)
    ensures a == b
  {
    assert a != [] ==> a[0] in Elems(b);
    assert b != [] ==> b[0] in Elems(a);
    if a != [] && b != [] {
      assert a[0] == b[0] by {
        if a[0] != b[0] {
          assert a[0] in Elems(b) && b[0] in Elems(a);
          var i :| 0 <= i < |b| && b[i] == a[0];
          var j :| 0 <= j < |a| && a[j] == b[0];
          assert i > 0 && j > 0;
          LexLessTransitive(a[0], b[0], a[0]);
          LexLessIrreflexive(a[0]);
        }
      }
      assert Elems(a[1..]) == Elems(b[1..]) by {
        forall x | x in Elems(a[1..]) ensures x in Elems(b[1..]) {
          var i :| 0 <= i < |a[1..]| && a[1..][i] == x;
          StrictlySortedDistinct(a, 0, i + 1);
          assert x in Elems(b);
          var j :| 0 <= j < |b| && b[j] == x;
          assert j != 0 && b[1..][j - 1] == x;
        }
        forall x | x in Elems(b[1..]) ensures x in Elems(a[1..]) {
          var i :| 0 <= i < |b[1..]| && b[1..][i] == x;
          StrictlySortedDistinct(b, 0, i + 1);
          assert x in Elems(a);
          var j :| 0 <= j < |a| && a[j] == x;
          assert j != 0 && a[1..][j - 1] == x;
        }
      }
      StrictlySortedUnique(a[1..], b[1..]);
      assert a == [a[0]] + a[1..] && b == [b[0]] + b[1..];
    }
  }

  /** The ASCII part of Python's `str.lower()` on one character. */
  function LowerChar(c: char): char
  {
    if 'A' <= c <= 'Z' then ((c as int) + 32) as char else c
  }

  /** `s.lower()`. */
  function Lower(s: string): (r: string)
    ensures |r| == |s|
  {
    seq(|s|, i requires 0 <= i < |s| => LowerChar(s[i]))
  }
}
