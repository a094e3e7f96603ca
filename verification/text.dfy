/**
  Text as sequences of Unicode code points, with the few string facilities of Go's
  `strings` and `strconv` packages that the serialiser calls: decimal formatting and
  parsing of unsigned integers, byte-wise string order, prefix tests, and the
  tab-separated field syntax of output lines.
 */
module Text {
  import opened Wrappers

  predicate IsDigit(c: char) {
    '0' <= c <= '9'
  }

  predicate AllDigits(s: string) {
    forall i :: 0 <= i < |s| ==> IsDigit(s[i])
  }

  function DigitChar(d: nat): (c: char)
    requires d < 10
    ensures IsDigit(c)
  {
    ('0' as int + d) as char
  }

  function DigitValue(c: char): (d: nat)
    requires IsDigit(c)
    ensures d < 10 && DigitChar(d) == c
  {
    c as int - '0' as int
  }

  /** The value of a string of decimal digits, most significant digit first. */
  function DigitsValue(s: string): nat
    requires AllDigits(s)
  {
    if |s| == 0 then 0 else 10 * DigitsValue(s[..|s| - 1]) + DigitValue(s[|s| - 1])
  }

  /** A decimal numeral without superfluous leading zeros, as strconv.FormatUint writes. */
  predicate Canonical(s: string) {
    |s| > 0 && AllDigits(s) && (s[0] == '0' ==> |s| == 1)
  }

  /** strconv.FormatUint(n, 10): the canonical decimal numeral of n. */
  function FormatNat(n: nat): (r: string)
    ensures Canonical(r)
    ensures DigitsValue(r) == n
  {
    if n < 10 then [DigitChar(n)]
    else
      var r := FormatNat(n / 10) + [DigitChar(n % 10)];
      assert r[..|r| - 1] == FormatNat(n / 10);
      r
  }

  lemma LeadingDigitPositive(s: string)
    requires |s| > 0 && AllDigits(s) && s[0] != '0'
    ensures DigitsValue(s) > 0
  {
    if |s| > 1 {
      LeadingDigitPositive(s[..|s| - 1]);
    }
  }

  /** Formatting is a left inverse of evaluation on canonical numerals. */
  lemma {:induction false} FormatDigitsValue(s: string)
    requires Canonical(s)
    ensures FormatNat(DigitsValue(s)) == s
    decreases |s|
  {
    if |s| > 1 {
      var t := s[..|s| - 1];
      var d := DigitValue(s[|s| - 1]);
      var n := DigitsValue(s);
      assert n == 10 * DigitsValue(t) + d;
      LeadingDigitPositive(t);
      assert n / 10 == DigitsValue(t) && n % 10 == d;
      assert FormatNat(n) == FormatNat(DigitsValue(t)) + [DigitChar(d)];
      FormatDigitsValue(t);
      assert s == t + [s[|s| - 1]];
    } else {
      assert s == [DigitChar(DigitValue(s[0]))];
    }
  }

  /** 2^64: the bound of Go's uint64. */
  const Uint64Limit: nat := 0x1_0000_0000_0000_0000

  /**
    strconv.ParseUint(s, 10, 64): scans the digits left to right, rejecting an empty
    string, any character that is not an ASCII digit, and any value that no longer fits
    in 64 bits.
   */
  function ParseUint64(s: string): (r: Option<nat>)
    ensures r.Some? <==> |s| > 0 && AllDigits(s) && DigitsValue(s) < Uint64Limit
    ensures r.Some? ==> r.value == DigitsValue(s)
  {
    if |s| == 0 then None else ParseDigits(s, 0)
  }

  /** The digit loop of ParseUint from position k on, with the value of s[..k] accumulated. */
  function ParseDigits(s: string, k: nat): (r: Option<nat>)
    requires k <= |s| && AllDigits(s[..k]) && DigitsValue(s[..k]) < Uint64Limit
    ensures r.Some? <==> AllDigits(s) && DigitsValue(s) < Uint64Limit
    ensures r.Some? ==> r.value == DigitsValue(s)
    decreases |s| - k
  {
    if k == |s| then
      assert s[..k] == s;
      Some(DigitsValue(s[..k]))
    else if !IsDigit(s[k]) then
      None
    else
      var p := s[..k + 1];
      assert p[..k] == s[..k];
      var n := 10 * DigitsValue(s[..k]) + DigitValue(s[k]);
      assert DigitsValue(p) == n;
      if n >= Uint64Limit then
        PrefixValueBound(s, k + 1);
        None
      else
        ParseDigits(s, k + 1)
  }

  /** The value of a digit prefix never exceeds the value of the whole numeral. */
  lemma PrefixValueBound(s: string, k: nat)
    requires k <= |s|
    ensures AllDigits(s) ==> AllDigits(s[..k]) && DigitsValue(s[..k]) <= DigitsValue(s)
    decreases |s| - k
  {
    if k == |s| {
      assert s[..k] == s;
    } else if AllDigits(s) {
      PrefixValueBound(s, k + 1);
      var p := s[..k + 1];
      assert p[..k] == s[..k];
      assert DigitsValue(p) == 10 * DigitsValue(s[..k]) + DigitValue(s[k]);
    }
  }

  /** A numeral the serialiser writes for a 64-bit number is parsed back to that number. */
  lemma ParseFormat(n: nat)
    requires n < Uint64Limit
    ensures ParseUint64(FormatNat(n)) == Some(n)
  {
  }

  /** Byte-wise order of Go strings, which on UTF-8 text coincides with code-point order. */
  predicate TextLess(a: string, b: string) {
    if |a| == 0 then |b| > 0
    else if |b| == 0 then false
    else if a[0] != b[0] then a[0] < b[0]
    else TextLess(a[1..], b[1..])
  }

  predicate TextLeq(a: string, b: string) {
    a == b || TextLess(a, b)
  }

  lemma TextLessIrreflexive(a: string)
    ensures !TextLess(a, a)
  {
  }

  lemma {:induction false} TextLessTransitive(a: string, b: string, c: string)
    requires TextLess(a, b) && TextLess(b, c)
    ensures TextLess(a, c)
    decreases |a|
  {
    if |a| > 0 && a[0] == b[0] && b[0] == c[0] {
      TextLessTransitive(a[1..], b[1..], c[1..]);
    }
  }

  lemma {:induction false} TextLessTotal(a: string, b: string)
    ensures a == b || TextLess(a, b) || TextLess(b, a)
    decreases |a|
  {
    if |a| > 0 && |b| > 0 && a[0] == b[0] {
      TextLessTotal(a[1..], b[1..]);
      if a[1..] == b[1..] {
        assert a == [a[0]] + a[1..] && b == [b[0]] + b[1..];
      }
    }
  }

  lemma {:induction false} TextLessAsymmetric(a: string, b: string)
    requires TextLess(a, b)
    ensures !TextLess(b, a)
    decreases |a|
  {
    if |a| > 0 && a[0] == b[0] {
      TextLessAsymmetric(a[1..], b[1..]);
    }
  }

  /** Putting the same section marker in front of two keys does not change their order. */
  lemma MarkerPreservesOrder(m: char, a: string, b: string)
    ensures TextLess([m] + a, [m] + b) <==> TextLess(a, b)
  {
    assert ([m] + a)[1..] == a && ([m] + b)[1..] == b;
  }

  predicate HasPrefix(s: string, prefix: string) {
    |prefix| <= |s| && s[..|prefix|] == prefix
  }

  /** The position of the first occurrence of c in s, or |s| when there is none. */
  function IndexOf(s: string, c: char): (i: nat)
    ensures i <= |s|
    ensures i < |s| ==> s[i] == c
    ensures forall j :: 0 <= j < i ==> s[j] != c
  {
    if |s| == 0 then 0 else if s[0] == c then 0 else 1 + IndexOf(s[1..], c)
  }

  lemma IndexOfAppend(a: string, b: string, c: char)
    requires c !in a
    ensures IndexOf(a + b, c) == |a| + IndexOf(b, c)
  {
    if |a| == 0 {
      assert a + b == b;
    } else {
      assert (a + b)[1..] == a[1..] + b;
      IndexOfAppend(a[1..], b, c);
    }
  }

  /** Cutting a + [c] + b at the first c gives back a and b when a has no c. */
  lemma CutAtFirst(a: string, c: char, b: string)
    requires c !in a
    ensures IndexOf(a + [c] + b, c) == |a|
    ensures (a + [c] + b)[..|a|] == a && (a + [c] + b)[|a| + 1..] == b
  {
    IndexOfAppend(a, [c] + b, c);
    assert a + [c] + b == a + ([c] + b);
  }

  /** A text without tab or newline: one that a field of an output line can carry. */
  predicate Plain(s: string) {
    '\t' !in s && '\n' !in s
  }

  /** fields[0] + sep + fields[1] + sep + ... */
  function Join(fields: seq<string>, sep: char): string
    requires |fields| > 0
  {
    if |fields| == 1 then fields[0] else fields[0] + [sep] + Join(fields[1..], sep)
  }

  /** The pieces of s between occurrences of sep. */
  function Split(s: string, sep: char): (r: seq<string>)
    ensures |r| > 0
    decreases |s|
  {
    var i := IndexOf(s, sep);
    if i == |s| then [s] else [s[..i]] + Split(s[i + 1..], sep)
  }

  /** Splitting undoes joining as long as no field contains the separator. */
  lemma {:induction false} SplitJoin(fields: seq<string>, sep: char)
    requires |fields| > 0
    requires forall i :: 0 <= i < |fields| ==> sep !in fields[i]
    ensures Split(Join(fields, sep), sep) == fields
    decreases |fields|
  {
    if |fields| == 1 {
      SplitOne(fields[0], sep);
    } else {
      var rest := Join(fields[1..], sep);
      SplitStep(fields[0], sep, rest);
      SplitJoin(fields[1..], sep);
      assert fields == [fields[0]] + fields[1..];
    }
  }

  lemma SplitOne(f: string, sep: char)
    requires sep !in f
    ensures Split(f, sep) == [f]
  {
    IndexOfAppend(f, [], sep);
    assert f + [] == f;
  }

  lemma SplitStep(f: string, sep: char, rest: string)
    requires sep !in f
    ensures Split(f + [sep] + rest, sep) == [f] + Split(rest, sep)
  {
    CutAtFirst(f, sep, rest);
  }

  lemma JoinNoChar(fields: seq<string>, sep: char, c: char)
    requires |fields| > 0 && c != sep
    requires forall i :: 0 <= i < |fields| ==> c !in fields[i]
    ensures c !in Join(fields, sep)
  {
    if |fields| > 1 {
      JoinNoChar(fields[1..], sep, c);
    }
  }
}
