/**
  The quoted-string encoder of the serialiser (writeQuotedString) and a strict decoder
  for its output. Every code point below 0x20, every `"` and every `\` is written as
  `\u` followed by four lower-case hexadecimal digits; everything else, non-ASCII
  included, is copied; the whole is wrapped in `"`.
 */
module Quoting {
  import opened Wrappers

  /** The code points writeQuotedString replaces by an escape sequence. */
  predicate NeedsEscape(c: char) {
    c < ' ' || c == '"' || c == '\\'
  }

  predicate IsLowerHex(c: char) {
    '0' <= c <= '9' || 'a' <= c <= 'f'
  }

  function HexDigit(d: nat): (c: char)
    requires d < 16
    ensures IsLowerHex(c)
  {
    if d < 10 then ('0' as int + d) as char else ('a' as int + d - 10) as char
  }

  function HexValue(c: char): (d: nat)
    requires IsLowerHex(c)
    ensures d < 16 && HexDigit(d) == c
  {
    if c <= '9' then c as int - '0' as int else c as int - 'a' as int + 10
  }

  /** fmt.Sprintf("%04x", n) for n below 0x10000: exactly four lower-case hex digits. */
  function Hex4(n: nat): (h: string)
    requires n < 0x1_0000
    ensures |h| == 4 && IsLowerHex(h[0]) && IsLowerHex(h[1]) && IsLowerHex(h[2]) && IsLowerHex(h[3])
  {
    var low := n / 16;
    var high := low / 16;
    [HexDigit(high / 16), HexDigit(high % 16), HexDigit(low % 16), HexDigit(n % 16)]
  }

  function Hex4Value(h: string): (n: nat)
    requires |h| == 4 && IsLowerHex(h[0]) && IsLowerHex(h[1]) && IsLowerHex(h[2]) && IsLowerHex(h[3])
    ensures n < 0x1_0000
  {
    ((HexValue(h[0]) * 16 + HexValue(h[1])) * 16 + HexValue(h[2])) * 16 + HexValue(h[3])
  }

  lemma Hex4RoundTrip(n: nat)
    requires n < 0x1_0000
    ensures Hex4Value(Hex4(n)) == n
  {
    var h := Hex4(n);
    var low := n / 16;
    var high := low / 16;
    assert n == low * 16 + n % 16;
    assert low == high * 16 + low % 16;
    assert high == high / 16 * 16 + high % 16;
    assert HexValue(h[0]) * 16 + HexValue(h[1]) == high;
    assert (HexValue(h[0]) * 16 + HexValue(h[1])) * 16 + HexValue(h[2]) == low;
  }

  lemma Hex4Canonical(h: string)
    requires |h| == 4 && IsLowerHex(h[0]) && IsLowerHex(h[1]) && IsLowerHex(h[2]) && IsLowerHex(h[3])
    ensures Hex4(Hex4Value(h)) == h
  {
    var a, b, c, d := HexValue(h[0]), HexValue(h[1]), HexValue(h[2]), HexValue(h[3]);
    var high := a * 16 + b;
    var low := high * 16 + c;
    var n := low * 16 + d;
    assert n / 16 == low && n % 16 == d;
    assert low / 16 == high && low % 16 == c;
    assert high / 16 == a && high % 16 == b;
  }

  /** The text written for one code point. */
  function Escape(c: char): string {
    if NeedsEscape(c) then "\\u" + Hex4(c as nat) else [c]
  }

  /** The text between the quotes: each code point escaped in turn. */
  function EscapeBody(s: string): (r: string)
    ensures forall i :: 0 <= i < |r| ==> r[i] == '\\' || !NeedsEscape(r[i])
  {
    if |s| == 0 then [] else Escape(s[0]) + EscapeBody(s[1..])
  }

  /** Text with nothing to escape is written unchanged between the quotes. */
  lemma {:induction false} EscapeBodyPlain(s: string)
    requires forall i :: 0 <= i < |s| ==> !NeedsEscape(s[i])
    ensures EscapeBody(s) == s
  {
    if |s| > 0 {
      EscapeBodyPlain(s[1..]);
      assert s == [s[0]] + s[1..];
    }
  }

  /** Each code point is escaped on its own, so escaping distributes over concatenation. */
  lemma {:induction false} EscapeBodyConcat(a: string, b: string)
    ensures EscapeBody(a + b) == EscapeBody(a) + EscapeBody(b)
    decreases |a|
  {
    if |a| > 0 {
      assert (a + b)[1..] == a[1..] + b;
      EscapeBodyConcat(a[1..], b);
    } else {
      assert a + b == b;
    }
  }

  /** Text with nothing to escape is quoted by surrounding it with quotes. */
  lemma QuoteUnescaped(s: string)
    requires forall i :: 0 <= i < |s| ==> !NeedsEscape(s[i])
    ensures Quote(s) == "\"" + s + "\""
  {
    EscapeBodyPlain(s);
  }

  /** writeQuotedString(s): the quoted literal of s. */
  function Quote(s: string): (r: string)
    ensures |r| >= 2 && r[0] == '"' && r[|r| - 1] == '"'
    ensures forall i :: 0 < i < |r| - 1 ==> r[i] != '"' && r[i] >= ' '
  {
    "\"" + EscapeBody(s) + "\""
  }

  /**
    The inverse of EscapeBody. It accepts exactly what EscapeBody produces: an escape
    sequence must have four lower-case hex digits and denote a code point that needs
    escaping, and such a code point must not occur unescaped.
   */
  function UnescapeBody(t: string): Option<string>
    decreases |t|
  {
    if |t| == 0 then Some([])
    else if t[0] == '\\' then
      if |t| >= 6 && t[1] == 'u' && IsLowerHex(t[2]) && IsLowerHex(t[3])
         && IsLowerHex(t[4]) && IsLowerHex(t[5])
      then
        var n := Hex4Value(t[2..6]);
        if n < 0x20 || n == 0x22 || n == 0x5c then
          var rest :- UnescapeBody(t[6..]);
          Some([n as char] + rest)
        else None
      else None
    else if NeedsEscape(t[0]) then None
    else
      var rest :- UnescapeBody(t[1..]);
      Some([t[0]] + rest)
  }

  function Unquote(t: string): Option<string> {
    if |t| >= 2 && t[0] == '"' && t[|t| - 1] == '"' then UnescapeBody(t[1..|t| - 1]) else None
  }

  lemma {:induction false} UnescapeEscape(s: string)
    ensures UnescapeBody(EscapeBody(s)) == Some(s)
    decreases |s|
  {
    if |s| > 0 {
      var c := s[0];
      var t := EscapeBody(s);
      UnescapeEscape(s[1..]);
      if NeedsEscape(c) {
        Hex4RoundTrip(c as nat);
        assert t == "\\u" + Hex4(c as nat) + EscapeBody(s[1..]);
        assert t[2..6] == Hex4(c as nat);
        assert t[6..] == EscapeBody(s[1..]);
      } else {
        assert t == [c] + EscapeBody(s[1..]);
        assert t[1..] == EscapeBody(s[1..]);
      }
      assert s == [c] + s[1..];
    }
  }

  lemma {:induction false} EscapeUnescape(t: string, s: string)
    requires UnescapeBody(t) == Some(s)
    ensures EscapeBody(s) == t
    decreases |t|
  {
    if |t| > 0 {
      if t[0] == '\\' {
        var n := Hex4Value(t[2..6]);
        var rest := UnescapeBody(t[6..]).value;
        EscapeUnescape(t[6..], rest);
        Hex4Canonical(t[2..6]);
        var c := n as char;
        assert s == [c] + rest;
        assert s[1..] == rest;
        assert NeedsEscape(c);
        assert Escape(c) == t[..6];
        assert t == t[..6] + t[6..];
      } else {
        var rest := UnescapeBody(t[1..]).value;
        EscapeUnescape(t[1..], rest);
        assert s[1..] == rest;
        assert t == [t[0]] + t[1..];
      }
    }
  }

  /** Decoding recovers any quoted text. */
  lemma UnquoteQuote(s: string)
    ensures Unquote(Quote(s)) == Some(s)
  {
    var q := Quote(s);
    assert q[1..|q| - 1] == EscapeBody(s);
    UnescapeEscape(s);
  }

  /** Whatever decodes was produced by the encoder: the encoding is exactly the decoder's language. */
  lemma QuoteUnquote(t: string, s: string)
    requires Unquote(t) == Some(s)
    ensures Quote(s) == t
  {
    var body := t[1..|t| - 1];
    EscapeUnescape(body, s);
    assert t == [t[0]] + body + [t[|t| - 1]];
  }

  /** Distinct texts have distinct quoted literals. */
  lemma QuoteInjective(a: string, b: string)
    requires Quote(a) == Quote(b)
    ensures a == b
  {
    UnquoteQuote(a);
    UnquoteQuote(b);
  }
}
