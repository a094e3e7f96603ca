/**
  The typed-value encoder: writeSnak, writeValue and writeQuantity. A value either
  renders to a literal or is "not rendered" (`None`), which the callers treat as
  "drop this value"; it never fails. A decoder for the literals shows which
  information of the value the literal carries.
 */
module Values {
  import opened Wrappers
  import opened Text
  import opened Quoting
  import opened Wikibase

  /** The unit namespace writeQuantity understands; other units are not written. */
  const EntityPrefix: string := "http://www.wikidata.org/entity/Q"

  predicate Supported(dt: DataType) {
    !dt.OtherDataType?
  }

  /**
    What writeValue dereferences without checking: the datatype always, and the
    data value whenever the datatype is one it handles.
   */
  predicate ValueReadable(s: Snak) {
    s.dataType.Some? && (Supported(s.dataType.value) ==> s.dataValue.Some?)
  }

  /** The value variant each handled datatype expects. */
  predicate Matches(dt: DataType, v: Value) {
    match dt
    case WikiBaseItem => v.EntityIdValue?
    case ExternalID => v.StringValue?
    case CommonsMedia => v.StringValue?
    case URL => v.StringValue?
    case String => v.StringValue?
    case Quantity => v.QuantityValue?
    case Time => v.TimeValue?
    case GlobeCoordinate => v.GlobeCoordinateValue?
    case MonolingualText => v.MonolingualTextValue?
    case OtherDataType(_) => false
  }

  /** A value snak is rendered exactly when its datatype is handled and its value has the matching variant. */
  predicate Renderable(s: Snak)
    requires ValueReadable(s)
  {
    Supported(s.dataType.value) && Matches(s.dataType.value, s.dataValue.value)
  }

  /** writeQuantity: amount, then bounds only when both exist, then an entity unit. */
  function QuantityText(amount: Decimal, lower: Option<Decimal>, upper: Option<Decimal>, unit: string): (r: string)
    ensures HasPrefix(r, amount.text)
    ensures HasPrefix(unit, EntityPrefix) ==>
      var u := "U" + unit[|EntityPrefix|..];
      |u| <= |r| && r[|r| - |u|..] == u
    ensures (lower.None? || upper.None?) && !HasPrefix(unit, EntityPrefix) ==> r == amount.text
  {
    amount.text
    + (if lower.Some? && upper.Some? then "[" + lower.value.text + "," + upper.value.text + "]" else "")
    + (if HasPrefix(unit, EntityPrefix) then "U" + unit[|EntityPrefix|..] else "")
  }

  /** Go's uint64(p) conversion of the precision. */
  function Uint64(p: int): nat {
    p % Uint64Limit
  }

  /** The Time branch of writeValue. */
  function TimeText(t: Instant, precision: int, calendar: Calendar): string {
    (if t.year > 0 then "+" else "")
    + t.rfc3339 + "/" + FormatNat(Uint64(precision))
    + (if calendar == Julian then "/J" else "")
  }

  /**
    The two marks of a time literal: it starts with `+` exactly when the year is positive,
    and it ends with `/J` exactly when the calendar is Julian.
   */
  lemma TimeTextMarks(t: Instant, precision: int, calendar: Calendar)
    requires |t.rfc3339| == 0 || t.rfc3339[0] != '+'
    ensures var r := TimeText(t, precision, calendar);
      && ((|r| > 0 && r[0] == '+') <==> t.year > 0)
      && ((|r| >= 2 && r[|r| - 2..] == "/J") <==> calendar == Julian)
  {
    var digits := FormatNat(Uint64(precision));
    var body := t.rfc3339 + "/" + digits;
    var r := TimeText(t, precision, calendar);
    if t.year > 0 {
      assert r == "+" + body + (if calendar == Julian then "/J" else "");
    } else {
      assert r == body + (if calendar == Julian then "/J" else "");
      assert |t.rfc3339| > 0 ==> r[0] == t.rfc3339[0];
      assert |t.rfc3339| == 0 ==> r[0] == '/';
    }
    if calendar != Julian {
      assert r[|r| - 1] == digits[|digits| - 1];
      assert IsDigit(digits[|digits| - 1]);
    }
  }

  /** The GlobeCoordinate branch of writeValue. */
  function CoordinateText(latitude: Degrees, longitude: Degrees): string {
    "@" + latitude.fixed7 + "/" + longitude.fixed7
  }

  /** writeValue: the literal of a value snak, or None when it is not rendered. */
  function RenderValue(s: Snak): (r: Option<string>)
    requires ValueReadable(s)
    ensures r.Some? <==> Renderable(s)
  {
    match s.dataType.value
    case WikiBaseItem =>
      if s.dataValue.value.EntityIdValue? then Some(s.dataValue.value.id) else None
    case ExternalID => RenderString(s.dataValue.value)
    case CommonsMedia => RenderString(s.dataValue.value)
    case URL => RenderString(s.dataValue.value)
    case String => RenderString(s.dataValue.value)
    case Quantity =>
      (match s.dataValue.value
       case QuantityValue(amount, lower, upper, unit) => Some(QuantityText(amount, lower, upper, unit))
       case _ => None)
    case Time =>
      (match s.dataValue.value
       case TimeValue(t, precision, calendar) => Some(TimeText(t, precision, calendar))
       case _ => None)
    case GlobeCoordinate =>
      (match s.dataValue.value
       case GlobeCoordinateValue(latitude, longitude) => Some(CoordinateText(latitude, longitude))
       case _ => None)
    case MonolingualText =>
      (match s.dataValue.value
       case MonolingualTextValue(language, text) => Some(language + ":" + Quote(text))
       case _ => None)
    case OtherDataType(_) => None
  }

  /** The shared branch of the four text datatypes. */
  function RenderString(v: Value): Option<string> {
    if v.StringValue? then Some(Quote(v.text)) else None
  }

  /** What writeSnak needs: a value snak must be readable by writeValue. */
  predicate SnakReadable(s: Snak) {
    s.snakType.ValueSnak? ==> ValueReadable(s)
  }

  /** writeSnak: dispatches on the snak type. */
  function RenderSnak(s: Snak): (r: Option<string>)
    requires SnakReadable(s)
    ensures r.Some? <==> s.snakType.SomeValueSnak? || s.snakType.NoValueSnak? || (s.snakType.ValueSnak? && Renderable(s))
  {
    match s.snakType
    case ValueSnak => RenderValue(s)
    case SomeValueSnak => Some("somevalue")
    case NoValueSnak => Some("novalue")
    case OtherSnakType(_) => None
  }

  // ---------------------------------------------------------------------------
  // What a literal conveys, and a decoder that recovers it.

  /** The information a rendered value carries. */
  datatype Literal =
    | ItemLiteral(id: string)
    | TextLiteral(text: string)
    | QuantityLiteral(amount: string, bounds: Option<(string, string)>, unitItem: Option<string>)
    | TimeLiteral(positive: bool, instant: string, precision: nat, julian: bool)
    | CoordinateLiteral(latitude: string, longitude: string)
    | MonolingualLiteral(language: string, text: string)

  datatype SnakLiteral = SomeValueLiteral | NoValueLiteral | ValueLiteral(literal: Literal)

  /**
    The information kept of a value: a quantity keeps its bounds only when both exist and
    its unit only when it is an item of the entity namespace; a time keeps only the sign
    of its year, its precision as an unsigned 64-bit number, and whether it is Julian.
   */
  function LiteralOf(dt: DataType, v: Value): Literal
    requires Supported(dt) && Matches(dt, v)
  {
    match v
    case EntityIdValue(id) => ItemLiteral(id)
    case StringValue(text) => TextLiteral(text)
    case QuantityValue(amount, lower, upper, unit) =>
      QuantityLiteral(
        amount.text,
        if lower.Some? && upper.Some? then Some((lower.value.text, upper.value.text)) else None,
        if HasPrefix(unit, EntityPrefix) then Some(unit[|EntityPrefix|..]) else None)
    case TimeValue(t, precision, calendar) =>
      TimeLiteral(t.year > 0, t.rfc3339, Uint64(precision), calendar == Julian)
    case GlobeCoordinateValue(latitude, longitude) => CoordinateLiteral(latitude.fixed7, longitude.fixed7)
    case MonolingualTextValue(language, text) => MonolingualLiteral(language, text)
  }

  function SnakLiteralOf(s: Snak): SnakLiteral
    requires SnakReadable(s)
    requires s.snakType.ValueSnak? ==> Renderable(s)
    requires !s.snakType.OtherSnakType?
  {
    match s.snakType
    case SomeValueSnak => SomeValueLiteral
    case NoValueSnak => NoValueLiteral
    case ValueSnak => ValueLiteral(LiteralOf(s.dataType.value, s.dataValue.value))
  }

  /** The characters a quantity's amount or bound text never contains. */
  predicate DecimalShaped(d: Decimal) {
    && |d.text| > 0
    && (d.text[0] == '+' || d.text[0] == '-' || IsDigit(d.text[0]))
    && Plain(d.text)
    && '[' !in d.text && ',' !in d.text && ']' !in d.text && 'U' !in d.text
  }

  /** An RFC 3339 timestamp as Go formats it: it starts with a digit or '-' and has no '/'. */
  predicate InstantShaped(t: Instant) {
    |t.rfc3339| > 0 && (t.rfc3339[0] == '-' || IsDigit(t.rfc3339[0])) && Plain(t.rfc3339) && '/' !in t.rfc3339
  }

  predicate DegreesShaped(d: Degrees) {
    Plain(d.fixed7) && '/' !in d.fixed7
  }

  /** The shape of an item id and of the library-formatted parts of a value, under which its literal can be decoded. */
  predicate ValueShaped(v: Value) {
    match v
    case EntityIdValue(id) => |id| > 0 && id[0] == 'Q' && Plain(id)
    case StringValue(_) => true
    case QuantityValue(amount, lower, upper, unit) =>
      DecimalShaped(amount)
      && (lower.Some? ==> DecimalShaped(lower.value))
      && (upper.Some? ==> DecimalShaped(upper.value))
      && Plain(unit)
    case TimeValue(t, _, _) => InstantShaped(t)
    case GlobeCoordinateValue(latitude, longitude) => DegreesShaped(latitude) && DegreesShaped(longitude)
    case MonolingualTextValue(language, _) => Plain(language) && ':' !in language
    case OtherValue(_) => true
  }

  function DecodeQuantity(t: string): Option<Literal> {
    var u := IndexOf(t, 'U');
    var head :- DecodeQuantityHead(t[..u]);
    Some(QuantityLiteral(head.0, head.1, if u < |t| then Some(t[u + 1..]) else None))
  }

  /** The amount and the optional `[lower,upper]` in front of the unit. */
  function DecodeQuantityHead(head: string): Option<(string, Option<(string, string)>)> {
    var b := IndexOf(head, '[');
    if b == |head| then Some((head, None))
    else
      var inner := head[b + 1..];
      if |inner| == 0 || inner[|inner| - 1] != ']' then None
      else
        var body := inner[..|inner| - 1];
        var c := IndexOf(body, ',');
        if c == |body| then None
        else Some((head[..b], Some((body[..c], body[c + 1..]))))
  }

  function DecodeTime(t: string): Option<Literal> {
    var positive := |t| > 0 && t[0] == '+';
    DecodeTimeRest(positive, if positive then t[1..] else t)
  }

  /** The instant, the precision and the calendar mark after the sign. */
  function DecodeTimeRest(positive: bool, rest: string): Option<Literal> {
    var slash := IndexOf(rest, '/');
    if slash == |rest| then None
    else
      var after := rest[slash + 1..];
      var j := IndexOf(after, '/');
      var digits := after[..j];
      if |digits| == 0 || !AllDigits(digits) then None
      else if j == |after| then Some(TimeLiteral(positive, rest[..slash], DigitsValue(digits), false))
      else if after[j..] == "/J" then Some(TimeLiteral(positive, rest[..slash], DigitsValue(digits), true))
      else None
  }

  function DecodeCoordinate(t: string): Option<Literal> {
    if |t| == 0 || t[0] != '@' then None
    else
      var rest := t[1..];
      var slash := IndexOf(rest, '/');
      if slash == |rest| then None else Some(CoordinateLiteral(rest[..slash], rest[slash + 1..]))
  }

  function DecodeMonolingual(t: string): Option<Literal> {
    var colon := IndexOf(t, ':');
    if colon == |t| then None
    else
      var text :- Unquote(t[colon + 1..]);
      Some(MonolingualLiteral(t[..colon], text))
  }

  function DecodeValue(dt: DataType, t: string): Option<Literal> {
    match dt
    case WikiBaseItem => Some(ItemLiteral(t))
    case ExternalID => DecodeText(t)
    case CommonsMedia => DecodeText(t)
    case URL => DecodeText(t)
    case String => DecodeText(t)
    case Quantity => DecodeQuantity(t)
    case Time => DecodeTime(t)
    case GlobeCoordinate => DecodeCoordinate(t)
    case MonolingualText => DecodeMonolingual(t)
    case OtherDataType(_) => None
  }

  function DecodeText(t: string): Option<Literal> {
    var text :- Unquote(t);
    Some(TextLiteral(text))
  }

  function DecodeSnak(dt: Option<DataType>, t: string): Option<SnakLiteral> {
    if t == "somevalue" then Some(SomeValueLiteral)
    else if t == "novalue" then Some(NoValueLiteral)
    else if dt.None? then None
    else
      var literal :- DecodeValue(dt.value, t);
      Some(ValueLiteral(literal))
  }

  // ---------------------------------------------------------------------------
  // Decoding the literals.

  lemma DigitsHaveNoSlash(s: string)
    requires AllDigits(s)
    ensures '/' !in s && Plain(s)
  {
    assert forall i :: 0 <= i < |s| ==> s[i] != '/' && s[i] != '\t' && s[i] != '\n';
  }

  lemma DecodeBounds(a: string, lo: string, hi: string)
    requires '[' !in a && ',' !in lo
    ensures var head := a + "[" + lo + "," + hi + "]";
      && IndexOf(head, '[') == |a|
      && head[..|a|] == a
      && head[|a| + 1..] == lo + "," + hi + "]"
      && IndexOf(lo + "," + hi, ',') == |lo|
      && (lo + "," + hi)[..|lo|] == lo && (lo + "," + hi)[|lo| + 1..] == hi
  {
    CutAtFirst(a, '[', lo + "," + hi + "]");
    assert a + "[" + lo + "," + hi + "]" == a + ['['] + (lo + "," + hi + "]");
    CutAtFirst(lo, ',', hi);
  }

  lemma DecodeBoundedHead(a: string, lo: string, hi: string)
    requires '[' !in a && ',' !in lo
    ensures DecodeQuantityHead(a + "[" + lo + "," + hi + "]") == Some((a, Some((lo, hi))))
  {
    var head := a + "[" + lo + "," + hi + "]";
    DecodeBounds(a, lo, hi);
    var inner := head[|a| + 1..];
    assert inner == lo + "," + hi + "]";
    assert inner[|inner| - 1] == ']';
    assert inner[..|inner| - 1] == lo + "," + hi;
  }

  lemma DecodeUnboundedHead(a: string)
    requires '[' !in a
    ensures DecodeQuantityHead(a + "") == Some((a, None))
  {
    IndexOfAppend(a, [], '[');
    assert a + [] == a;
    assert a + "" == a;
  }

  lemma DecodeUnit(head: string, unit: string)
    requires 'U' !in head
    ensures var t := head + (if HasPrefix(unit, EntityPrefix) then "U" + unit[|EntityPrefix|..] else "");
      && IndexOf(t, 'U') == |head|
      && t[..|head|] == head
      && (if |head| < |t| then Some(t[|head| + 1..]) else None)
         == (if HasPrefix(unit, EntityPrefix) then Some(unit[|EntityPrefix|..]) else None)
  {
    if HasPrefix(unit, EntityPrefix) {
      CutAtFirst(head, 'U', unit[|EntityPrefix|..]);
      assert head + ("U" + unit[|EntityPrefix|..]) == head + ['U'] + unit[|EntityPrefix|..];
    } else {
      IndexOfAppend(head, [], 'U');
      assert head + [] == head;
      assert head + "" == head;
    }
  }

  lemma DecodeQuantityText(amount: Decimal, lower: Option<Decimal>, upper: Option<Decimal>, unit: string)
    requires DecimalShaped(amount)
    requires lower.Some? ==> DecimalShaped(lower.value)
    requires upper.Some? ==> DecimalShaped(upper.value)
    ensures DecodeQuantity(QuantityText(amount, lower, upper, unit))
         == Some(LiteralOf(Quantity, QuantityValue(amount, lower, upper, unit)))
  {
    var head := amount.text + (if lower.Some? && upper.Some? then "[" + lower.value.text + "," + upper.value.text + "]" else "");
    var t := head + (if HasPrefix(unit, EntityPrefix) then "U" + unit[|EntityPrefix|..] else "");
    assert QuantityText(amount, lower, upper, unit) == t;
    DecodeQuantityParts(amount, lower, upper, unit, head, t);
  }

  /** DecodeQuantityText over the two parts of the text, apart from QuantityText's own facts. */
  lemma DecodeQuantityParts(amount: Decimal, lower: Option<Decimal>, upper: Option<Decimal>, unit: string, head: string, t: string)
    requires DecimalShaped(amount)
    requires lower.Some? ==> DecimalShaped(lower.value)
    requires upper.Some? ==> DecimalShaped(upper.value)
    requires head == amount.text + (if lower.Some? && upper.Some? then "[" + lower.value.text + "," + upper.value.text + "]" else "")
    requires t == head + (if HasPrefix(unit, EntityPrefix) then "U" + unit[|EntityPrefix|..] else "")
    ensures DecodeQuantity(t) == Some(LiteralOf(Quantity, QuantityValue(amount, lower, upper, unit)))
  {
    var bounds := if lower.Some? && upper.Some? then Some((lower.value.text, upper.value.text)) else None;
    DecodeHeadOf(amount, lower, upper, head);
    HeadHasNoUnitMark(amount, lower, upper, head);
    DecodeUnit(head, unit);
    DecodeQuantityOf(t, head, amount.text, bounds);
  }

  /** The part in front of the unit gives back the amount and, when both exist, the bounds. */
  /** No part of the amount and bounds contains the `U` that starts the unit. */
  lemma HeadHasNoUnitMark(amount: Decimal, lower: Option<Decimal>, upper: Option<Decimal>, head: string)
    requires DecimalShaped(amount)
    requires lower.Some? ==> DecimalShaped(lower.value)
    requires upper.Some? ==> DecimalShaped(upper.value)
    requires head == amount.text + (if lower.Some? && upper.Some? then "[" + lower.value.text + "," + upper.value.text + "]" else "")
    ensures 'U' !in head
  {
    if lower.Some? && upper.Some? {
      var bounds := "[" + lower.value.text + "," + upper.value.text + "]";
      assert 'U' !in bounds;
      assert head == amount.text + bounds;
    } else {
      assert head == amount.text + "";
    }
  }

  lemma DecodeHeadOf(amount: Decimal, lower: Option<Decimal>, upper: Option<Decimal>, head: string)
    requires DecimalShaped(amount)
    requires lower.Some? ==> DecimalShaped(lower.value)
    requires head == amount.text + (if lower.Some? && upper.Some? then "[" + lower.value.text + "," + upper.value.text + "]" else "")
    ensures DecodeQuantityHead(head)
         == Some((amount.text, if lower.Some? && upper.Some? then Some((lower.value.text, upper.value.text)) else None))
  {
    var a := amount.text;
    if lower.Some? && upper.Some? {
      var lo, hi := lower.value.text, upper.value.text;
      assert head == a + ("[" + lo + "," + hi + "]");
      assert a + ("[" + lo + "," + hi + "]") == a + "[" + lo + "," + hi + "]";
      DecodeBoundedHead(a, lo, hi);
    } else {
      DecodeUnboundedHead(a);
    }
  }

  lemma DecodeQuantityOf(t: string, head: string, a: string, bounds: Option<(string, string)>)
    requires IndexOf(t, 'U') == |head| && t[..|head|] == head
    requires DecodeQuantityHead(head) == Some((a, bounds))
    ensures DecodeQuantity(t) == Some(QuantityLiteral(a, bounds, if |head| < |t| then Some(t[|head| + 1..]) else None))
  {
  }

  lemma DecodeTimeTail(digits: string, julian: bool)
    requires |digits| > 0 && AllDigits(digits)
    ensures var after := digits + (if julian then "/J" else "");
      var j := IndexOf(after, '/');
      && after[..j] == digits
      && (j == |after| <==> !julian)
      && (julian ==> after[j..] == "/J")
  {
    DigitsHaveNoSlash(digits);
    if julian {
      CutAtFirst(digits, '/', "J");
      assert digits + "/J" == digits + ['/'] + "J";
    } else {
      IndexOfAppend(digits, [], '/');
      assert digits + [] == digits;
    }
  }

  lemma DecodeTimeText(t: Instant, precision: int, calendar: Calendar)
    requires InstantShaped(t)
    ensures DecodeTime(TimeText(t, precision, calendar))
         == Some(TimeLiteral(t.year > 0, t.rfc3339, Uint64(precision), calendar == Julian))
  {
    var digits := FormatNat(Uint64(precision));
    var rest := t.rfc3339 + ['/'] + digits + (if calendar == Julian then "/J" else "");
    var text := (if t.year > 0 then "+" else "") + rest;
    assert TimeText(t, precision, calendar) == text;
    DecodeTimeSign(text, t.year > 0, rest);
    DecodeTimeRestText(t.year > 0, t.rfc3339, digits, calendar == Julian);
  }

  /** A leading `+` is the sign and nothing else is, as long as the rest does not start with `+`. */
  lemma DecodeTimeSign(t: string, positive: bool, rest: string)
    requires |rest| > 0 && rest[0] != '+'
    requires t == (if positive then "+" else "") + rest
    ensures DecodeTime(t) == DecodeTimeRest(positive, rest)
  {
    if positive {
      assert t[1..] == rest;
    } else {
      assert t == rest;
    }
  }

  /** An instant without `/`, a slash, a numeral and an optional `/J` give back those three parts. */
  lemma DecodeTimeRestText(positive: bool, instant: string, digits: string, julian: bool)
    requires '/' !in instant && Canonical(digits)
    ensures DecodeTimeRest(positive, instant + ['/'] + digits + (if julian then "/J" else ""))
         == Some(TimeLiteral(positive, instant, DigitsValue(digits), julian))
  {
    var after := digits + (if julian then "/J" else "");
    CutAtFirst(instant, '/', after);
    assert instant + ['/'] + digits + (if julian then "/J" else "") == instant + ['/'] + after;
    DecodeTimeTail(digits, julian);
  }

  lemma DecodeCoordinateText(latitude: Degrees, longitude: Degrees)
    requires DegreesShaped(latitude)
    ensures DecodeCoordinate(CoordinateText(latitude, longitude))
         == Some(CoordinateLiteral(latitude.fixed7, longitude.fixed7))
  {
    var t := CoordinateText(latitude, longitude);
    var rest := latitude.fixed7 + "/" + longitude.fixed7;
    assert t[1..] == rest;
    IndexOfAppend(latitude.fixed7, "/" + longitude.fixed7, '/');
    assert rest == latitude.fixed7 + ("/" + longitude.fixed7);
    assert rest[..|latitude.fixed7|] == latitude.fixed7;
    assert rest[|latitude.fixed7| + 1..] == longitude.fixed7;
  }

  lemma DecodeMonolingualText(language: string, text: string)
    requires ':' !in language
    ensures DecodeMonolingual(language + ":" + Quote(text)) == Some(MonolingualLiteral(language, text))
  {
    var t := language + ":" + Quote(text);
    IndexOfAppend(language, ":" + Quote(text), ':');
    assert t == language + (":" + Quote(text));
    assert t[..|language|] == language;
    assert t[|language| + 1..] == Quote(text);
    UnquoteQuote(text);
  }

  /** Every rendered value decodes, under its datatype, to exactly the information LiteralOf keeps. */
  lemma DecodeRenderValue(s: Snak)
    requires ValueReadable(s) && Renderable(s) && ValueShaped(s.dataValue.value)
    ensures DecodeValue(s.dataType.value, RenderValue(s).value)
         == Some(LiteralOf(s.dataType.value, s.dataValue.value))
  {
    match s.dataValue.value
    case EntityIdValue(_) =>
    case StringValue(text) =>
      UnquoteQuote(text);
    case QuantityValue(amount, lower, upper, unit) =>
      DecodeQuantityText(amount, lower, upper, unit);
    case TimeValue(t, precision, calendar) =>
      DecodeTimeText(t, precision, calendar);
    case GlobeCoordinateValue(latitude, longitude) =>
      DecodeCoordinateText(latitude, longitude);
    case MonolingualTextValue(language, text) =>
      DecodeMonolingualText(language, text);
  }

  /** A shaped value literal is never one of the two literals reserved for SomeValue and NoValue. */
  lemma ValueLiteralNotReserved(s: Snak)
    requires ValueReadable(s) && Renderable(s) && ValueShaped(s.dataValue.value)
    ensures RenderValue(s).value != "somevalue" && RenderValue(s).value != "novalue"
  {
    var t := RenderValue(s).value;
    match s.dataValue.value
    case EntityIdValue(id) =>
      assert t[0] == 'Q';
    case StringValue(text) =>
      assert t[0] == '"';
    case QuantityValue(amount, lower, upper, unit) =>
      assert t[0] == amount.text[0];
    case TimeValue(i, precision, calendar) =>
      assert t[0] == '+' || t[0] == i.rfc3339[0];
    case GlobeCoordinateValue(_, _) =>
      assert t[0] == '@';
    case MonolingualTextValue(language, text) =>
      assert t[|language|] == ':';
      assert ':' !in "somevalue" && ':' !in "novalue";
  }

  /** Every rendered snak decodes to its kind and, for a value snak, to its value's information. */
  lemma DecodeRenderSnak(s: Snak)
    requires SnakReadable(s) && RenderSnak(s).Some?
    requires s.snakType.ValueSnak? ==> ValueShaped(s.dataValue.value)
    ensures DecodeSnak(s.dataType, RenderSnak(s).value) == Some(SnakLiteralOf(s))
  {
    if s.snakType.ValueSnak? {
      ValueLiteralNotReserved(s);
      DecodeRenderValue(s);
    }
  }

  lemma QuotePlain(text: string)
    ensures Plain(Quote(text))
  {
    var q := Quote(text);
    assert forall i :: 0 <= i < |q| ==> q[i] != '\t' && q[i] != '\n';
  }

  lemma SuffixPlain(s: string, k: nat)
    requires Plain(s) && k <= |s|
    ensures Plain(s[k..])
  {
    assert forall i :: 0 <= i < |s[k..]| ==> s[k..][i] == s[k + i];
  }

  /** A rendered value of shaped parts contains no tab and no newline, so it fits in one field. */
  lemma RenderValuePlain(s: Snak)
    requires ValueReadable(s) && Renderable(s) && ValueShaped(s.dataValue.value)
    ensures Plain(RenderValue(s).value)
  {
    match s.dataValue.value
    case EntityIdValue(_) =>
    case StringValue(text) =>
      QuotePlain(text);
    case QuantityValue(amount, lower, upper, unit) =>
      if HasPrefix(unit, EntityPrefix) {
        SuffixPlain(unit, |EntityPrefix|);
      }
    case TimeValue(t, precision, calendar) =>
      DigitsHaveNoSlash(FormatNat(Uint64(precision)));
    case GlobeCoordinateValue(_, _) =>
    case MonolingualTextValue(language, text) =>
      QuotePlain(text);
  }

  lemma RenderSnakPlain(s: Snak)
    requires SnakReadable(s) && RenderSnak(s).Some?
    requires s.snakType.ValueSnak? ==> ValueShaped(s.dataValue.value)
    ensures Plain(RenderSnak(s).value)
  {
    if s.snakType.ValueSnak? {
      RenderValuePlain(s);
    }
  }
}
