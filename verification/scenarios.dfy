/**
  Worked examples of the serialiser's output on small inputs: the quoting of embedded
  quotes, a bounded quantity with an item unit, a positive Gregorian and a Julian time,
  the rank markers, and a whole one-label, one-claim entity.
 */
module Scenarios {
  import opened Wrappers
  import opened Text
  import opened Seqs
  import opened Sorting
  import opened Quoting
  import opened Wikibase
  import opened Values
  import opened Lines
  import opened Statements
  import opened Claims
  import opened Entities

  /** Code point 0x22 is written as the four hex digits `0022`. */
  lemma QuoteCodePoint()
    ensures Hex4('"' as nat) == "0022"
  {
    var n := '"' as nat;
    assert n == 34 && n / 16 == 2 && n % 16 == 2;
    assert HexDigit(0) == '0' && HexDigit(2) == '2';
  }

  /** An embedded quote is written as the escape of code point 0x22, the delimiting quotes as they are. */
  lemma QuoteEmbeddedQuote()
    ensures Quote("a\"b") == "\"a\\u0022b\""
  {
    QuoteCodePoint();
    EscapeBodyConcat("a", "\"b");
    EscapeBodyConcat("\"", "b");
    assert "a" + "\"b" == "a\"b";
    assert "\"" + "b" == "\"b";
    assert EscapeBody("a") == "a";
    assert EscapeBody("b") == "b";
    assert EscapeBody("\"") == "\\u0022";
  }

  /** Amount 2 with bounds 1 and 3 in unit Q11573 is written `2[1,3]U11573`. */
  lemma QuantityWithBoundsAndUnit()
    ensures QuantityText(Decimal("2"), Some(Decimal("1")), Some(Decimal("3")), "http://www.wikidata.org/entity/Q11573")
         == "2[1,3]U11573"
  {
  }

  /** A unit outside the entity namespace and a single bound are both left out. */
  lemma QuantityWithoutUnit()
    ensures QuantityText(Decimal("2"), Some(Decimal("1")), None, "1") == "2"
  {
  }

  /** Precision 9 is written as the digit 9. */
  lemma PrecisionNine()
    ensures FormatNat(Uint64(9)) == "9"
  {
    assert Uint64(9) == 9;
  }

  /** Year 1000 at precision 9 in the Gregorian calendar: a leading `+` and a trailing `/9`. */
  lemma TimeOfYear1000()
    ensures TimeText(Instant(1000, "1000-01-01T00:00:00Z"), 9, Gregorian) == "+1000-01-01T00:00:00Z/9"
  {
    PrecisionNine();
  }

  /** The same instant in the Julian calendar also ends in `/J`. */
  lemma JulianTimeOfYear1000()
    ensures TimeText(Instant(1000, "1000-01-01T00:00:00Z"), 9, Julian) == "+1000-01-01T00:00:00Z/9/J"
  {
    var t := Instant(1000, "1000-01-01T00:00:00Z");
    TimeOfYear1000();
    assert TimeText(t, 9, Julian) == TimeText(t, 9, Gregorian) + "/J";
  }

  /** A year before the common era has no `+`; the sign comes from the instant's own rendering. */
  lemma TimeBeforeCommonEra()
    ensures TimeText(Instant(-50, "-0050-01-01T00:00:00Z"), 9, Gregorian) == "-0050-01-01T00:00:00Z/9"
  {
  }

  function Item(property: string, id: string): Snak {
    Snak(ValueSnak, property, Some(WikiBaseItem), Some(EntityIdValue(id)))
  }

  function NoValueStatement(rank: Rank): Statement {
    Statement(Snak(NoValueSnak, "P31", None, None), rank, map[], [], [])
  }

  /** The three ranks of a `P31 novalue` statement: `↑novalue`, `novalue` and `↓novalue`. */
  lemma RankMarkers()
    ensures StatementLine("Q5", "P31", NoValueStatement(Preferred)) == Some(Line("Q5", "P31", ["↑novalue"]))
    ensures StatementLine("Q5", "P31", NoValueStatement(Normal)) == Some(Line("Q5", "P31", ["novalue"]))
    ensures StatementLine("Q5", "P31", NoValueStatement(Deprecated)) == Some(Line("Q5", "P31", ["↓novalue"]))
  {
    forall r: Rank
      ensures StatementLine("Q5", "P31", NoValueStatement(r)) == Some(Line("Q5", "P31", [RankMarker(r) + "novalue"]))
    {
      var stmt := NoValueStatement(r);
      var head := [RankMarker(r) + "novalue"];
      assert RenderSnak(stmt.mainSnak) == Some("novalue");
      assert QualifierFields(stmt) == [];
      assert ReferencesFields(stmt.references, 0) == [];
      assert head + QualifierFields(stmt) + ReferencesFields(stmt.references, 0) == head;
    }
    assert RankMarker(Preferred) + "novalue" == "↑novalue";
    assert RankMarker(Normal) + "novalue" == "novalue";
    assert RankMarker(Deprecated) + "novalue" == "↓novalue";
  }

  /** A statement whose main value has a datatype the serialiser does not handle has no line at all. */
  lemma UnsupportedMainValue()
    ensures StatementLine("Q5", "P18",
              Statement(Snak(ValueSnak, "P18", Some(OtherDataType("math")), Some(StringValue("x"))), Normal, map[], [], []))
         == None
  {
  }

  /** A reference citing item `id` under P248. */
  function Cites(id: string): Reference {
    Reference(map["P248" := [Item("P248", id)]], ["P248"])
  }

  /** A reference whose only snak has a datatype the serialiser does not handle. */
  function Unwritable(): Reference {
    Reference(map["P248" := [Snak(ValueSnak, "P248", Some(OtherDataType("math")), Some(StringValue("x")))]], ["P248"])
  }

  /** The entries of a reference with one key holding one snak. */
  lemma SingleEntry(ref: Reference, key: string, snak: Snak)
    requires ref.snaksOrder == [key] && key in ref.snaks && ref.snaks[key] == [snak]
    ensures ReferenceEntries(ref) == [(key, snak)]
  {
    assert Group(ref.snaks, key) == [snak];
    assert Tag(key, [snak]) == [(key, snak)];
    assert ref.snaksOrder[1..] == [];
    assert Entries(ref.snaks, []) == [];
    assert Entries(ref.snaks, ref.snaksOrder) == Tag(key, [snak]) + Entries(ref.snaks, []);
  }

  lemma CitesFields(id: string, first: bool)
    ensures EntriesReadable(ReferenceEntries(Cites(id)))
    ensures ReferenceFields(Cites(id), first) == Some([if first then "S248" else "!S248", id])
  {
    var ref := Cites(id);
    var snak := Item("P248", id);
    SingleEntry(ref, "P248", snak);
    var es := ReferenceEntries(ref);
    assert es[1..] == [];
    assert RenderSnak(snak) == Some(id);
    assert "P248"[1..] == "248";
    assert Bang(ref, first) == !first;
    assert EntryFields(es[1..], false) == Some([]);
    var marker := if first then "S248" else "!S248";
    assert ReferenceMarker(!first, snak) == marker;
    assert EntryFields(es, !first) == Some([marker, id] + []);
    assert [marker, id] + [] == [marker, id];
  }

  lemma UnwritableFields(first: bool)
    ensures EntriesReadable(ReferenceEntries(Unwritable()))
    ensures ReferenceFields(Unwritable(), first) == None
  {
    var ref := Unwritable();
    SingleEntry(ref, "P248", ref.snaks["P248"][0]);
  }

  /** The second reference of a statement starts with `!`, the first does not. */
  lemma ReferenceMarkers()
    ensures ReferencesFields([Cites("Q1"), Cites("Q2")], 0) == ["S248", "Q1", "!S248", "Q2"]
  {
    CitesFields("Q1", true);
    CitesFields("Q2", false);
    assert ReferencesFields([Cites("Q1"), Cites("Q2")], 2) == [];
  }

  /** When the first reference is dropped, the first written one still starts with `!`. */
  lemma DroppedFirstReferenceMarker()
    ensures ReferencesFields([Unwritable(), Cites("Q2")], 0) == ["!S248", "Q2"]
  {
    UnwritableFields(true);
    CitesFields("Q2", false);
    assert ReferencesFields([Unwritable(), Cites("Q2")], 2) == [];
  }

  /** The rank of the statements in the end-to-end example; its values do not matter there. */
  function RankCode(r: Rank): int {
    match r
    case Preferred => 1
    case Normal => 2
    case Deprecated => 3
  }

  function HumanStatement(): Statement {
    Statement(Item("P31", "Q5"), Normal, map[], [], [])
  }

  function Human(): Entity {
    Entity("Q5", [LanguageValue("en", "human")], [], [], [Claim("P31", [HumanStatement()])], [])
  }

  lemma HumanStatementLine()
    ensures StatementLine("Q5", "P31", HumanStatement()) == Some(Line("Q5", "P31", ["Q5"]))
  {
    var stmt := HumanStatement();
    assert RenderSnak(stmt.mainSnak) == Some("Q5");
    assert RankMarker(Normal) + "Q5" == "Q5";
    assert QualifierFields(stmt) == [];
    assert ReferencesFields(stmt.references, 0) == [];
    assert ["Q5"] + QualifierFields(stmt) + ReferencesFields(stmt.references, 0) == ["Q5"];
  }

  lemma ParseThirtyOne()
    ensures ParseUint64("31") == Some(31)
  {
    assert "31"[..1] == "3";
    assert DigitsValue("31") == 31;
  }

  lemma HumanParsed()
    ensures ParseClaims(Human().claims) == Success([PropertyClaim(31, [HumanStatement()])])
  {
    var claims := Human().claims;
    assert claims[0].key[0] == 'P' && claims[0].key[1..] == "31";
    ParseThirtyOne();
    assert ParseClaims(claims[1..]) == Success([]);
    assert [PropertyClaim(31, [HumanStatement()])] + [] == [PropertyClaim(31, [HumanStatement()])];
  }

  lemma HumanSorted()
    ensures SortClaims([PropertyClaim(31, [HumanStatement()])], RankCode) == [PropertyClaim(31, [HumanStatement()])]
  {
    var stmts := [HumanStatement()];
    var pcs := [PropertyClaim(31, stmts)];
    assert SortBy(pcs, ByProperty) == pcs;
    assert SortBy(stmts, ByRank(RankCode)) == stmts;
    assert SortStatements(pcs, RankCode) == [PropertyClaim(31, stmts)] + SortStatements([], RankCode);
  }

  lemma PropertyThirtyOne()
    ensures PropertyId(31) == "P31"
  {
    assert FormatNat(31) == FormatNat(3) + ['1'];
  }

  lemma HumanClaimLines()
    ensures ClaimLines("Q5", [PropertyClaim(31, [HumanStatement()])]) == [Line("Q5", "P31", ["Q5"])]
  {
    var stmts := [HumanStatement()];
    PropertyThirtyOne();
    HumanStatementLine();
    assert StatementLines("Q5", "P31", stmts) == [Line("Q5", "P31", ["Q5"])] + StatementLines("Q5", "P31", []);
  }

  lemma HumanClaims()
    ensures WriteClaims("Q5", Human().claims, RankCode) == Success([Line("Q5", "P31", ["Q5"])])
  {
    HumanParsed();
    HumanSorted();
    HumanClaimLines();
  }

  lemma QuoteHuman()
    ensures Quote("human") == "\"human\""
  {
    var s := "human";
    assert forall i :: 0 <= i < |s| ==> !NeedsEscape(s[i]);
    QuoteUnescaped(s);
  }

  lemma HumanLabels()
    ensures LangValueLines("Q5", 'L', Human().labels) == [Line("Q5", "Len", ["\"human\""])]
  {
    var entries := Map(LanguageEntry, Human().labels);
    assert entries == [("en", "human")];
    assert SortBy(entries, ByCode) == entries;
    QuoteHuman();
    assert TextLine("Q5", 'L', ("en", "human")) == Line("Q5", "Len", ["\"human\""]);
    assert TextLines("Q5", 'L', entries) == [TextLine("Q5", 'L', ("en", "human"))] + TextLines("Q5", 'L', []);
  }

  lemma HumanLines()
    ensures EntityLines(Human(), RankCode) == Success([Line("Q5", "Len", ["\"human\""]), Line("Q5", "P31", ["Q5"])])
  {
    var claimLine := Line("Q5", "P31", ["Q5"]);
    HumanWritable();
    HumanClaims();
    HumanSections(claimLine);
  }

  lemma HumanSections(claimLine: Line)
    ensures Sections(Human(), [claimLine]) == [Line("Q5", "Len", ["\"human\""]), claimLine]
  {
    var labelLine := Line("Q5", "Len", ["\"human\""]);
    HumanLabels();
    EmptySections("Q5");
    assert [labelLine] + [] + [] + [claimLine] + [] == [labelLine, claimLine];
  }

  lemma HumanWritable()
    ensures EntityWritable(Human())
  {
    var claims := Human().claims;
    HumanParsed();
    assert !HasBadKey(claims);
    assert StatementReadable(HumanStatement());
  }

  /** An entity without descriptions, aliases or site links has no lines in those sections. */
  lemma EmptySections(qid: string)
    ensures LangValueLines(qid, 'D', []) == []
    ensures AliasLines(qid, []) == []
    ensures SiteLinkLines(qid, []) == []
  {
    assert GroupsEntries([]) == [];
  }

  /** Entity Q5 with the English label "human" and the one statement `P31 Q5` gives two lines. */
  lemma HumanEntity()
    ensures WriteEntity(Human(), RankCode) == Success("Q5\tLen\t\"human\"\nQ5\tP31\tQ5\n")
  {
    HumanLines();
    HumanRendered(Line("Q5", "Len", ["\"human\""]), Line("Q5", "P31", ["Q5"]));
  }

  /** A line with one value is its three fields separated by tabs, then a newline. */
  lemma SingleValueLine(subject: string, key: string, v: string)
    ensures RenderLine(Line(subject, key, [v])) == subject + "\t" + key + "\t" + v + "\n"
  {
    var fs := [subject, key, v];
    assert Fields(Line(subject, key, [v])) == fs;
    assert fs[1..][1..] == [v];
    assert Join(fs[1..], '\t') == key + "\t" + v;
  }

  lemma HumanRendered(labelLine: Line, claimLine: Line)
    requires labelLine == Line("Q5", "Len", ["\"human\""]) && claimLine == Line("Q5", "P31", ["Q5"])
    ensures RenderLines([labelLine, claimLine]) == "Q5\tLen\t\"human\"\nQ5\tP31\tQ5\n"
  {
    SingleValueLine("Q5", "Len", "\"human\"");
    SingleValueLine("Q5", "P31", "Q5");
    assert [labelLine, claimLine][1..] == [claimLine];
    assert RenderLines([claimLine]) == RenderLine(claimLine) + RenderLines([]);
  }
}
