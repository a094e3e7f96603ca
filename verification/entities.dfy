/**
  writeEntity: the lines of one entity, section by section — labels (`L`),
  descriptions (`D`), aliases (`A`), claims (`P…`), site links (`S`) — each section
  sorted, all rendered into one buffer.
 */
module Entities {
  import opened Wrappers
  import opened Text
  import opened Seqs
  import opened Sorting
  import opened Quoting
  import opened Wikibase
  import opened Values
  import opened Lines
  import opened Statements
  import opened Claims

  // ---------------------------------------------------------------------------
  // Keyed texts: labels, descriptions, aliases and site links.

  /** A code (a language or a site) and a text (a label, description, alias or page title). */
  type Entry = (string, string)

  function ByCode(e: Entry): Key {
    Word(e.0)
  }

  /** The line of a keyed text: section marker and code as key, the quoted text as value. */
  function TextLine(qid: string, marker: char, e: Entry): Line {
    Line(qid, [marker] + e.0, [Quote(e.1)])
  }

  /** Reads a keyed text back from its line. */
  function DecodeTextLine(l: Line): Option<Entry> {
    if |l.key| == 0 || |l.values| != 1 then None
    else
      match Unquote(l.values[0])
      case Some(t) => Some((l.key[1..], t))
      case None => None
  }

  /** What a line that reads back correctly decodes to. */
  function Known(e: Entry): Option<Entry> {
    Some(e)
  }

  lemma TextLineDecodes(qid: string, marker: char, e: Entry)
    ensures DecodeTextLine(TextLine(qid, marker, e)) == Some(e)
  {
    UnquoteQuote(e.1);
    assert ([marker] + e.0)[1..] == e.0;
  }

  /** Keys that differ only behind a common marker compare as the codes do. */
  lemma MarkerPreservesLeq(m: char, a: string, b: string)
    requires TextLeq(a, b)
    ensures TextLeq([m] + a, [m] + b)
  {
    MarkerPreservesOrder(m, a, b);
  }

  /** Each entry's line, in the entries' order. */
  function TextLines(qid: string, marker: char, entries: seq<Entry>): (r: seq<Line>)
    ensures |r| == |entries|
    ensures forall i :: 0 <= i < |r| ==> r[i] == TextLine(qid, marker, entries[i])
  {
    if |entries| == 0 then [] else [TextLine(qid, marker, entries[0])] + TextLines(qid, marker, entries[1..])
  }

  lemma TextLinesOrdered(qid: string, marker: char, sorted: seq<Entry>)
    requires SortedBy(sorted, ByCode)
    ensures var r := TextLines(qid, marker, sorted);
      forall i, j :: 0 <= i < j < |r| ==> TextLeq(r[i].key, r[j].key)
  {
    var r := TextLines(qid, marker, sorted);
    forall i, j | 0 <= i < j < |r| ensures TextLeq(r[i].key, r[j].key) {
      assert KeyLeq(ByCode(sorted[i]), ByCode(sorted[j]));
      MarkerPreservesLeq(marker, sorted[i].0, sorted[j].0);
    }
  }

  /** The decoded lines of a permutation of the entries are a permutation of the entries. */
  lemma TextLinesDecode(qid: string, marker: char, sorted: seq<Entry>, entries: seq<Entry>)
    requires multiset(sorted) == multiset(entries)
    ensures multiset(Map(DecodeTextLine, TextLines(qid, marker, sorted))) == multiset(Map(Known, entries))
  {
    var r := TextLines(qid, marker, sorted);
    assert Map(DecodeTextLine, r) == Map(Known, sorted) by {
      forall i | 0 <= i < |r| ensures Map(DecodeTextLine, r)[i] == Map(Known, sorted)[i] {
        MapIndex(DecodeTextLine, r, i);
        MapIndex(Known, sorted, i);
        TextLineDecodes(qid, marker, sorted[i]);
      }
    }
    MapPermutation(Known, sorted, entries);
  }

  /**
    The shape writeLangValues and writeSiteLinks share: the entries sorted by code, one
    line each. The lines decode to exactly the entries, each once, and their keys ascend.
   */
  function SortedTextLines(qid: string, marker: char, entries: seq<Entry>): (r: seq<Line>)
    ensures |r| == |entries|
    ensures forall i :: 0 <= i < |r| ==>
      r[i].subject == qid && |r[i].key| > 0 && r[i].key[0] == marker && |r[i].values| == 1
    ensures forall i, j :: 0 <= i < j < |r| ==> TextLeq(r[i].key, r[j].key)
    ensures multiset(Map(DecodeTextLine, r)) == multiset(Map(Known, entries))
  {
    var sorted := SortBy(entries, ByCode);
    assert |sorted| == |multiset(sorted)| == |multiset(entries)| == |entries|;
    TextLinesOrdered(qid, marker, sorted);
    TextLinesDecode(qid, marker, sorted, entries);
    TextLines(qid, marker, sorted)
  }

  lemma {:induction false} TextLinesConcat(qid: string, marker: char, a: seq<Entry>, b: seq<Entry>)
    ensures TextLines(qid, marker, a + b) == TextLines(qid, marker, a) + TextLines(qid, marker, b)
    decreases |a|
  {
    if |a| > 0 {
      assert (a + b)[1..] == a[1..] + b;
      TextLinesConcat(qid, marker, a[1..], b);
    } else {
      assert a + b == b;
    }
  }

  /** The sorted lines do not depend on the order the entries come in, when no two entries share a code. */
  lemma SortedTextLinesIndependentOfOrder(qid: string, marker: char, xs: seq<Entry>, ys: seq<Entry>)
    requires multiset(xs) == multiset(ys)
    requires KeysIdentify(xs, ByCode)
    ensures SortedTextLines(qid, marker, xs) == SortedTextLines(qid, marker, ys)
  {
    SortIndependentOfOrder(xs, ys, ByCode);
  }

  function LanguageEntry(v: LanguageValue): Entry {
    (v.language, v.value)
  }

  function SiteEntry(l: SiteLink): Entry {
    (l.site, l.title)
  }

  /** The lines read back as exactly the entries, each as often as it occurs. */
  predicate ReadsBackAs(ls: seq<Line>, entries: seq<Entry>) {
    multiset(Map(DecodeTextLine, ls)) == multiset(Map(Known, entries))
  }

  /**
    writeLangValues: one line per language value, the marker being `L` or `D`, in
    ascending order of language; the lines read back as the language values.
   */
  function LangValueLines(qid: string, marker: char, vals: seq<LanguageValue>): (r: seq<Line>)
    ensures |r| == |vals|
    ensures forall i :: 0 <= i < |r| ==>
      r[i].subject == qid && |r[i].key| > 0 && r[i].key[0] == marker && |r[i].values| == 1
    ensures forall i, j :: 0 <= i < j < |r| ==> TextLeq(r[i].key, r[j].key)
    ensures ReadsBackAs(r, Map(LanguageEntry, vals))
  {
    SortedTextLines(qid, marker, Map(LanguageEntry, vals))
  }

  /**
    writeSiteLinks: one line per site link, under `S` and the site code, in ascending
    order of site; the lines read back as the (site, title) pairs.
   */
  function SiteLinkLines(qid: string, links: seq<SiteLink>): (r: seq<Line>)
    ensures |r| == |links|
    ensures forall i :: 0 <= i < |r| ==>
      r[i].subject == qid && |r[i].key| > 0 && r[i].key[0] == 'S' && |r[i].values| == 1
    ensures forall i, j :: 0 <= i < j < |r| ==> TextLeq(r[i].key, r[j].key)
    ensures ReadsBackAs(r, Map(SiteEntry, links))
  {
    SortedTextLines(qid, 'S', Map(SiteEntry, links))
  }

  // ---------------------------------------------------------------------------
  // Aliases.

  function ByGroup(g: AliasGroup): Key {
    Word(g.language)
  }

  /** e is one of g's aliases, under g's language. */
  predicate AliasOf(e: Entry, g: AliasGroup) {
    exists j :: 0 <= j < |g.aliases| && e == (g.language, g.aliases[j].value)
  }

  predicate AliasIn(e: Entry, gs: seq<AliasGroup>) {
    exists g :: g in gs && AliasOf(e, g)
  }

  /** The entries of one group: the text of each alias under the group's language, in source order. */
  function AliasEntries(g: AliasGroup): (r: seq<Entry>)
    ensures |r| == |g.aliases|
    ensures forall j :: 0 <= j < |r| ==> r[j] == (g.language, g.aliases[j].value)
  {
    seq(|g.aliases|, j requires 0 <= j < |g.aliases| => (g.language, g.aliases[j].value))
  }

  /** The entries of the groups, group after group. */
  function GroupsEntries(gs: seq<AliasGroup>): seq<Entry> {
    if |gs| == 0 then [] else AliasEntries(gs[0]) + GroupsEntries(gs[1..])
  }

  lemma AliasEntriesMember(g: AliasGroup, e: Entry)
    ensures e in AliasEntries(g) <==> AliasOf(e, g)
  {
    if AliasOf(e, g) {
      var j :| 0 <= j < |g.aliases| && e == (g.language, g.aliases[j].value);
      assert AliasEntries(g)[j] == e;
    }
  }

  lemma {:induction false} GroupsEntriesMember(gs: seq<AliasGroup>, e: Entry)
    ensures e in GroupsEntries(gs) <==> AliasIn(e, gs)
    decreases |gs|
  {
    if |gs| > 0 {
      AliasEntriesMember(gs[0], e);
      GroupsEntriesMember(gs[1..], e);
      assert gs[0] in gs;
      if AliasIn(e, gs) && !AliasOf(e, gs[0]) {
        var g :| g in gs && AliasOf(e, g);
        assert g in gs[1..];
      }
      if AliasIn(e, gs[1..]) {
        var g :| g in gs[1..] && AliasOf(e, g);
        assert g in gs;
      }
    }
  }

  lemma {:induction false} GroupsEntriesSorted(gs: seq<AliasGroup>)
    requires SortedBy(gs, ByGroup)
    ensures SortedBy(GroupsEntries(gs), ByCode)
    decreases |gs|
  {
    if |gs| > 0 {
      var a, b := AliasEntries(gs[0]), GroupsEntries(gs[1..]);
      assert SortedBy(gs[1..], ByGroup);
      GroupsEntriesSorted(gs[1..]);
      assert SortedBy(a, ByCode) by {
        forall i, j | 0 <= i < j < |a| ensures KeyLeq(ByCode(a[i]), ByCode(a[j])) {
          assert a[i].0 == a[j].0;
        }
      }
      forall i, j | 0 <= i < |a| && 0 <= j < |b| ensures KeyLeq(ByCode(a[i]), ByCode(b[j])) {
        assert b[j] in b;
        GroupsEntriesMember(gs[1..], b[j]);
        var g :| g in gs[1..] && AliasOf(b[j], g);
        var k :| 0 <= k < |gs[1..]| && gs[1..][k] == g;
        assert KeyLeq(ByGroup(gs[0]), ByGroup(gs[k + 1]));
      }
      SortedConcat(a, b, ByCode);
    }
  }

  /**
    writeAliases: the languages in sorted order and, under each, its aliases in source
    order. Every line decodes to an alias of the entity under its language, and every
    alias of the entity has a line.
   */
  function AliasLines(qid: string, groups: seq<AliasGroup>): (r: seq<Line>)
    ensures forall i :: 0 <= i < |r| ==>
      r[i].subject == qid && |r[i].key| > 0 && r[i].key[0] == 'A' && |r[i].values| == 1
    ensures forall i, j :: 0 <= i < j < |r| ==> TextLeq(r[i].key, r[j].key)
    ensures forall i :: 0 <= i < |r| ==> DecodeTextLine(r[i]).Some? && AliasIn(DecodeTextLine(r[i]).value, groups)
    ensures forall e :: AliasIn(e, groups) ==> exists i :: 0 <= i < |r| && DecodeTextLine(r[i]) == Some(e)
    ensures multiset(Map(DecodeTextLine, r)) == multiset(Map(Known, GroupsEntries(groups)))
  {
    var sorted := SortBy(groups, ByGroup);
    var entries := GroupsEntries(sorted);
    GroupsEntriesSorted(sorted);
    TextLinesOrdered(qid, 'A', entries);
    var r := TextLines(qid, 'A', entries);
    AliasLinesMembers(qid, groups, sorted, r);
    GroupsEntriesPermutation(sorted, groups);
    TextLinesDecode(qid, 'A', entries, GroupsEntries(groups));
    r
  }

  lemma AliasLinesMembers(qid: string, groups: seq<AliasGroup>, sorted: seq<AliasGroup>, r: seq<Line>)
    requires multiset(sorted) == multiset(groups)
    requires r == TextLines(qid, 'A', GroupsEntries(sorted))
    ensures forall i :: 0 <= i < |r| ==> DecodeTextLine(r[i]).Some? && AliasIn(DecodeTextLine(r[i]).value, groups)
    ensures forall e :: AliasIn(e, groups) ==> exists i :: 0 <= i < |r| && DecodeTextLine(r[i]) == Some(e)
  {
    var entries := GroupsEntries(sorted);
    forall i | 0 <= i < |r| ensures DecodeTextLine(r[i]).Some? && AliasIn(DecodeTextLine(r[i]).value, groups) {
      TextLineDecodes(qid, 'A', entries[i]);
      assert entries[i] in entries;
      GroupsEntriesMember(sorted, entries[i]);
      var g :| g in sorted && AliasOf(entries[i], g);
      assert g in multiset(groups);
    }
    forall e | AliasIn(e, groups) ensures exists i :: 0 <= i < |r| && DecodeTextLine(r[i]) == Some(e) {
      var g :| g in groups && AliasOf(e, g);
      assert g in multiset(sorted);
      GroupsEntriesMember(sorted, e);
      var i :| 0 <= i < |entries| && entries[i] == e;
      TextLineDecodes(qid, 'A', e);
    }
  }

  lemma {:induction false} GroupsEntriesConcat(a: seq<AliasGroup>, b: seq<AliasGroup>)
    ensures GroupsEntries(a + b) == GroupsEntries(a) + GroupsEntries(b)
    decreases |a|
  {
    if |a| > 0 {
      assert (a + b)[1..] == a[1..] + b;
      GroupsEntriesConcat(a[1..], b);
    } else {
      assert a + b == b;
    }
  }

  /** Reordering the groups reorders their entries and nothing else. */
  lemma {:induction false} GroupsEntriesPermutation(xs: seq<AliasGroup>, ys: seq<AliasGroup>)
    requires multiset(xs) == multiset(ys)
    ensures multiset(GroupsEntries(xs)) == multiset(GroupsEntries(ys))
    decreases |xs|
  {
    if |xs| == 0 {
      assert |ys| == |multiset(ys)| == 0;
    } else {
      var x := xs[0];
      assert x in multiset(ys) by {
        assert x in multiset(xs);
      }
      var k :| 0 <= k < |ys| && ys[k] == x;
      var ys1, ys2 := ys[..k], ys[k + 1..];
      SplitAt(ys, k);
      RemoveOne(xs, ys, k);
      GroupsEntriesPermutation(xs[1..], ys1 + ys2);
      GroupsSplit(ys1, x, ys2);
      var head, rest := AliasEntries(x), GroupsEntries(xs[1..]);
      assert GroupsEntries(xs) == head + rest;
      assert multiset(head + rest) == multiset(head) + multiset(rest);
    }
  }

  lemma GroupsSplit(ys1: seq<AliasGroup>, x: AliasGroup, ys2: seq<AliasGroup>)
    ensures multiset(GroupsEntries(ys1 + [x] + ys2))
      == multiset(GroupsEntries(ys1 + ys2)) + multiset(AliasEntries(x))
  {
    GroupsEntriesConcat(ys1 + [x], ys2);
    GroupsEntriesConcat(ys1, [x]);
    GroupsEntriesConcat(ys1, ys2);
    assert GroupsEntries([x]) == AliasEntries(x) by {
      assert [x][1..] == [];
    }
  }

  /** The alias lines do not depend on the order of the alias map, whose languages are distinct. */
  lemma AliasLinesIndependentOfOrder(qid: string, xs: seq<AliasGroup>, ys: seq<AliasGroup>)
    requires multiset(xs) == multiset(ys)
    requires KeysIdentify(xs, ByGroup)
    ensures AliasLines(qid, xs) == AliasLines(qid, ys)
  {
    SortIndependentOfOrder(xs, ys, ByGroup);
  }

  /** The text lines of entries under one code, keyed by that code: all of them, in order. */
  lemma {:induction false} KeyedTextLines(qid: string, marker: char, entries: seq<Entry>, code: string)
    ensures KeyedLines(TextLines(qid, marker, entries), [marker] + code)
      == TextLines(qid, marker, Filter((e: Entry) => e.0 == code, entries))
    decreases |entries|
  {
    if |entries| > 0 {
      KeyedTextLines(qid, marker, entries[1..], code);
      assert [marker] + entries[0].0 == [marker] + code ==> entries[0].0 == code by {
        assert entries[0].0 == ([marker] + entries[0].0)[1..];
        assert code == ([marker] + code)[1..];
      }
    }
  }

  function LanguageOf(g: AliasGroup): string {
    g.language
  }

  /** No two groups share a language, as the keys of the alias map never do. */
  predicate DistinctLanguages(gs: seq<AliasGroup>) {
    forall i, j :: 0 <= i < j < |gs| ==> gs[i].language != gs[j].language
  }

  lemma {:induction false} DistinctLanguagesOnce(gs: seq<AliasGroup>, language: string)
    requires DistinctLanguages(gs)
    ensures multiset(Map(LanguageOf, gs))[language] <= 1
    decreases |gs|
  {
    if |gs| > 0 {
      MapHead(LanguageOf, gs);
      assert DistinctLanguages(gs[1..]);
      DistinctLanguagesOnce(gs[1..], language);
      if gs[0].language == language {
        forall i | 0 <= i < |gs| - 1 ensures Map(LanguageOf, gs[1..])[i] != language {
          MapIndex(LanguageOf, gs[1..], i);
          assert gs[1..][i] == gs[i + 1];
        }
        assert language !in Map(LanguageOf, gs[1..]);
      }
    }
  }

  /**
    The alias lines of groups in which g's language occurs once, keyed by that
    language: the lines of g's aliases and of no other group, in g's order.
   */
  lemma {:induction false} KeyedGroupLines(qid: string, gs: seq<AliasGroup>, g: AliasGroup)
    requires g in gs
    requires multiset(Map(LanguageOf, gs))[g.language] <= 1
    ensures KeyedLines(TextLines(qid, 'A', GroupsEntries(gs)), ['A'] + g.language)
      == TextLines(qid, 'A', AliasEntries(g))
    decreases |gs|
  {
    var key := ['A'] + g.language;
    var head, rest := AliasEntries(gs[0]), GroupsEntries(gs[1..]);
    TextLinesConcat(qid, 'A', head, rest);
    KeyedLinesConcat(TextLines(qid, 'A', head), TextLines(qid, 'A', rest), key);
    KeyedTextLines(qid, 'A', head, g.language);
    MapHead(LanguageOf, gs);
    if gs[0].language == g.language {
      assert Filter((e: Entry) => e.0 == g.language, head) == head by {
        SameCodeFilter(head, g.language);
      }
      AbsentLanguage(qid, gs[1..], g.language);
      if g != gs[0] {
        assert g in gs[1..];
        var j :| 0 <= j < |gs[1..]| && gs[1..][j] == g;
        MapIndex(LanguageOf, gs[1..], j);
        assert false;
      }
    } else {
      assert Filter((e: Entry) => e.0 == g.language, head) == [] by {
        OtherCodeFilter(head, g.language);
      }
      KeyedGroupLines(qid, gs[1..], g);
    }
  }

  lemma {:induction false} SameCodeFilter(entries: seq<Entry>, code: string)
    requires forall i :: 0 <= i < |entries| ==> entries[i].0 == code
    ensures Filter((e: Entry) => e.0 == code, entries) == entries
    decreases |entries|
  {
    if |entries| > 0 {
      SameCodeFilter(entries[1..], code);
    }
  }

  lemma {:induction false} OtherCodeFilter(entries: seq<Entry>, code: string)
    requires forall i :: 0 <= i < |entries| ==> entries[i].0 != code
    ensures Filter((e: Entry) => e.0 == code, entries) == []
    decreases |entries|
  {
    if |entries| > 0 {
      OtherCodeFilter(entries[1..], code);
    }
  }

  /** Groups none of which has the language write no line under it. */
  lemma {:induction false} AbsentLanguage(qid: string, gs: seq<AliasGroup>, language: string)
    requires language !in Map(LanguageOf, gs)
    ensures KeyedLines(TextLines(qid, 'A', GroupsEntries(gs)), ['A'] + language) == []
    decreases |gs|
  {
    if |gs| > 0 {
      var head, rest := AliasEntries(gs[0]), GroupsEntries(gs[1..]);
      MapIndex(LanguageOf, gs, 0);
      assert Map(LanguageOf, gs) == [gs[0].language] + Map(LanguageOf, gs[1..]);
      TextLinesConcat(qid, 'A', head, rest);
      KeyedLinesConcat(TextLines(qid, 'A', head), TextLines(qid, 'A', rest), ['A'] + language);
      KeyedTextLines(qid, 'A', head, language);
      OtherCodeFilter(head, language);
      AbsentLanguage(qid, gs[1..], language);
    }
  }

  /**
    writeAliases keeps each language's aliases together and in source order: keyed by
    one language, the alias lines are exactly that group's aliases, in the group's order.
   */
  lemma AliasLinesOfLanguage(qid: string, groups: seq<AliasGroup>, k: nat)
    requires k < |groups| && DistinctLanguages(groups)
    ensures KeyedLines(AliasLines(qid, groups), ['A'] + groups[k].language)
      == TextLines(qid, 'A', AliasEntries(groups[k]))
  {
    var sorted := SortBy(groups, ByGroup);
    DistinctLanguagesOnce(groups, groups[k].language);
    MapPermutation(LanguageOf, sorted, groups);
    assert groups[k] in multiset(sorted) by {
      assert groups[k] in multiset(groups);
    }
    KeyedGroupLines(qid, sorted, groups[k]);
  }

  // ---------------------------------------------------------------------------
  // The entity.

  /** The section of a line, by the first character of its key: labels, descriptions, aliases, claims, site links. */
  function Section(l: Line): nat {
    if |l.key| == 0 then 5
    else if l.key[0] == 'L' then 0
    else if l.key[0] == 'D' then 1
    else if l.key[0] == 'A' then 2
    else if l.key[0] == 'P' then 3
    else if l.key[0] == 'S' then 4
    else 5
  }

  /** Line a may precede line b: an earlier section, or the same one and a key not above b's — by number for claims. */
  predicate InOrder(a: Line, b: Line) {
    || Section(a) < Section(b)
    || (&& Section(a) == Section(b)
        && if Section(a) == 3 then LineProperty(a) <= LineProperty(b) else TextLeq(a.key, b.key))
  }

  predicate Ordered(ls: seq<Line>) {
    forall i, j :: 0 <= i < j < |ls| ==> InOrder(ls[i], ls[j])
  }

  predicate InSection(ls: seq<Line>, s: nat) {
    forall i :: 0 <= i < |ls| ==> Section(ls[i]) == s
  }

  predicate FromSection(ls: seq<Line>, s: nat) {
    forall i :: 0 <= i < |ls| ==> s <= Section(ls[i])
  }

  lemma OrderedConcat(a: seq<Line>, b: seq<Line>, s: nat)
    requires Ordered(a) && InSection(a, s) && Ordered(b) && FromSection(b, s + 1)
    ensures Ordered(a + b) && FromSection(a + b, s)
  {
    assert forall i :: |a| <= i < |a + b| ==> (a + b)[i] == b[i - |a|];
  }

  /** Lines of one keyed-text section: keys start with the marker and ascend. */
  predicate TextSection(ls: seq<Line>, marker: char) {
    && (forall i :: 0 <= i < |ls| ==> |ls[i].key| > 0 && ls[i].key[0] == marker)
    && (forall i, j :: 0 <= i < j < |ls| ==> TextLeq(ls[i].key, ls[j].key))
  }

  /** Lines of the claim section: keys are property ids and their numbers ascend. */
  predicate ClaimSection(ls: seq<Line>) {
    (forall i :: 0 <= i < |ls| ==> ls[i].key == PropertyId(LineProperty(ls[i]))) && Ascending(ls)
  }

  lemma TextSectionOrdered(ls: seq<Line>, marker: char, s: nat)
    requires s != 3 && TextSection(ls, marker)
    requires forall i :: 0 <= i < |ls| ==> Section(ls[i]) == s
    ensures Ordered(ls) && InSection(ls, s)
  {
  }

  lemma ClaimSectionOrdered(ls: seq<Line>)
    requires ClaimSection(ls)
    ensures Ordered(ls) && InSection(ls, 3)
  {
    forall i | 0 <= i < |ls|
      ensures Section(ls[i]) == 3
    {
      PropertyKeySection(ls[i]);
    }
    forall i, j | 0 <= i < j < |ls|
      ensures InOrder(ls[i], ls[j])
    {
      assert LineProperty(ls[i]) <= LineProperty(ls[j]);
    }
  }

  lemma PropertyKeySection(l: Line)
    requires l.key == PropertyId(LineProperty(l))
    ensures Section(l) == 3
  {
    var n := LineProperty(l);
    assert |PropertyId(n)| > 1 && PropertyId(n)[0] == 'P';
  }

  /** Five sections, each sorted, concatenated in the order L, D, A, P, S are in order. */
  lemma SectionsOrdered(labels: seq<Line>, descriptions: seq<Line>, aliases: seq<Line>, claims: seq<Line>, links: seq<Line>)
    requires TextSection(labels, 'L') && TextSection(descriptions, 'D') && TextSection(aliases, 'A')
    requires ClaimSection(claims) && TextSection(links, 'S')
    ensures Ordered(labels + descriptions + aliases + claims + links)
    ensures InSection(labels, 0) && InSection(descriptions, 1) && InSection(aliases, 2)
    ensures InSection(claims, 3) && InSection(links, 4)
  {
    TextSectionOrdered(labels, 'L', 0);
    TextSectionOrdered(descriptions, 'D', 1);
    TextSectionOrdered(aliases, 'A', 2);
    ClaimSectionOrdered(claims);
    TextSectionOrdered(links, 'S', 4);
    OrderedConcat(claims, links, 3);
    OrderedConcat(aliases, claims + links, 2);
    OrderedConcat(descriptions, aliases + (claims + links), 1);
    OrderedConcat(labels, descriptions + (aliases + (claims + links)), 0);
    assert labels + (descriptions + (aliases + (claims + links))) == labels + descriptions + aliases + claims + links;
  }

  /** The lines of section s, in the order they come. */
  function SectionLines(ls: seq<Line>, s: nat): (r: seq<Line>)
    ensures InSection(r, s)
  {
    if |ls| == 0 then []
    else if Section(ls[0]) == s then [ls[0]] + SectionLines(ls[1..], s)
    else SectionLines(ls[1..], s)
  }

  lemma {:induction false} SectionLinesConcat(a: seq<Line>, b: seq<Line>, s: nat)
    ensures SectionLines(a + b, s) == SectionLines(a, s) + SectionLines(b, s)
    decreases |a|
  {
    if |a| > 0 {
      TailOfConcat(a, b);
      SectionLinesConcat(a[1..], b, s);
    } else {
      ConcatEmpty(b);
    }
  }

  /** Lines all of section t: all of them in section t, none in any other. */
  lemma {:induction false} SectionLinesOf(ls: seq<Line>, t: nat, s: nat)
    requires InSection(ls, t)
    ensures SectionLines(ls, s) == if s == t then ls else []
    decreases |ls|
  {
    if |ls| > 0 {
      assert InSection(ls[1..], t);
      SectionLinesOf(ls[1..], t, s);
    }
  }

  /** Every line belongs to one of the five sections. */
  predicate Sectioned(ls: seq<Line>) {
    forall i :: 0 <= i < |ls| ==> Section(ls[i]) < 5
  }

  lemma SectionedConcat(a: seq<Line>, b: seq<Line>)
    requires Sectioned(a) && Sectioned(b)
    ensures Sectioned(a + b)
  {
    assert forall i :: |a| <= i < |a + b| ==> (a + b)[i] == b[i - |a|];
  }

  /** Section s of five lists, one per section, joined. */
  lemma FiveSections(a: seq<Line>, b: seq<Line>, c: seq<Line>, d: seq<Line>, f: seq<Line>, s: nat)
    ensures SectionLines(a + b + c + d + f, s)
      == SectionLines(a, s) + SectionLines(b, s) + SectionLines(c, s) + SectionLines(d, s) + SectionLines(f, s)
  {
    SectionLinesConcat(a + b + c + d, f, s);
    SectionLinesConcat(a + b + c, d, s);
    SectionLinesConcat(a + b, c, s);
    SectionLinesConcat(a, b, s);
  }

  /** Lists each in its own section, joined in section order, split back into the lists. */
  lemma SectionsSplit(a: seq<Line>, b: seq<Line>, c: seq<Line>, d: seq<Line>, f: seq<Line>)
    requires InSection(a, 0) && InSection(b, 1) && InSection(c, 2) && InSection(d, 3) && InSection(f, 4)
    ensures SectionLines(a + b + c + d + f, 0) == a
    ensures SectionLines(a + b + c + d + f, 1) == b
    ensures SectionLines(a + b + c + d + f, 2) == c
    ensures SectionLines(a + b + c + d + f, 3) == d
    ensures SectionLines(a + b + c + d + f, 4) == f
    ensures Sectioned(a + b + c + d + f)
  {
    SectionOfFive(a, b, c, d, f, 0);
    SectionOfFive(a, b, c, d, f, 1);
    SectionOfFive(a, b, c, d, f, 2);
    SectionOfFive(a, b, c, d, f, 3);
    SectionOfFive(a, b, c, d, f, 4);
    SectionedConcat(a, b);
    SectionedConcat(a + b, c);
    SectionedConcat(a + b + c, d);
    SectionedConcat(a + b + c + d, f);
  }

  lemma SectionOfFive(a: seq<Line>, b: seq<Line>, c: seq<Line>, d: seq<Line>, f: seq<Line>, s: nat)
    requires InSection(a, 0) && InSection(b, 1) && InSection(c, 2) && InSection(d, 3) && InSection(f, 4)
    requires s < 5
    ensures SectionLines(a + b + c + d + f, s) == [a, b, c, d, f][s]
  {
    FiveSections(a, b, c, d, f, s);
    SectionLinesOf(a, 0, s);
    SectionLinesOf(b, 1, s);
    SectionLinesOf(c, 2, s);
    SectionLinesOf(d, 3, s);
    SectionLinesOf(f, 4, s);
    var x := [a, b, c, d, f][s];
    ConcatEmpty(x);
    ConcatEmpty<Line>([]);
  }

  /** Every line is about entity `qid`. */
  predicate About(ls: seq<Line>, qid: string) {
    forall i :: 0 <= i < |ls| ==> ls[i].subject == qid
  }

  /** What writeEntity needs: non-empty claim keys and, when every property key parses, readable statements. */
  predicate EntityWritable(e: Entity) {
    KeysNonEmpty(e.claims) && (!HasBadKey(e.claims) ==> PropertyStatementsReadable(e.claims))
  }

  /**
    writeEntity as a list of lines. It fails exactly when writeClaims does, with the
    same error. Otherwise every line is about the entity and belongs to one of the
    sections L, D, A, P, S, which come in that order, each sorted; the L, D, A and S
    sections read back as exactly the labels, descriptions, aliases and site links,
    and the P section is what writeClaims writes.
   */
  function EntityLines(e: Entity, rankKey: Rank -> int): (r: Result<seq<Line>, ClaimError>)
    requires EntityWritable(e)
    ensures r.Failure? <==> HasBadKey(e.claims)
    ensures r.Failure? ==> FirstBadKey(e.claims, r.error.digits)
    ensures r.Success? ==> Ordered(r.value)
    ensures r.Success? ==> About(r.value, e.id)
    ensures r.Success? ==> Sectioned(r.value)
    ensures r.Success? ==>
      && SectionLines(r.value, 0) == LangValueLines(e.id, 'L', e.labels)
      && SectionLines(r.value, 1) == LangValueLines(e.id, 'D', e.descriptions)
      && SectionLines(r.value, 2) == AliasLines(e.id, e.aliases)
      && SectionLines(r.value, 4) == SiteLinkLines(e.id, e.siteLinks)
    ensures r.Success? ==>
      && ReadsBackAs(SectionLines(r.value, 0), Map(LanguageEntry, e.labels))
      && ReadsBackAs(SectionLines(r.value, 1), Map(LanguageEntry, e.descriptions))
      && ReadsBackAs(SectionLines(r.value, 2), GroupsEntries(e.aliases))
      && WriteClaims(e.id, e.claims, rankKey) == Success(SectionLines(r.value, 3))
      && ReadsBackAs(SectionLines(r.value, 4), Map(SiteEntry, e.siteLinks))
  {
    var claims :- WriteClaims(e.id, e.claims, rankKey);
    SectionsOf(e, claims);
    Success(Sections(e, claims))
  }

  /** The five sections of an entity around its claim lines. */
  function Sections(e: Entity, claims: seq<Line>): seq<Line> {
    LangValueLines(e.id, 'L', e.labels) + LangValueLines(e.id, 'D', e.descriptions)
    + AliasLines(e.id, e.aliases) + claims + SiteLinkLines(e.id, e.siteLinks)
  }

  /** The entity's lines are in order and about the entity; split by section, they give back each writer's lines. */
  lemma SectionsOf(e: Entity, claims: seq<Line>)
    requires ClaimSection(claims) && About(claims, e.id)
    ensures Ordered(Sections(e, claims)) && About(Sections(e, claims), e.id)
    ensures Sectioned(Sections(e, claims))
    ensures SectionLines(Sections(e, claims), 0) == LangValueLines(e.id, 'L', e.labels)
    ensures SectionLines(Sections(e, claims), 1) == LangValueLines(e.id, 'D', e.descriptions)
    ensures SectionLines(Sections(e, claims), 2) == AliasLines(e.id, e.aliases)
    ensures SectionLines(Sections(e, claims), 3) == claims
    ensures SectionLines(Sections(e, claims), 4) == SiteLinkLines(e.id, e.siteLinks)
    ensures ReadsBackAs(SectionLines(Sections(e, claims), 0), Map(LanguageEntry, e.labels))
    ensures ReadsBackAs(SectionLines(Sections(e, claims), 1), Map(LanguageEntry, e.descriptions))
    ensures ReadsBackAs(SectionLines(Sections(e, claims), 2), GroupsEntries(e.aliases))
    ensures ReadsBackAs(SectionLines(Sections(e, claims), 4), Map(SiteEntry, e.siteLinks))
  {
    var labels := LangValueLines(e.id, 'L', e.labels);
    var descriptions := LangValueLines(e.id, 'D', e.descriptions);
    var aliases := AliasLines(e.id, e.aliases);
    var links := SiteLinkLines(e.id, e.siteLinks);
    assert TextSection(labels, 'L') && TextSection(descriptions, 'D') && TextSection(aliases, 'A');
    assert TextSection(links, 'S');
    SectionsOrdered(labels, descriptions, aliases, claims, links);
    SectionsSplit(labels, descriptions, aliases, claims, links);
    assert About(labels, e.id) && About(descriptions, e.id) && About(aliases, e.id) && About(links, e.id);
    AboutConcat(labels, descriptions, aliases, claims, links, e.id);
  }

  /**
    Kept apart from SectionsOf so the solver meets the five concatenations without
    the section facts in scope; inlined, the same step exhausts the resource limit.
  */
  lemma AboutConcat(a: seq<Line>, b: seq<Line>, c: seq<Line>, d: seq<Line>, f: seq<Line>, qid: string)
    requires About(a, qid) && About(b, qid) && About(c, qid) && About(d, qid) && About(f, qid)
    ensures About(a + b + c + d + f, qid)
  {
  }

  /**
    writeEntity: the entity's lines, rendered into one buffer. For an entity whose
    codes and statements fit the line syntax, the text parses back into exactly
    those lines.
   */
  function WriteEntity(e: Entity, rankKey: Rank -> int): (r: Result<string, ClaimError>)
    requires EntityWritable(e)
    ensures r.Failure? <==> HasBadKey(e.claims)
    ensures r.Failure? ==> FirstBadKey(e.claims, r.error.digits)
    ensures r.Success? && EntityShaped(e) ==> ParseLines(r.value) == Some(EntityLines(e, rankKey).value)
  {
    var lines :- EntityLines(e, rankKey);
    EntityLinesParse(e, rankKey, lines);
    Success(RenderLines(lines))
  }

  // ---------------------------------------------------------------------------
  // Decodability of the whole entity.

  /** Codes that fit in a field. */
  predicate CodesPlain(entries: seq<Entry>) {
    forall i :: 0 <= i < |entries| ==> Plain(entries[i].0)
  }

  /** An entity whose id, language codes, site codes and property-claim statements fit the line syntax. */
  predicate EntityShaped(e: Entity) {
    && Plain(e.id)
    && CodesPlain(Map(LanguageEntry, e.labels))
    && CodesPlain(Map(LanguageEntry, e.descriptions))
    && (forall i :: 0 <= i < |e.aliases| ==> Plain(e.aliases[i].language))
    && CodesPlain(Map(SiteEntry, e.siteLinks))
    && PropertyStatementsAre(e.claims, StatementShaped)
  }

  predicate Marker(c: char) {
    c != '\t' && c != '\n'
  }

  lemma TextLinesPlain(qid: string, marker: char, entries: seq<Entry>)
    requires Plain(qid) && Marker(marker) && CodesPlain(entries)
    ensures PlainLines(TextLines(qid, marker, entries))
  {
    var r := TextLines(qid, marker, entries);
    forall i | 0 <= i < |r| ensures PlainLine(r[i]) {
      QuotePlain(entries[i].1);
      assert Fields(r[i]) == [qid, [marker] + entries[i].0, Quote(entries[i].1)];
    }
  }

  lemma SortedTextLinesPlain(qid: string, marker: char, entries: seq<Entry>)
    requires Plain(qid) && Marker(marker) && CodesPlain(entries)
    ensures PlainLines(SortedTextLines(qid, marker, entries))
  {
    var sorted := SortBy(entries, ByCode);
    forall i | 0 <= i < |sorted| ensures Plain(sorted[i].0) {
      assert sorted[i] in multiset(entries);
    }
    TextLinesPlain(qid, marker, sorted);
  }

  lemma AliasLinesPlain(qid: string, groups: seq<AliasGroup>)
    requires Plain(qid)
    requires forall i :: 0 <= i < |groups| ==> Plain(groups[i].language)
    ensures PlainLines(AliasLines(qid, groups))
  {
    var sorted := SortBy(groups, ByGroup);
    var entries := GroupsEntries(sorted);
    forall i | 0 <= i < |entries| ensures Plain(entries[i].0) {
      assert entries[i] in entries;
      GroupsEntriesMember(sorted, entries[i]);
      var g :| g in sorted && AliasOf(entries[i], g);
      assert g in multiset(groups);
    }
    TextLinesPlain(qid, 'A', entries);
  }

  /**
    The rendered lines of a well-shaped entity parse back into exactly those lines:
    every line ends at its own newline and every field at its own tab.
   */
  lemma EntityLinesParse(e: Entity, rankKey: Rank -> int, lines: seq<Line>)
    requires EntityWritable(e) && EntityLines(e, rankKey) == Success(lines)
    ensures EntityShaped(e) ==> ParseLines(RenderLines(lines)) == Some(lines)
  {
    if EntityShaped(e) {
      var q := e.id;
      var labels := LangValueLines(q, 'L', e.labels);
      var descriptions := LangValueLines(q, 'D', e.descriptions);
      var aliases := AliasLines(q, e.aliases);
      var claims := WriteClaims(q, e.claims, rankKey).value;
      var links := SiteLinkLines(q, e.siteLinks);
      SortedTextLinesPlain(q, 'L', Map(LanguageEntry, e.labels));
      SortedTextLinesPlain(q, 'D', Map(LanguageEntry, e.descriptions));
      AliasLinesPlain(q, e.aliases);
      WriteClaimsPlain(q, e.claims, rankKey);
      SortedTextLinesPlain(q, 'S', Map(SiteEntry, e.siteLinks));
      PlainLinesConcat(labels, descriptions);
      PlainLinesConcat(labels + descriptions, aliases);
      PlainLinesConcat(labels + descriptions + aliases, claims);
      PlainLinesConcat(labels + descriptions + aliases + claims, links);
      assert lines == labels + descriptions + aliases + claims + links;
      ParseRenderLines(lines);
    }
  }
}
