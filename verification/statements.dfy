/**
  The statement linearizer: writeStatement and writeReference. One statement becomes
  one line: the entity id, the property id, the rank marker glued to the main value,
  then a key and a value field per qualifier snak, then a `[!]S<number>` field and a
  value field per reference snak.
 */
module Statements {
  import opened Wrappers
  import opened Text
  import opened Seqs
  import opened Wikibase
  import opened Values
  import opened Lines

  const Up: char := '\U{2191}'
  const Down: char := '\U{2193}'

  /** The marker written in front of the main value. */
  function RankMarker(r: Rank): string {
    match r
    case Preferred => [Up]
    case Deprecated => [Down]
    case Normal => []
  }

  /** Reads the rank marker off the front of a main-value field. */
  function DecodeRank(field: string): (Rank, string) {
    if |field| > 0 && field[0] == Up then (Preferred, field[1..])
    else if |field| > 0 && field[0] == Down then (Deprecated, field[1..])
    else (Normal, field)
  }

  /** The marker and the main value can be told apart whenever the value does not itself start with an arrow. */
  lemma DecodeRankMarker(r: Rank, main: string)
    requires |main| == 0 || (main[0] != Up && main[0] != Down)
    ensures DecodeRank(RankMarker(r) + main) == (r, main)
  {
    if r != Normal {
      assert (RankMarker(r) + main)[1..] == main;
    } else {
      assert RankMarker(r) + main == main;
    }
  }

  // ---------------------------------------------------------------------------
  // Snak groups (qualifiers of a statement, snaks of a reference).

  /** The snaks of one key, each paired with the key. */
  function Tag(key: string, snaks: seq<Snak>): (r: seq<(string, Snak)>)
    ensures |r| == |snaks|
    ensures forall k :: 0 <= k < |r| ==> r[k] == (key, snaks[k])
  {
    if |snaks| == 0 then [] else [(key, snaks[0])] + Tag(key, snaks[1..])
  }

  /** A group map in output order: the keys as the order lists them, the snaks of a key in source order. */
  function Entries(m: map<string, seq<Snak>>, order: seq<string>): seq<(string, Snak)> {
    if |order| == 0 then [] else Tag(order[0], Group(m, order[0])) + Entries(m, order[1..])
  }

  // ---------------------------------------------------------------------------
  // Qualifiers.

  /** A qualifier snak is written when it has a datatype and a data value and writeValue renders it. */
  predicate Shown(e: (string, Snak)) {
    e.1.dataType.Some? && e.1.dataValue.Some? && Renderable(e.1)
  }

  /** The qualifier loop of writeStatement for one key: `\t<key>\t<value>` per written snak. */
  function QualifierSnakFields(key: string, snaks: seq<Snak>): seq<string> {
    if |snaks| == 0 then []
    else
      var s := snaks[0];
      var here :=
        if s.dataType.Some? && s.dataValue.Some? then
          match RenderValue(s)
          case Some(t) => [key, t]
          case None => []
        else [];
      here + QualifierSnakFields(key, snaks[1..])
  }

  /** The qualifier loop of writeStatement over QualifiersOrder. */
  function QualifierKeyFields(m: map<string, seq<Snak>>, order: seq<string>): seq<string> {
    if |order| == 0 then []
    else QualifierSnakFields(order[0], Group(m, order[0])) + QualifierKeyFields(m, order[1..])
  }

  function QualifierFields(stmt: Statement): seq<string> {
    QualifierKeyFields(stmt.qualifiers, stmt.qualifiersOrder)
  }

  /** A key field and a value field for each entry. */
  function Pairs(es: seq<(string, Snak)>): (r: seq<string>)
    requires forall i :: 0 <= i < |es| ==> Shown(es[i])
    ensures |r| == 2 * |es|
  {
    if |es| == 0 then []
    else
      assert Shown(es[0]);
      [es[0].0, RenderValue(es[0].1).value] + Pairs(es[1..])
  }

  lemma {:induction false} PairsConcat(a: seq<(string, Snak)>, b: seq<(string, Snak)>)
    requires forall i :: 0 <= i < |a| ==> Shown(a[i])
    requires forall i :: 0 <= i < |b| ==> Shown(b[i])
    ensures Pairs(a + b) == Pairs(a) + Pairs(b)
    decreases |a|
  {
    if |a| == 0 {
      assert a + b == b;
    } else {
      var ab := a + b;
      assert ab[0] == a[0] && ab[1..] == a[1..] + b;
      PairsConcat(a[1..], b);
      var head := [a[0].0, RenderValue(a[0].1).value];
      assert Pairs(ab) == head + Pairs(ab[1..]);
      assert Pairs(a) == head + Pairs(a[1..]);
    }
  }

  lemma {:induction false} QualifierSnakFieldsShown(key: string, snaks: seq<Snak>)
    ensures QualifierSnakFields(key, snaks) == Pairs(Filter(Shown, Tag(key, snaks)))
    decreases |snaks|
  {
    if |snaks| > 0 {
      QualifierSnakFieldsShown(key, snaks[1..]);
      assert Tag(key, snaks)[1..] == Tag(key, snaks[1..]);
    }
  }

  /**
    The qualifier fields are exactly the qualifier snaks that are shown, in QualifiersOrder
    and source order, each as its key and its value: a snak that is not shown is skipped
    on its own and changes nothing for the others.
   */
  lemma {:induction false} QualifiersAreShownEntries(m: map<string, seq<Snak>>, order: seq<string>)
    ensures QualifierKeyFields(m, order) == Pairs(Filter(Shown, Entries(m, order)))
    decreases |order|
  {
    if |order| > 0 {
      var here := Tag(order[0], Group(m, order[0]));
      QualifierSnakFieldsShown(order[0], Group(m, order[0]));
      QualifiersAreShownEntries(m, order[1..]);
      FilterConcat(Shown, here, Entries(m, order[1..]));
      PairsConcat(Filter(Shown, here), Filter(Shown, Entries(m, order[1..])));
    }
  }

  // ---------------------------------------------------------------------------
  // References.

  /**
    What writeReference dereferences: every snak it reaches has a property id to cut the
    first character off and is readable by writeSnak. The loop stops at the first snak
    that is not rendered, so the snaks after it are not reached.
   */
  predicate EntriesReadable(es: seq<(string, Snak)>) {
    |es| == 0
    || (&& |es[0].1.property| > 0
        && SnakReadable(es[0].1)
        && (RenderSnak(es[0].1).Some? ==> EntriesReadable(es[1..])))
  }

  function ReferenceEntries(ref: Reference): seq<(string, Snak)> {
    Entries(ref.snaks, ref.snaksOrder)
  }

  /**
    Whether writeReference puts `!` before the first snak: the reference is not the
    statement's first, and the snak at position 0 of the first key exists.
   */
  predicate Bang(ref: Reference, first: bool) {
    !first && |ref.snaksOrder| > 0 && |Group(ref.snaks, ref.snaksOrder[0])| > 0
  }

  /** The field naming a reference snak's property: `[!]S` and the property id without its first character. */
  function ReferenceMarker(bang: bool, s: Snak): string
    requires |s.property| > 0
  {
    (if bang then "!" else "") + "S" + s.property[1..]
  }

  /** The snak loop of writeReference over the flattened entries; `bang` marks the first entry. */
  function EntryFields(es: seq<(string, Snak)>, bang: bool): (r: Option<seq<string>>)
    requires EntriesReadable(es)
    ensures r.Some? ==> |r.value| == 2 * |es|
    ensures r.None? ==> exists k :: 0 <= k < |es| && SnakReadable(es[k].1) && RenderSnak(es[k].1).None?
  {
    if |es| == 0 then Some([])
    else
      var s := es[0].1;
      var t :- RenderSnak(s);
      var rest :- EntryFields(es[1..], false);
      assert forall k :: 0 <= k < |es| - 1 ==> es[1..][k] == es[k + 1];
      Some([ReferenceMarker(bang, s), t] + rest)
  }

  /**
    When the snak loop completes, each entry contributes its marker and its rendered value,
    in order, and only the first marker can carry `!`.
   */
  lemma {:induction false} EntryFieldsLayout(es: seq<(string, Snak)>, bang: bool, k: nat)
    requires EntriesReadable(es) && EntryFields(es, bang).Some? && k < |es|
    ensures |es[k].1.property| > 0 && SnakReadable(es[k].1) && RenderSnak(es[k].1).Some?
    ensures EntryFields(es, bang).value[2 * k] == ReferenceMarker(k == 0 && bang, es[k].1)
    ensures EntryFields(es, bang).value[2 * k + 1] == RenderSnak(es[k].1).value
    decreases k
  {
    var s := es[0].1;
    var rest := EntryFields(es[1..], false);
    assert EntryFields(es, bang).value == [ReferenceMarker(bang, s), RenderSnak(s).value] + rest.value;
    if k > 0 {
      EntryFieldsLayout(es[1..], false, k - 1);
      assert es[1..][k - 1] == es[k];
    }
  }

  /**
    writeReference: the fields of one reference, or None when it contributes nothing.
    A reference is written in full or not at all: it contributes a marker and a value
    field per snak when every snak is rendered, and nothing when one is not. Only the
    first marker can carry `!`, and it does exactly when the reference is not the
    statement's first and its first key has a snak.
   */
  function ReferenceFields(ref: Reference, first: bool): (r: Option<seq<string>>)
    requires EntriesReadable(ReferenceEntries(ref))
    ensures r.Some? <==> AllRendered(ReferenceEntries(ref))
    ensures r.Some? ==> LaidOut(r.value, ReferenceEntries(ref), Bang(ref, first))
    ensures r.Some? && |ReferenceEntries(ref)| > 0 ==> (r.value[0][0] == '!' <==> Bang(ref, first))
  {
    EntryFieldsComplete(ReferenceEntries(ref), Bang(ref, first));
    EntryFields(ReferenceEntries(ref), Bang(ref, first))
  }

  /** The first entry of a reference is the snak at position 0 of its first key, when that snak exists. */
  lemma FirstEntry(ref: Reference)
    requires |ref.snaksOrder| > 0 && |Group(ref.snaks, ref.snaksOrder[0])| > 0
    ensures |ReferenceEntries(ref)| > 0
    ensures ReferenceEntries(ref)[0] == (ref.snaksOrder[0], Group(ref.snaks, ref.snaksOrder[0])[0])
  {
  }

  /** Every entry is readable by writeSnak and rendered. */
  predicate AllRendered(es: seq<(string, Snak)>) {
    forall k :: 0 <= k < |es| ==> SnakReadable(es[k].1) && RenderSnak(es[k].1).Some?
  }

  /** The fields lay out every entry in order as its marker, `!` only on the first when `bang`, then its rendered value. */
  predicate LaidOut(fs: seq<string>, es: seq<(string, Snak)>, bang: bool) {
    && |fs| == 2 * |es|
    && forall k :: 0 <= k < |es| ==>
         && |es[k].1.property| > 0
         && SnakReadable(es[k].1) && RenderSnak(es[k].1).Some?
         && fs[2 * k] == ReferenceMarker(k == 0 && bang, es[k].1)
         && fs[2 * k + 1] == RenderSnak(es[k].1).value
  }

  /** The snak loop completes exactly when every entry is rendered, and then lays each entry out in order. */
  lemma EntryFieldsComplete(es: seq<(string, Snak)>, bang: bool)
    requires EntriesReadable(es)
    ensures EntryFields(es, bang).Some? <==> AllRendered(es)
    ensures EntryFields(es, bang).Some? ==> LaidOut(EntryFields(es, bang).value, es, bang)
    ensures EntryFields(es, bang).Some? && |es| > 0 ==> (EntryFields(es, bang).value[0][0] == '!' <==> bang)
  {
    var r := EntryFields(es, bang);
    if r.Some? {
      forall k | 0 <= k < |es|
        ensures |es[k].1.property| > 0 && SnakReadable(es[k].1) && RenderSnak(es[k].1).Some?
        ensures r.value[2 * k] == ReferenceMarker(k == 0 && bang, es[k].1)
        ensures r.value[2 * k + 1] == RenderSnak(es[k].1).value
      {
        EntryFieldsLayout(es, bang, k);
      }
    } else {
      EntryFieldsFail(es, bang);
    }
  }

  /** The snak loop gives up only when an entry it reaches is not rendered. */
  lemma {:induction false} EntryFieldsFail(es: seq<(string, Snak)>, bang: bool)
    requires EntriesReadable(es) && EntryFields(es, bang).None?
    ensures !forall k :: 0 <= k < |es| ==> SnakReadable(es[k].1) && RenderSnak(es[k].1).Some?
  {
  }

  // ---------------------------------------------------------------------------
  // Statements.

  /** What writeStatement dereferences: the main snak, and the reference snaks once the main snak is rendered. */
  predicate StatementReadable(stmt: Statement) {
    && SnakReadable(stmt.mainSnak)
    && (RenderSnak(stmt.mainSnak).Some? ==>
          RefsReadable(stmt.references))
  }

  /** writeReference can dereference every snak of every reference. */
  predicate RefsReadable(refs: seq<Reference>) {
    forall i :: 0 <= i < |refs| ==> EntriesReadable(ReferenceEntries(refs[i]))
  }

  /** What reference k contributes to its statement's line: its fields when it is written, nothing when it is dropped. */
  function FieldsAt(refs: seq<Reference>, k: nat): seq<string>
    requires k < |refs| && EntriesReadable(ReferenceEntries(refs[k]))
  {
    match ReferenceFields(refs[k], k == 0)
    case Some(fs) => fs
    case None => []
  }

  /** The fields of the first n references, each appended after those before it. */
  function FieldsBefore(refs: seq<Reference>, n: nat): seq<string>
    requires n <= |refs|
    requires RefsReadable(refs)
  {
    if n == 0 then [] else FieldsBefore(refs, n - 1) + FieldsAt(refs, n - 1)
  }

  /**
    The reference loop of writeStatement from position `index` on; position 0 is the
    statement's first reference. Appended to what the references before `index` wrote,
    it completes the fields of all references, written references in order and dropped
    ones contributing nothing.
   */
  function ReferencesFields(refs: seq<Reference>, index: nat): (r: seq<string>)
    requires RefsReadable(refs)
    ensures index <= |refs| ==> FieldsBefore(refs, index) + r == FieldsBefore(refs, |refs|)
    decreases |refs| - index
  {
    if index >= |refs| then []
    else
      var rest := ReferencesFields(refs, index + 1);
      assert FieldsBefore(refs, index + 1) == FieldsBefore(refs, index) + FieldsAt(refs, index);
      ConcatAssociative(FieldsBefore(refs, index), FieldsAt(refs, index), rest);
      FieldsAt(refs, index) + rest
  }

  /** A reference is not written: one of the snaks writeReference reaches is not rendered. */
  predicate Dropped(ref: Reference) {
    !AllRendered(ReferenceEntries(ref))
  }

  /** When none of the first n references is written, they contribute no fields. */
  lemma {:induction false} NothingBefore(refs: seq<Reference>, n: nat)
    requires n <= |refs| && RefsReadable(refs)
    requires forall j :: 0 <= j < n ==> Dropped(refs[j])
    ensures |FieldsBefore(refs, n)| == 0
  {
    if n > 0 {
      NothingBefore(refs, n - 1);
      assert |FieldsAt(refs, n - 1)| == 0;
    }
  }

  /**
    Positions count references, not written references: when the references before
    position k > 0 are all dropped and reference k is written, reference k is the first
    written one, and it is still marked with `!` when its first key has a snak. So the
    references' fields start with a `!` marker.
   */
  lemma DroppedFirstReference(refs: seq<Reference>, k: nat)
    requires 0 < k < |refs|
    requires RefsReadable(refs)
    requires forall i :: 0 <= i < k ==> Dropped(refs[i])
    requires ReferenceFields(refs[k], false).Some?
    requires |refs[k].snaksOrder| > 0 && |Group(refs[k].snaks, refs[k].snaksOrder[0])| > 0
    ensures |ReferencesFields(refs, 0)| > 0 && |ReferencesFields(refs, 0)[0]| > 0
    ensures ReferencesFields(refs, 0)[0][0] == '!'
  {
    NothingBefore(refs, k);
    ConcatEmptyPrefixes(FieldsBefore(refs, 0), ReferencesFields(refs, 0), FieldsBefore(refs, k), ReferencesFields(refs, k), FieldsBefore(refs, |refs|));
    FirstEntry(refs[k]);
    var fs := ReferenceFields(refs[k], false).value;
    var rest := ReferencesFields(refs, k + 1);
    assert ReferencesFields(refs, k) == fs + rest;
    TailOfConcat(fs, rest);
  }

  /** writeStatement: the statement's line, or None when its main snak is not rendered. */
  function StatementLine(qid: string, pid: string, stmt: Statement): (r: Option<Line>)
    requires StatementReadable(stmt)
    ensures r.Some? <==> RenderSnak(stmt.mainSnak).Some?
    ensures r.Some? ==> r.value.subject == qid && r.value.key == pid
    ensures r.Some? ==> |r.value.values| > 0 && r.value.values[0] == RankMarker(stmt.rank) + RenderSnak(stmt.mainSnak).value
  {
    var main :- RenderSnak(stmt.mainSnak);
    Some(Line(qid, pid, [RankMarker(stmt.rank) + main] + QualifierFields(stmt) + ReferencesFields(stmt.references, 0)))
  }

  // ---------------------------------------------------------------------------
  // Decodability of a statement line.

  /** A snak whose value, if any, has the shape its decoder relies on. */
  predicate SnakShaped(s: Snak) {
    s.dataValue.Some? ==> ValueShaped(s.dataValue.value)
  }

  /** A key and a property id that fit in a field, and a shaped snak. */
  predicate EntryShaped(e: (string, Snak)) {
    Plain(e.0) && Plain(e.1.property) && SnakShaped(e.1)
  }

  predicate EntriesShaped(es: seq<(string, Snak)>) {
    forall e :: e in es ==> EntryShaped(e)
  }

  predicate StatementShaped(stmt: Statement) {
    && SnakShaped(stmt.mainSnak)
    && EntriesShaped(Entries(stmt.qualifiers, stmt.qualifiersOrder))
    && forall i :: 0 <= i < |stmt.references| ==> EntriesShaped(ReferenceEntries(stmt.references[i]))
  }

  predicate AllPlain(fs: seq<string>) {
    forall i :: 0 <= i < |fs| ==> Plain(fs[i])
  }

  lemma AllPlainConcat(a: seq<string>, b: seq<string>)
    requires AllPlain(a) && AllPlain(b)
    ensures AllPlain(a + b)
  {
    assert forall i :: |a| <= i < |a + b| ==> (a + b)[i] == b[i - |a|];
  }

  lemma {:induction false} PairsPlain(es: seq<(string, Snak)>)
    requires forall i :: 0 <= i < |es| ==> Shown(es[i])
    requires EntriesShaped(es)
    ensures AllPlain(Pairs(es))
  {
    if |es| > 0 {
      var e := es[0];
      assert e in es;
      assert Shown(e) && EntryShaped(e);
      RenderValuePlain(e.1);
      assert EntriesShaped(es[1..]) by {
        forall x | x in es[1..] ensures EntryShaped(x) {
          assert x in es;
        }
      }
      PairsPlain(es[1..]);
      AllPlainConcat([e.0, RenderValue(e.1).value], Pairs(es[1..]));
    }
  }

  lemma QualifierFieldsPlain(stmt: Statement)
    requires EntriesShaped(Entries(stmt.qualifiers, stmt.qualifiersOrder))
    ensures AllPlain(QualifierFields(stmt))
  {
    var es := Entries(stmt.qualifiers, stmt.qualifiersOrder);
    QualifiersAreShownEntries(stmt.qualifiers, stmt.qualifiersOrder);
    assert EntriesShaped(Filter(Shown, es)) by {
      forall x | x in Filter(Shown, es) ensures EntryShaped(x) {
        FilterMember(Shown, es, x);
      }
    }
    PairsPlain(Filter(Shown, es));
  }

  lemma ReferenceFieldsPlain(ref: Reference, first: bool)
    requires EntriesReadable(ReferenceEntries(ref)) && EntriesShaped(ReferenceEntries(ref))
    requires ReferenceFields(ref, first).Some?
    ensures AllPlain(ReferenceFields(ref, first).value)
  {
    var es := ReferenceEntries(ref);
    var fs := ReferenceFields(ref, first).value;
    forall i | 0 <= i < |fs| ensures Plain(fs[i]) {
      var k := i / 2;
      assert es[k] in es;
      EntryFieldsLayout(es, Bang(ref, first), k);
      if i % 2 == 0 {
        assert i == 2 * k;
        SuffixPlain(es[k].1.property, 1);
      } else {
        assert i == 2 * k + 1;
        RenderSnakPlain(es[k].1);
      }
    }
  }

  lemma FieldsAtPlain(refs: seq<Reference>, k: nat)
    requires k < |refs|
    requires EntriesReadable(ReferenceEntries(refs[k])) && EntriesShaped(ReferenceEntries(refs[k]))
    ensures AllPlain(FieldsAt(refs, k))
  {
    if ReferenceFields(refs[k], k == 0).Some? {
      ReferenceFieldsPlain(refs[k], k == 0);
    }
  }

  lemma {:induction false} ReferencesFieldsPlain(refs: seq<Reference>, index: nat)
    requires RefsReadable(refs)
    requires forall i :: 0 <= i < |refs| ==> EntriesShaped(ReferenceEntries(refs[i]))
    ensures AllPlain(ReferencesFields(refs, index))
    decreases |refs| - index
  {
    if index < |refs| {
      FieldsAtPlain(refs, index);
      ReferencesFieldsPlain(refs, index + 1);
      AllPlainConcat(FieldsAt(refs, index), ReferencesFields(refs, index + 1));
    }
  }

  /** Every field of a shaped statement's line is free of tabs and newlines, so the line parses back. */
  lemma StatementLinePlain(qid: string, pid: string, stmt: Statement)
    requires StatementReadable(stmt) && StatementShaped(stmt) && Plain(qid) && Plain(pid)
    requires StatementLine(qid, pid, stmt).Some?
    ensures PlainLine(StatementLine(qid, pid, stmt).value)
  {
    var l := StatementLine(qid, pid, stmt).value;
    var main := RenderSnak(stmt.mainSnak).value;
    RenderSnakPlain(stmt.mainSnak);
    assert Plain(RankMarker(stmt.rank) + main);
    QualifierFieldsPlain(stmt);
    ReferencesFieldsPlain(stmt.references, 0);
    AllPlainConcat([RankMarker(stmt.rank) + main], QualifierFields(stmt));
    AllPlainConcat([RankMarker(stmt.rank) + main] + QualifierFields(stmt), ReferencesFields(stmt.references, 0));
    AllPlainConcat([qid, pid], l.values);
    assert Fields(l) == [qid, pid] + l.values;
  }

  /** A text that does not start with a rank marker. */
  predicate ArrowFree(t: string) {
    |t| == 0 || (t[0] != Up && t[0] != Down)
  }

  /**
    The first value field of a statement line gives back the statement's rank and what
    its main snak conveys, and the fields after it are the shown qualifiers, then the
    references.
   */
  lemma StatementLineDecodes(qid: string, pid: string, stmt: Statement)
    requires StatementReadable(stmt) && SnakShaped(stmt.mainSnak)
    requires StatementLine(qid, pid, stmt).Some?
    requires ArrowFree(RenderSnak(stmt.mainSnak).value)
    ensures DecodeRank(StatementLine(qid, pid, stmt).value.values[0]).0 == stmt.rank
    ensures DecodeSnak(stmt.mainSnak.dataType, DecodeRank(StatementLine(qid, pid, stmt).value.values[0]).1)
            == Some(SnakLiteralOf(stmt.mainSnak))
    ensures StatementLine(qid, pid, stmt).value.values[1..]
            == Pairs(Filter(Shown, Entries(stmt.qualifiers, stmt.qualifiersOrder))) + ReferencesFields(stmt.references, 0)
  {
    var l := StatementLine(qid, pid, stmt).value;
    var main := RenderSnak(stmt.mainSnak).value;
    assert DecodeRank(l.values[0]) == (stmt.rank, main) by {
      assert l.values[0] == RankMarker(stmt.rank) + main;
      DecodeRankMarker(stmt.rank, main);
    }
    DecodeRenderSnak(stmt.mainSnak);
    StatementLineRest(qid, pid, stmt, l);
  }

  lemma StatementLineRest(qid: string, pid: string, stmt: Statement, l: Line)
    requires StatementReadable(stmt)
    requires StatementLine(qid, pid, stmt) == Some(l)
    ensures |l.values| > 0
    ensures l.values[1..] == Pairs(Filter(Shown, Entries(stmt.qualifiers, stmt.qualifiersOrder))) + ReferencesFields(stmt.references, 0)
  {
    var head := [RankMarker(stmt.rank) + RenderSnak(stmt.mainSnak).value];
    var qs, fs := QualifierFields(stmt), ReferencesFields(stmt.references, 0);
    assert l.values == head + qs + fs;
    ConcatAssociative(head, qs, fs);
    TailOfConcat(head, qs + fs);
    QualifiersAreShownEntries(stmt.qualifiers, stmt.qualifiersOrder);
  }
}
