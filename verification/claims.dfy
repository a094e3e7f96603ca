/**
  writeClaims: the claim map becomes a list of numbered properties, sorted by number,
  each with its statements sorted by rank, and each written as one line per statement.
 */
module Claims {
  import opened Wrappers
  import opened Text
  import opened Seqs
  import opened Sorting
  import opened Wikibase
  import opened Values
  import opened Lines
  import opened Statements

  /** The error strconv.ParseUint reports, for the text after the `P`. */
  datatype ClaimError = InvalidPropertyId(digits: string)

  /** A claim whose key has been read as an unsigned 64-bit property number. */
  datatype PropertyClaim = PropertyClaim(property: nat, statements: seq<Statement>)

  /** A claim keyed by a property id; other keys (lexemes' forms and senses, say) are skipped. */
  predicate IsPropertyClaim(c: Claim) {
    |c.key| > 0 && c.key[0] == 'P'
  }

  /** A property key whose number does not parse. */
  predicate BadKey(key: string) {
    |key| > 0 && key[0] == 'P' && ParseUint64(key[1..]).None?
  }

  predicate KeysNonEmpty(claims: seq<Claim>) {
    forall i :: 0 <= i < |claims| ==> |claims[i].key| > 0
  }

  predicate HasBadKey(claims: seq<Claim>) {
    exists i :: 0 <= i < |claims| && BadKey(claims[i].key)
  }

  /** `digits` follows the `P` of the first key, in map order, whose number does not parse. */
  predicate FirstBadKey(claims: seq<Claim>, digits: string) {
    exists i :: 0 <= i < |claims| && BadKey(claims[i].key)
      && digits == claims[i].key[1..]
      && forall j :: 0 <= j < i ==> !BadKey(claims[j].key)
  }

  /** pc is c with its key read as a number. */
  predicate ParsedFrom(pc: PropertyClaim, c: Claim) {
    |c.key| > 0 && ParseUint64(c.key[1..]) == Some(pc.property) && pc.statements == c.statements
  }

  /**
    The collecting loop of writeClaims. It reads `key[0]`, so every key must be non-empty;
    it stops at the first property key whose number does not parse.
   */
  function ParseClaims(claims: seq<Claim>): (r: Result<seq<PropertyClaim>, ClaimError>)
    requires KeysNonEmpty(claims)
    ensures r.Failure? <==> HasBadKey(claims)
    ensures r.Failure? ==> FirstBadKey(claims, r.error.digits)
    ensures r.Success? ==>
      var ps := Filter(IsPropertyClaim, claims);
      |r.value| == |ps| && forall i :: 0 <= i < |ps| ==> ParsedFrom(r.value[i], ps[i])
  {
    if |claims| == 0 then Success([])
    else
      var c := claims[0];
      assert forall i :: 0 <= i < |claims| - 1 ==> claims[1..][i] == claims[i + 1];
      if c.key[0] == 'P' then
        match ParseUint64(c.key[1..])
        case None =>
          assert BadKey(claims[0].key);
          Failure(InvalidPropertyId(c.key[1..]))
        case Some(n) =>
          var rest :- ParseClaims(claims[1..]);
          Success([PropertyClaim(n, c.statements)] + rest)
      else
        ParseClaims(claims[1..])
  }

  /** The id a property number is written as: `P` and the canonical decimal numeral. */
  function PropertyId(n: nat): (r: string)
    ensures |r| > 1 && r[0] == 'P' && Canonical(r[1..]) && DigitsValue(r[1..]) == n
  {
    var r := "P" + FormatNat(n);
    assert r[1..] == FormatNat(n);
    r
  }

  /** The number a written property id stands for. */
  function PropertyOf(key: string): nat {
    if |key| > 0 && AllDigits(key[1..]) then DigitsValue(key[1..]) else 0
  }

  /** A key is written back unchanged exactly when its numeral is canonical: `P007` becomes `P7`. */
  lemma PropertyIdCanonical(key: string, n: nat)
    requires |key| > 0 && key[0] == 'P' && ParseUint64(key[1..]) == Some(n)
    ensures PropertyId(n) == key <==> Canonical(key[1..])
  {
    if Canonical(key[1..]) {
      FormatDigitsValue(key[1..]);
      assert key == "P" + key[1..];
    }
  }

  // ---------------------------------------------------------------------------
  // Sorting.

  function ByProperty(pc: PropertyClaim): Key {
    Number(pc.property)
  }

  /** The rank order: Go compares the rank constants, whose codes are given here by `rankKey`. */
  function ByRank(rankKey: Rank -> int): Statement -> Key {
    (s: Statement) => Number(rankKey(s.rank))
  }

  /** What sorting may not change about a claim: its number and its statements up to order. */
  function Summary(pc: PropertyClaim): (nat, multiset<Statement>) {
    (pc.property, multiset(pc.statements))
  }

  /** The per-claim statement sort of writeClaims. */
  function SortStatements(pcs: seq<PropertyClaim>, rankKey: Rank -> int): (r: seq<PropertyClaim>)
    ensures |r| == |pcs|
    ensures forall i :: 0 <= i < |r| ==>
      && Summary(r[i]) == Summary(pcs[i])
      && SortedBy(r[i].statements, ByRank(rankKey))
  {
    if |pcs| == 0 then []
    else
      [PropertyClaim(pcs[0].property, SortBy(pcs[0].statements, ByRank(rankKey)))]
      + SortStatements(pcs[1..], rankKey)
  }

  /**
    The claims in the order writeClaims writes them: by ascending property number, each
    with its statements by ascending rank code. Nothing is lost or added.
   */
  function SortClaims(pcs: seq<PropertyClaim>, rankKey: Rank -> int): (r: seq<PropertyClaim>)
    ensures SortedBy(r, ByProperty)
    ensures forall i :: 0 <= i < |r| ==> SortedBy(r[i].statements, ByRank(rankKey))
    ensures multiset(Map(Summary, r)) == multiset(Map(Summary, pcs))
  {
    var sorted := SortBy(pcs, ByProperty);
    var r := SortStatements(sorted, rankKey);
    assert Map(Summary, r) == Map(Summary, sorted) by {
      forall i | 0 <= i < |r| ensures Map(Summary, r)[i] == Map(Summary, sorted)[i] {
        MapIndex(Summary, r, i);
        MapIndex(Summary, sorted, i);
      }
    }
    MapPermutation(Summary, sorted, pcs);
    r
  }

  // ---------------------------------------------------------------------------
  // Lines.

  /** A statement whose main snak writeSnak renders, so it gets a line. */
  predicate MainRendered(s: Statement) {
    SnakReadable(s.mainSnak) && RenderSnak(s.mainSnak).Some?
  }

  predicate AllReadable(stmts: seq<Statement>) {
    forall j :: 0 <= j < |stmts| ==> StatementReadable(stmts[j])
  }

  /** The lines are the statement lines of `shown`, one for one and in order. */
  predicate LinesOfStatements(r: seq<Line>, qid: string, pid: string, shown: seq<Statement>) {
    && |r| == |shown|
    && forall i :: 0 <= i < |r| ==>
         && r[i].subject == qid && r[i].key == pid
         && StatementReadable(shown[i]) && StatementLine(qid, pid, shown[i]) == Some(r[i])
  }

  lemma LinesOfStatementsCons(qid: string, pid: string, s: Statement, l: Line, shown: seq<Statement>, r: seq<Line>)
    requires LinesOfStatements(r, qid, pid, shown)
    requires StatementReadable(s) && StatementLine(qid, pid, s) == Some(l)
    ensures LinesOfStatements([l] + r, qid, pid, [s] + shown)
  {
    assert forall i :: 0 < i < |r| + 1 ==> ([l] + r)[i] == r[i - 1] && ([s] + shown)[i] == shown[i - 1];
  }

  /** The statement loop of writeClaims for one property: a line per statement whose main snak is rendered, in order. */
  function StatementLines(qid: string, pid: string, stmts: seq<Statement>): (r: seq<Line>)
    requires AllReadable(stmts)
    ensures LinesOfStatements(r, qid, pid, Filter(MainRendered, stmts))
  {
    if |stmts| == 0 then []
    else
      var rest := StatementLines(qid, pid, stmts[1..]);
      match StatementLine(qid, pid, stmts[0])
      case Some(l) =>
        LinesOfStatementsCons(qid, pid, stmts[0], l, Filter(MainRendered, stmts[1..]), rest);
        [l] + rest
      case None => rest
  }

  predicate ClaimsReadable(pcs: seq<PropertyClaim>) {
    forall i :: 0 <= i < |pcs| ==> AllReadable(pcs[i].statements)
  }

  /** The property numbers of the claims, in order. */
  function Numbers(pcs: seq<PropertyClaim>): (r: seq<nat>)
    ensures |r| == |pcs|
    ensures forall k :: 0 <= k < |r| ==> r[k] == pcs[k].property
  {
    if |pcs| == 0 then [] else [pcs[0].property] + Numbers(pcs[1..])
  }

  /** The number a line is about. */
  function LineProperty(l: Line): nat {
    PropertyOf(l.key)
  }

  /** How many lines the first k claims write: one per statement whose main snak is written. */
  function WrittenBefore(pcs: seq<PropertyClaim>, k: nat): nat
    requires k <= |pcs|
  {
    if k == 0 then 0 else |Filter(MainRendered, pcs[0].statements)| + WrittenBefore(pcs[1..], k - 1)
  }

  /** The lines one claim writes: those of its statements, under its canonical id. */
  function ClaimBlock(qid: string, pc: PropertyClaim): seq<Line>
    requires AllReadable(pc.statements)
  {
    StatementLines(qid, PropertyId(pc.property), pc.statements)
  }

  /** Claim k's lines fill positions WrittenBefore(pcs, k) up to WrittenBefore(pcs, k + 1) of ls. */
  predicate BlockAt(ls: seq<Line>, qid: string, pcs: seq<PropertyClaim>, k: nat)
    requires k < |pcs| && ClaimsReadable(pcs)
  {
    && WrittenBefore(pcs, k) <= WrittenBefore(pcs, k + 1) <= |ls|
    && ls[WrittenBefore(pcs, k)..WrittenBefore(pcs, k + 1)] == ClaimBlock(qid, pcs[k])
  }

  /** Claim by claim, in order, each claim's lines, and nothing else. */
  predicate ClaimBlocks(ls: seq<Line>, qid: string, pcs: seq<PropertyClaim>)
    requires ClaimsReadable(pcs)
  {
    && |ls| == WrittenBefore(pcs, |pcs|)
    && forall k :: 0 <= k < |pcs| ==> BlockAt(ls, qid, pcs, k)
  }

  lemma BlockAtCons(qid: string, pcs: seq<PropertyClaim>, here: seq<Line>, rest: seq<Line>, k: nat)
    requires k < |pcs| && ClaimsReadable(pcs) && ClaimsReadable(pcs[1..])
    requires here == ClaimBlock(qid, pcs[0])
    requires ClaimBlocks(rest, qid, pcs[1..])
    ensures BlockAt(here + rest, qid, pcs, k)
  {
    var tail := pcs[1..];
    if k == 0 {
      assert WrittenBefore(pcs, 1) == |here| + WrittenBefore(tail, 0);
      SliceOfConcat(here, rest, 0, 0, |here|, |here|);
    } else {
      assert BlockAt(rest, qid, tail, k - 1);
      LaterBlockAt(qid, pcs, here, rest, k, pcs[k]);
    }
  }

  lemma LaterBlockAt(qid: string, pcs: seq<PropertyClaim>, here: seq<Line>, rest: seq<Line>, k: nat, pc: PropertyClaim)
    requires 0 < k < |pcs| && pcs[k] == pc && ClaimsReadable(pcs) && ClaimsReadable(pcs[1..])
    requires |here| == |Filter(MainRendered, pcs[0].statements)|
    requires BlockAt(rest, qid, pcs[1..], k - 1)
    ensures BlockAt(here + rest, qid, pcs, k)
  {
    var tail := pcs[1..];
    assert tail[k - 1] == pc;
    var i, j := WrittenBefore(tail, k - 1), WrittenBefore(tail, k);
    assert WrittenBefore(pcs, k) == |here| + i;
    assert WrittenBefore(pcs, k + 1) == |here| + j;
    SliceOfConcat(here, rest, i, j, WrittenBefore(pcs, k), WrittenBefore(pcs, k + 1));
  }

  lemma ClaimBlocksCons(qid: string, pcs: seq<PropertyClaim>, here: seq<Line>, rest: seq<Line>)
    requires |pcs| > 0 && ClaimsReadable(pcs) && ClaimsReadable(pcs[1..])
    requires here == ClaimBlock(qid, pcs[0])
    requires ClaimBlocks(rest, qid, pcs[1..])
    ensures ClaimBlocks(here + rest, qid, pcs)
  {
    forall k | 0 <= k < |pcs| ensures BlockAt(here + rest, qid, pcs, k) {
      BlockAtCons(qid, pcs, here, rest, k);
    }
    assert WrittenBefore(pcs, |pcs|) == |here| + WrittenBefore(pcs[1..], |pcs| - 1);
  }

  /**
    The writing loop of writeClaims: claim by claim, in order, the lines of the claim's
    statements whose main snak is written, under the claim's canonical id. So every line
    names one of the claims' numbers by its canonical id.
   */
  function ClaimLines(qid: string, pcs: seq<PropertyClaim>): (r: seq<Line>)
    requires ClaimsReadable(pcs)
    ensures ClaimBlocks(r, qid, pcs)
    ensures forall i :: 0 <= i < |r| ==>
      && r[i].subject == qid
      && r[i].key == PropertyId(LineProperty(r[i]))
      && LineProperty(r[i]) in Numbers(pcs)
  {
    if |pcs| == 0 then []
    else
      var n := pcs[0].property;
      var here := StatementLines(qid, PropertyId(n), pcs[0].statements);
      ClaimsReadableTail(pcs);
      var rest := ClaimLines(qid, pcs[1..]);
      assert Numbers(pcs) == [n] + Numbers(pcs[1..]);
      assert LineProperty(Line(qid, PropertyId(n), [])) == n;
      ClaimBlocksCons(qid, pcs, here, rest);
      here + rest
  }

  lemma ClaimsReadableTail(pcs: seq<PropertyClaim>)
    requires |pcs| > 0 && ClaimsReadable(pcs)
    ensures ClaimsReadable(pcs[1..])
  {
    forall i | 0 <= i < |pcs| - 1 ensures AllReadable(pcs[1..][i].statements) {
      assert pcs[1..][i] == pcs[i + 1];
    }
  }

  lemma ClaimsReadableConcat(a: seq<PropertyClaim>, b: seq<PropertyClaim>)
    requires ClaimsReadable(a) && ClaimsReadable(b)
    ensures ClaimsReadable(a + b)
  {
    forall i | 0 <= i < |a + b| ensures AllReadable((a + b)[i].statements) {
      if i < |a| {
        assert (a + b)[i] == a[i];
      } else {
        assert (a + b)[i] == b[i - |a|];
      }
    }
  }

  /** One step of the writing loop: the first claim's statement lines, then the rest's. */
  lemma ClaimLinesStep(qid: string, pcs: seq<PropertyClaim>)
    requires |pcs| > 0 && ClaimsReadable(pcs)
    ensures ClaimsReadable(pcs[1..])
    ensures ClaimLines(qid, pcs)
      == StatementLines(qid, PropertyId(pcs[0].property), pcs[0].statements) + ClaimLines(qid, pcs[1..])
  {
    ClaimsReadableTail(pcs);
  }

  /** Two claims' lines next to each other are the lines of the two claim lists joined. */
  lemma {:induction false} ClaimLinesConcat(qid: string, a: seq<PropertyClaim>, b: seq<PropertyClaim>)
    requires ClaimsReadable(a) && ClaimsReadable(b)
    ensures ClaimsReadable(a + b) && ClaimLines(qid, a + b) == ClaimLines(qid, a) + ClaimLines(qid, b)
    decreases |a|
  {
    ClaimsReadableConcat(a, b);
    if |a| > 0 {
      var here := StatementLines(qid, PropertyId(a[0].property), a[0].statements);
      ClaimLinesStep(qid, a);
      ClaimLinesStep(qid, a + b);
      TailOfConcat(a, b);
      ClaimLinesConcat(qid, a[1..], b);
      ConcatAssociative(here, ClaimLines(qid, a[1..]), ClaimLines(qid, b));
    } else {
      assert a + b == b;
    }
  }

  /**
    writeClaims writes claim after claim: wherever a claim stands in the list, its
    statement lines stand between the lines of the claims before it and after it.
   */
  lemma ClaimLinesBlocks(qid: string, before: seq<PropertyClaim>, pc: PropertyClaim, after: seq<PropertyClaim>)
    requires ClaimsReadable(before) && AllReadable(pc.statements) && ClaimsReadable(after)
    ensures ClaimsReadable(before + [pc] + after)
    ensures ClaimLines(qid, before + [pc] + after)
      == ClaimLines(qid, before) + StatementLines(qid, PropertyId(pc.property), pc.statements) + ClaimLines(qid, after)
  {
    var mid := StatementLines(qid, PropertyId(pc.property), pc.statements);
    assert ClaimsReadable([pc]) by {
      forall i | 0 <= i < 1 ensures AllReadable([pc][i].statements) {
        assert [pc][i] == pc;
      }
    }
    ClaimsReadableConcat([pc], after);
    var tail := [pc] + after;
    ClaimLinesStep(qid, tail);
    assert tail[0] == pc && tail[1..] == after;
    ClaimLinesConcat(qid, before, tail);
    ConcatAssociative(before, [pc], after);
    ConcatAssociative(ClaimLines(qid, before), mid, ClaimLines(qid, after));
  }

  /** Distinct property ids for distinct numbers. */
  lemma PropertyIdInjective(m: nat, n: nat)
    requires PropertyId(m) == PropertyId(n)
    ensures m == n
  {
    assert PropertyId(m)[1..] == PropertyId(n)[1..];
  }

  /** No two claims share a property number. */
  predicate DistinctProperties(pcs: seq<PropertyClaim>) {
    forall i, j :: 0 <= i < j < |pcs| ==> pcs[i].property != pcs[j].property
  }

  /** Claims none of which has number n write no line under n's id. */
  lemma {:induction false} ClaimLinesWithout(qid: string, pcs: seq<PropertyClaim>, n: nat)
    requires ClaimsReadable(pcs)
    requires forall i :: 0 <= i < |pcs| ==> pcs[i].property != n
    ensures KeyedLines(ClaimLines(qid, pcs), PropertyId(n)) == []
    decreases |pcs|
  {
    if |pcs| > 0 {
      var pid := PropertyId(pcs[0].property);
      var here := StatementLines(qid, pid, pcs[0].statements);
      ClaimLinesStep(qid, pcs);
      var rest := ClaimLines(qid, pcs[1..]);
      KeyedLinesConcat(here, rest, PropertyId(n));
      if pid == PropertyId(n) {
        PropertyIdInjective(pcs[0].property, n);
      }
      KeyedLinesNone(here, PropertyId(n));
      ClaimLinesWithout(qid, pcs[1..], n);
    }
  }

  /**
    When no two claims share a number, the lines under the id of claim k are exactly
    the lines of claim k's statements, in the order they are written.
   */
  lemma ClaimLinesOfProperty(qid: string, pcs: seq<PropertyClaim>, k: nat)
    requires ClaimsReadable(pcs) && DistinctProperties(pcs) && k < |pcs|
    ensures KeyedLines(ClaimLines(qid, pcs), PropertyId(pcs[k].property))
      == StatementLines(qid, PropertyId(pcs[k].property), pcs[k].statements)
  {
    ClaimLinesOfClaim(qid, pcs, k, pcs[k]);
  }

  lemma {:induction false} ClaimLinesOfClaim(qid: string, pcs: seq<PropertyClaim>, k: nat, pc: PropertyClaim)
    requires ClaimsReadable(pcs) && DistinctProperties(pcs) && k < |pcs| && pcs[k] == pc
    ensures KeyedLines(ClaimLines(qid, pcs), PropertyId(pc.property))
      == StatementLines(qid, PropertyId(pc.property), pc.statements)
    decreases |pcs|
  {
    if k == 0 {
      FirstClaimKeyed(qid, pcs);
    } else {
      LaterClaimKeyed(qid, pcs, k);
      ClaimLinesOfClaim(qid, pcs[1..], k - 1, pc);
      SkipFirstClaim(qid, pcs, PropertyId(pc.property), StatementLines(qid, PropertyId(pc.property), pc.statements));
    }
  }

  /** The first claim's lines are all under its id, and the other claims write none there. */
  lemma FirstClaimKeyed(qid: string, pcs: seq<PropertyClaim>)
    requires ClaimsReadable(pcs) && DistinctProperties(pcs) && |pcs| > 0
    ensures KeyedLines(ClaimLines(qid, pcs), PropertyId(pcs[0].property))
      == StatementLines(qid, PropertyId(pcs[0].property), pcs[0].statements)
  {
    var pid := PropertyId(pcs[0].property);
    var here := StatementLines(qid, pid, pcs[0].statements);
    ClaimLinesStep(qid, pcs);
    var rest := ClaimLines(qid, pcs[1..]);
    KeyedLinesConcat(here, rest, pid);
    KeyedLinesAll(here, pid);
    forall i | 0 <= i < |pcs| - 1 ensures pcs[1..][i].property != pcs[0].property {
      assert pcs[1..][i] == pcs[i + 1];
    }
    ClaimLinesWithout(qid, pcs[1..], pcs[0].property);
    ConcatEmpty(here);
  }

  /** When the first claim writes nothing under key, the lines under key are those of the rest. */
  lemma SkipFirstClaim(qid: string, pcs: seq<PropertyClaim>, key: string, keyed: seq<Line>)
    requires ClaimsReadable(pcs) && |pcs| > 0
    requires KeyedLines(StatementLines(qid, PropertyId(pcs[0].property), pcs[0].statements), key) == []
    requires ClaimsReadable(pcs[1..]) && KeyedLines(ClaimLines(qid, pcs[1..]), key) == keyed
    ensures KeyedLines(ClaimLines(qid, pcs), key) == keyed
  {
    var here := StatementLines(qid, PropertyId(pcs[0].property), pcs[0].statements);
    ClaimLinesStep(qid, pcs);
    KeyedLinesConcat(here, ClaimLines(qid, pcs[1..]), key);
    ConcatEmpty(keyed);
  }

  /** A later claim's id has no line of the first claim, and the rest still have distinct numbers. */
  lemma LaterClaimKeyed(qid: string, pcs: seq<PropertyClaim>, k: nat)
    requires ClaimsReadable(pcs) && DistinctProperties(pcs) && 0 < k < |pcs|
    ensures ClaimsReadable(pcs[1..]) && DistinctProperties(pcs[1..]) && pcs[1..][k - 1] == pcs[k]
    ensures var pid := PropertyId(pcs[0].property);
      KeyedLines(StatementLines(qid, pid, pcs[0].statements), PropertyId(pcs[k].property)) == []
  {
    var pid := PropertyId(pcs[0].property);
    ClaimsReadableTail(pcs);
    if pid == PropertyId(pcs[k].property) {
      PropertyIdInjective(pcs[0].property, pcs[k].property);
    }
    KeyedLinesNone(StatementLines(qid, pid, pcs[0].statements), PropertyId(pcs[k].property));
    forall i, j | 0 <= i < j < |pcs| - 1 ensures pcs[1..][i].property != pcs[1..][j].property {
      assert pcs[1..][i] == pcs[i + 1] && pcs[1..][j] == pcs[j + 1];
    }
  }

  /** Lines in ascending order of property number. */
  predicate Ascending(ls: seq<Line>) {
    forall i, j :: 0 <= i < j < |ls| ==> LineProperty(ls[i]) <= LineProperty(ls[j])
  }

  /** Every line is about a number of at least `n`. */
  predicate AtLeast(ls: seq<Line>, n: nat) {
    forall i :: 0 <= i < |ls| ==> n <= LineProperty(ls[i])
  }

  lemma AscendingConcat(a: seq<Line>, b: seq<Line>, n: nat)
    requires forall i :: 0 <= i < |a| ==> LineProperty(a[i]) == n
    requires Ascending(b) && AtLeast(b, n)
    ensures Ascending(a + b) && AtLeast(a + b, n)
  {
    assert forall i :: |a| <= i < |a + b| ==> (a + b)[i] == b[i - |a|];
  }

  /** When the claims are sorted by number, so are their lines, and none is below the first claim's number. */
  lemma {:induction false} ClaimLinesSorted(qid: string, pcs: seq<PropertyClaim>)
    requires ClaimsReadable(pcs) && SortedBy(pcs, ByProperty)
    ensures Ascending(ClaimLines(qid, pcs))
    ensures |pcs| > 0 ==> AtLeast(ClaimLines(qid, pcs), pcs[0].property)
  {
    if |pcs| > 0 {
      var n := pcs[0].property;
      var here := StatementLines(qid, PropertyId(n), pcs[0].statements);
      ClaimLinesStep(qid, pcs);
      var rest := ClaimLines(qid, pcs[1..]);
      assert SortedBy(pcs[1..], ByProperty);
      ClaimLinesSorted(qid, pcs[1..]);
      assert forall i :: 0 <= i < |here| ==> LineProperty(here[i]) == n;
      if |pcs| > 1 {
        assert KeyLeq(ByProperty(pcs[0]), ByProperty(pcs[1]));
        assert AtLeast(rest, n);
      } else {
        assert rest == [];
      }
      AscendingConcat(here, rest, n);
    }
  }

  // ---------------------------------------------------------------------------
  // writeClaims.

  /** pc carries the number of one of the property claims of the map and that claim's statements, up to order. */
  predicate FromClaim(pc: PropertyClaim, claims: seq<Claim>) {
    exists k :: 0 <= k < |claims| && IsPropertyClaim(claims[k])
      && ParseUint64(claims[k].key[1..]) == Some(pc.property)
      && multiset(pc.statements) == multiset(claims[k].statements)
  }

  lemma SortedOrigins(claims: seq<Claim>, pcs: seq<PropertyClaim>, rankKey: Rank -> int)
    requires KeysNonEmpty(claims)
    requires ParseClaims(claims) == Success(pcs)
    ensures forall i :: 0 <= i < |SortClaims(pcs, rankKey)| ==> FromClaim(SortClaims(pcs, rankKey)[i], claims)
  {
    var sorted := SortClaims(pcs, rankKey);
    var ps := Filter(IsPropertyClaim, claims);
    forall i | 0 <= i < |sorted| ensures FromClaim(sorted[i], claims) {
      MapIndex(Summary, sorted, i);
      assert Summary(sorted[i]) in multiset(Map(Summary, pcs));
      var m :| 0 <= m < |Map(Summary, pcs)| && Map(Summary, pcs)[m] == Summary(sorted[i]);
      MapIndex(Summary, pcs, m);
      assert ParsedFrom(pcs[m], ps[m]);
      assert ps[m] in ps;
      FilterMember(IsPropertyClaim, claims, ps[m]);
      var k :| 0 <= k < |claims| && claims[k] == ps[m];
      assert multiset(sorted[i].statements) == multiset(claims[k].statements);
    }
  }

  /** Every statement of every property claim has property p. */
  predicate PropertyStatementsAre(claims: seq<Claim>, p: Statement -> bool) {
    forall i, j :: 0 <= i < |claims| && IsPropertyClaim(claims[i]) && 0 <= j < |claims[i].statements|
      ==> p(claims[i].statements[j])
  }

  /** Sorting keeps every statement, so a property all statements of the property claims have, the sorted claims' statements have too. */
  lemma SortedKeep(claims: seq<Claim>, pcs: seq<PropertyClaim>, rankKey: Rank -> int, p: Statement -> bool)
    requires KeysNonEmpty(claims) && PropertyStatementsAre(claims, p)
    requires ParseClaims(claims) == Success(pcs)
    ensures var sorted := SortClaims(pcs, rankKey);
      forall i, j :: 0 <= i < |sorted| && 0 <= j < |sorted[i].statements| ==> p(sorted[i].statements[j])
  {
    var sorted := SortClaims(pcs, rankKey);
    SortedOrigins(claims, pcs, rankKey);
    forall i, j | 0 <= i < |sorted| && 0 <= j < |sorted[i].statements|
      ensures p(sorted[i].statements[j])
    {
      assert FromClaim(sorted[i], claims);
      var k :| 0 <= k < |claims| && IsPropertyClaim(claims[k])
        && multiset(sorted[i].statements) == multiset(claims[k].statements);
      assert sorted[i].statements[j] in multiset(claims[k].statements);
    }
  }

  lemma SortedReadable(claims: seq<Claim>, pcs: seq<PropertyClaim>, rankKey: Rank -> int)
    requires KeysNonEmpty(claims) && PropertyStatementsReadable(claims)
    requires ParseClaims(claims) == Success(pcs)
    ensures ClaimsReadable(SortClaims(pcs, rankKey))
  {
    SortedKeep(claims, pcs, rankKey, StatementReadable);
  }

  /** The statements of every property claim can be read by writeStatement. */
  predicate PropertyStatementsReadable(claims: seq<Claim>) {
    forall i :: 0 <= i < |claims| && IsPropertyClaim(claims[i]) ==> AllReadable(claims[i].statements)
  }

  /** A line of entity `qid` naming, by its canonical id, the number of one of the property claims. */
  predicate LineOfClaims(l: Line, qid: string, claims: seq<Claim>) {
    && l.subject == qid
    && l.key == PropertyId(LineProperty(l))
    && exists k :: 0 <= k < |claims| && IsPropertyClaim(claims[k])
         && ParseUint64(claims[k].key[1..]) == Some(LineProperty(l))
  }

  /** What the lines of successfully parsed claims say about the claims. */
  lemma ClaimLinesOrigins(qid: string, claims: seq<Claim>, pcs: seq<PropertyClaim>, rankKey: Rank -> int)
    requires KeysNonEmpty(claims) && PropertyStatementsReadable(claims)
    requires ParseClaims(claims) == Success(pcs)
    ensures ClaimsReadable(SortClaims(pcs, rankKey))
    ensures var ls := ClaimLines(qid, SortClaims(pcs, rankKey));
      Ascending(ls) && forall i :: 0 <= i < |ls| ==> LineOfClaims(ls[i], qid, claims)
  {
    var sorted := SortClaims(pcs, rankKey);
    SortedReadable(claims, pcs, rankKey);
    ClaimLinesSorted(qid, sorted);
    SortedOrigins(claims, pcs, rankKey);
    LinesOfSortedClaims(qid, claims, sorted);
  }

  lemma LinesOfSortedClaims(qid: string, claims: seq<Claim>, sorted: seq<PropertyClaim>)
    requires ClaimsReadable(sorted)
    requires forall i :: 0 <= i < |sorted| ==> FromClaim(sorted[i], claims)
    ensures forall i :: 0 <= i < |ClaimLines(qid, sorted)| ==> LineOfClaims(ClaimLines(qid, sorted)[i], qid, claims)
  {
    var ls := ClaimLines(qid, sorted);
    forall i | 0 <= i < |ls| ensures LineOfClaims(ls[i], qid, claims) {
      var m :| 0 <= m < |sorted| && Numbers(sorted)[m] == LineProperty(ls[i]);
      assert FromClaim(sorted[m], claims);
    }
  }

  /**
    ls are the lines of some ordering of the claims pcs: by ascending number, each
    claim's statements by ascending rank code, no claim and no statement lost or added.
   */
  ghost predicate WrittenInOrder(ls: seq<Line>, qid: string, pcs: seq<PropertyClaim>, rankKey: Rank -> int) {
    exists sorted: seq<PropertyClaim> ::
      && SortedBy(sorted, ByProperty)
      && (forall i :: 0 <= i < |sorted| ==> SortedBy(sorted[i].statements, ByRank(rankKey)))
      && multiset(Map(Summary, sorted)) == multiset(Map(Summary, pcs))
      && ClaimsReadable(sorted)
      && ls == ClaimLines(qid, sorted)
  }

  lemma SortedWrittenInOrder(qid: string, pcs: seq<PropertyClaim>, rankKey: Rank -> int)
    requires ClaimsReadable(SortClaims(pcs, rankKey))
    ensures WrittenInOrder(ClaimLines(qid, SortClaims(pcs, rankKey)), qid, pcs, rankKey)
  {
    var sorted := SortClaims(pcs, rankKey);
    assert SortedBy(sorted, ByProperty);
  }

  /**
    writeClaims. It fails exactly when some property key's number does not parse, with
    the first such key in map order. Otherwise the lines are those of the parsed
    property claims, sorted by number and each claim's statements by rank; every line
    is about the number of a property claim of the map, names it by its canonical id,
    and the lines ascend by number.
   */
  function WriteClaims(qid: string, claims: seq<Claim>, rankKey: Rank -> int): (r: Result<seq<Line>, ClaimError>)
    requires KeysNonEmpty(claims)
    requires !HasBadKey(claims) ==> PropertyStatementsReadable(claims)
    ensures r.Failure? <==> HasBadKey(claims)
    ensures r.Failure? ==> FirstBadKey(claims, r.error.digits)
    ensures r.Success? ==> Ascending(r.value)
    ensures r.Success? ==> forall i :: 0 <= i < |r.value| ==> LineOfClaims(r.value[i], qid, claims)
    ensures r.Success? ==>
      ParseClaims(claims).Success? && WrittenInOrder(r.value, qid, ParseClaims(claims).value, rankKey)
  {
    var pcs :- ParseClaims(claims);
    ClaimLinesOrigins(qid, claims, pcs, rankKey);
    SortedWrittenInOrder(qid, pcs, rankKey);
    Success(ClaimLines(qid, SortClaims(pcs, rankKey)))
  }

  // ---------------------------------------------------------------------------
  // Decodability of the claim lines.

  lemma PropertyIdPlain(n: nat)
    ensures Plain(PropertyId(n))
  {
    var r := PropertyId(n);
    assert forall i :: 1 <= i < |r| ==> r[i] == r[1..][i - 1] && IsDigit(r[i]);
  }

  predicate AllShaped(stmts: seq<Statement>) {
    forall j :: 0 <= j < |stmts| ==> StatementShaped(stmts[j])
  }

  lemma StatementLinesPlain(qid: string, pid: string, stmts: seq<Statement>)
    requires AllReadable(stmts) && AllShaped(stmts) && Plain(qid) && Plain(pid)
    ensures PlainLines(StatementLines(qid, pid, stmts))
  {
    var r := StatementLines(qid, pid, stmts);
    var shown := Filter(MainRendered, stmts);
    forall i | 0 <= i < |r| ensures PlainLine(r[i]) {
      assert shown[i] in shown;
      FilterMember(MainRendered, stmts, shown[i]);
      StatementLinePlain(qid, pid, shown[i]);
    }
  }

  lemma {:induction false} ClaimLinesPlain(qid: string, pcs: seq<PropertyClaim>)
    requires ClaimsReadable(pcs) && Plain(qid)
    requires forall i :: 0 <= i < |pcs| ==> AllShaped(pcs[i].statements)
    ensures PlainLines(ClaimLines(qid, pcs))
  {
    if |pcs| > 0 {
      var pid := PropertyId(pcs[0].property);
      PropertyIdPlain(pcs[0].property);
      var here := StatementLines(qid, pid, pcs[0].statements);
      ClaimLinesStep(qid, pcs);
      var rest := ClaimLines(qid, pcs[1..]);
      StatementLinesPlain(qid, pid, pcs[0].statements);
      assert forall i :: 0 <= i < |pcs[1..]| ==> pcs[1..][i] == pcs[i + 1];
      ClaimLinesPlain(qid, pcs[1..]);
      PlainLinesConcat(here, rest);
    }
  }

  /** With a plain entity id and shaped statements, every claim line parses back. */
  lemma WriteClaimsPlain(qid: string, claims: seq<Claim>, rankKey: Rank -> int)
    requires KeysNonEmpty(claims) && !HasBadKey(claims) && PropertyStatementsReadable(claims)
    requires Plain(qid) && PropertyStatementsAre(claims, StatementShaped)
    ensures var r := WriteClaims(qid, claims, rankKey);
      r.Success? && PlainLines(r.value)
  {
    var pcs := ParseClaims(claims).value;
    SortedReadable(claims, pcs, rankKey);
    SortedKeep(claims, pcs, rankKey, StatementShaped);
    var sorted := SortClaims(pcs, rankKey);
    assert forall i :: 0 <= i < |sorted| ==> AllShaped(sorted[i].statements);
    ClaimLinesPlain(qid, sorted);
  }
}
