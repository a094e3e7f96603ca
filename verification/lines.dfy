/**
  The line syntax of the output: every fact is one line of tab-separated fields ending
  in a newline. Field 1 is the entity id, field 2 a key (`L`, `D`, `A` or `S` followed
  by a language or site code, or a property id), and the rest are value fields.
 */
module Lines {
  import opened Wrappers
  import opened Text

  datatype Line = Line(subject: string, key: string, values: seq<string>)

  function Fields(l: Line): seq<string> {
    [l.subject, l.key] + l.values
  }

  /** The bytes one line puts into the entity buffer. */
  function RenderLine(l: Line): (r: string)
    ensures |r| > 0 && r[|r| - 1] == '\n'
  {
    Join(Fields(l), '\t') + "\n"
  }

  function RenderLines(ls: seq<Line>): string {
    if |ls| == 0 then [] else RenderLine(ls[0]) + RenderLines(ls[1..])
  }

  lemma RenderLinesConcat(a: seq<Line>, b: seq<Line>)
    ensures RenderLines(a + b) == RenderLines(a) + RenderLines(b)
  {
    if |a| > 0 {
      assert (a + b)[1..] == a[1..] + b;
      RenderLinesConcat(a[1..], b);
    } else {
      assert a + b == b;
    }
  }

  /** A line whose fields carry no tab or newline of their own, and which has a value field. */
  predicate PlainLine(l: Line) {
    |l.values| > 0 && forall i :: 0 <= i < |Fields(l)| ==> Plain(Fields(l)[i])
  }

  predicate PlainLines(ls: seq<Line>) {
    forall i :: 0 <= i < |ls| ==> PlainLine(ls[i])
  }

  lemma PlainLinesConcat(a: seq<Line>, b: seq<Line>)
    requires PlainLines(a) && PlainLines(b)
    ensures PlainLines(a + b)
  {
    assert forall i :: |a| <= i < |a + b| ==> (a + b)[i] == b[i - |a|];
  }

  /** The lines under one key, in the order they come. */
  function KeyedLines(ls: seq<Line>, key: string): (r: seq<Line>)
    ensures forall i :: 0 <= i < |r| ==> r[i].key == key
  {
    if |ls| == 0 then []
    else if ls[0].key == key then [ls[0]] + KeyedLines(ls[1..], key)
    else KeyedLines(ls[1..], key)
  }

  lemma {:induction false} KeyedLinesConcat(a: seq<Line>, b: seq<Line>, key: string)
    ensures KeyedLines(a + b, key) == KeyedLines(a, key) + KeyedLines(b, key)
    decreases |a|
  {
    if |a| > 0 {
      assert (a + b)[1..] == a[1..] + b;
      KeyedLinesConcat(a[1..], b, key);
    } else {
      assert a + b == b;
    }
  }

  lemma {:induction false} KeyedLinesAll(ls: seq<Line>, key: string)
    requires forall i :: 0 <= i < |ls| ==> ls[i].key == key
    ensures KeyedLines(ls, key) == ls
    decreases |ls|
  {
    if |ls| > 0 {
      KeyedLinesAll(ls[1..], key);
    }
  }

  lemma {:induction false} KeyedLinesNone(ls: seq<Line>, key: string)
    requires forall i :: 0 <= i < |ls| ==> ls[i].key != key
    ensures KeyedLines(ls, key) == []
    decreases |ls|
  {
    if |ls| > 0 {
      KeyedLinesNone(ls[1..], key);
    }
  }

  function ParseLine(t: string): Option<Line> {
    var fields := Split(t, '\t');
    if |fields| < 3 then None else Some(Line(fields[0], fields[1], fields[2..]))
  }

  /** Reads back a sequence of newline-terminated lines. */
  function ParseLines(t: string): Option<seq<Line>>
    decreases |t|
  {
    if |t| == 0 then Some([])
    else
      var end := IndexOf(t, '\n');
      if end == |t| then None
      else
        var line :- ParseLine(t[..end]);
        var rest :- ParseLines(t[end + 1..]);
        Some([line] + rest)
  }

  lemma ParseRenderLine(l: Line)
    requires PlainLine(l)
    ensures ParseLine(Join(Fields(l), '\t')) == Some(l)
    ensures '\n' !in Join(Fields(l), '\t')
  {
    var fs := Fields(l);
    SplitJoin(fs, '\t');
    JoinNoChar(fs, '\t', '\n');
    assert fs[2..] == l.values;
  }

  /** The output of plain lines reads back as exactly those lines. */
  lemma {:induction false} ParseRenderLines(ls: seq<Line>)
    requires PlainLines(ls)
    ensures ParseLines(RenderLines(ls)) == Some(ls)
    decreases |ls|
  {
    if |ls| > 0 {
      var body := Join(Fields(ls[0]), '\t');
      var rest := RenderLines(ls[1..]);
      ParseRenderLine(ls[0]);
      PlainLinesTail(ls);
      ParseRenderLines(ls[1..]);
      assert RenderLines(ls) == body + "\n" + rest;
      ParseLinesStep(RenderLines(ls), body, rest, ls[0], ls[1..]);
      assert ls == [ls[0]] + ls[1..];
    }
  }

  /** One step of ParseLines: a first line without a newline of its own, then the rest. */
  lemma ParseLinesStep(t: string, body: string, rest: string, l: Line, ls: seq<Line>)
    requires t == body + "\n" + rest && '\n' !in body
    requires ParseLine(body) == Some(l) && ParseLines(rest) == Some(ls)
    ensures ParseLines(t) == Some([l] + ls)
  {
    CutAtFirst(body, '\n', rest);
    assert body + "\n" + rest == body + ['\n'] + rest;
  }

  lemma PlainLinesTail(ls: seq<Line>)
    requires |ls| > 0 && PlainLines(ls)
    ensures PlainLines(ls[1..])
  {
    assert forall i :: 0 <= i < |ls| - 1 ==> ls[1..][i] == ls[i + 1];
  }
}
