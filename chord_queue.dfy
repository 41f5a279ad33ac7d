/**
  * The chord queue pass of src/chordQueue.ts. A line holding a `{q: [c1] [c2] ...}`
  * directive loads a queue of chords and is dropped from the output; every `_`
  * on a later line takes the next chord from the front of the queue and becomes
  * `[chord]`. Misuse produces warnings: an `_` with nothing queued, a queue
  * replaced before it was used up, a queue left over at the end.
  */
module ChordQueue {
  import opened Strings
  import opened Patterns

  /** What a warning is about; the count is the number of chords left unused. */
  datatype WarningKind =
    | NoKey
    | UnderscoreWithEmptyQueue
    | PreviousQueueUnconsumed(count: nat)
    | EndOfInputUnconsumed(count: nat)

  /** A warning and the one-based line it points at. */
  datatype Warning = Warning(line: int, kind: WarningKind)

  datatype ProcessingResult = ProcessingResult(output: string, warnings: seq<Warning>)

  /** `parseQueueDirective`: the chords in brackets inside the leftmost
      `{q: ...}` of the line, or `None` when the line has no such directive. */
  function ParseQueueDirective(line: string): Option<seq<string>> {
    match Search(QueueDirectiveAt, line, 0)
    case None => None
    case Some(found) => Some(BracketContents(found.capture.group))
  }

  /** A line is a directive line exactly when `{q:` ... `}` occurs in it somewhere,
      and the chords read from it are non-empty, hold no `]`, `}` or line break. */
  lemma ParseQueueDirectiveFinds(line: string)
    ensures ParseQueueDirective(line).Some? <==> exists k :: 0 <= k <= |line| && QueueDirectiveAt(line[k..]).Some?
    ensures ParseQueueDirective(line).Some? ==> IsChordList(ParseQueueDirective(line).value)
  {
    SearchFinds(QueueDirectiveAt, line, 0);
    match Search(QueueDirectiveAt, line, 0)
    case None =>
    case Some(found) =>
      var body := found.capture.group;
      var chords := BracketContents(body);
      forall i | 0 <= i < |chords|
        ensures '}' !in chords[i] && NoLineTerminators(chords[i])
      {
        WithinOneLine(chords[i], body);
      }
  }

  /** Whatever is written between the whitespace after `{q:` and the first `}`,
      the chords are the contents of its brackets, in order. */
  lemma ParseQueueDirectiveBody(w: string, b: string, rest: string)
    requires AllWhitespace(w) && '}' !in b && NoLineTerminators(b)
    requires b == [] || !IsJsWhitespace(b[0])
    ensures ParseQueueDirective("{q:" + w + b + "}" + rest) == Some(BracketContents(b))
  {
    var line := "{q:" + w + b + "}" + rest;
    QueueDirectiveComplete(line, w, b, rest);
    assert line[0..] == line;
  }

  /** Brackets spaced by any whitespace on the line read back as the chords
      written, in order. */
  lemma ParseQueueDirectiveSpaced(w: string, cs: seq<string>, ws: seq<string>, rest: string)
    requires AllWhitespace(w) && IsChordList(cs) && |ws| == |cs|
    requires forall i :: 0 <= i < |ws| ==> NoLineTerminators(ws[i]) && AllWhitespace(ws[i])
    ensures ParseQueueDirective("{q:" + w + Spaced(cs, ws) + "}" + rest) == Some(cs)
  {
    SpacedOneLine(cs, ws);
    BracketContentsSpaced(cs, ws);
    ParseQueueDirectiveBody(w, Spaced(cs, ws), rest);
  }

  /** The widely spaced directive of the tests, `{q:  [1]   [4]   [5]  }`,
      whatever follows it on the line. */
  lemma ParseQueueDirectiveWideSpacing(rest: string)
    ensures ParseQueueDirective("{q:  [1]   [4]   [5]  }" + rest) == Some(["1", "4", "5"])
  {
    var cs, ws := ["1", "4", "5"], ["   ", "   ", "  "];
    var b := WideSpacingBody(cs, ws);
    assert "{q:" + "  " + b + "}" == "{q:  [1]   [4]   [5]  }";
    ParseQueueDirectiveSpaced("  ", cs, ws, rest);
  }

  lemma WideSpacingBody(cs: seq<string>, ws: seq<string>) returns (b: string)
    requires cs == ["1", "4", "5"] && ws == ["   ", "   ", "  "]
    ensures Spaced(cs, ws) == b == "[1]   [4]   [5]  "
    ensures IsChordList(cs) && forall i :: 0 <= i < |ws| ==> NoLineTerminators(ws[i]) && AllWhitespace(ws[i])
  {
    assert Spaced(cs[2..], ws[2..]) == "[5]  ";
    assert Spaced(cs[1..], ws[1..]) == "[4]   [5]  ";
    b := Spaced(cs, ws);
  }

  /** One line's underscores filled from the front of the queue. */
  datatype Fill = Fill(text: string, queue: seq<string>, warnings: seq<Warning>)

  /** The character loop of `processChordQueue` over a line: an `_` takes the next
      chord, or stays and warns when the queue is empty; other characters are copied. */
  function FillLine(queue: seq<string>, line: string, lineNumber: int): Fill
    decreases |line|
  {
    if line == [] then Fill([], queue, [])
    else
      var f := FillLine(queue, line[..|line| - 1], lineNumber);
      var c := line[|line| - 1];
      if c != '_' then
        Fill(f.text + [c], f.queue, f.warnings)
      else if f.queue == [] then
        Fill(f.text + "_", f.queue, f.warnings + [Warning(lineNumber, UnderscoreWithEmptyQueue)])
      else
        Fill(f.text + "[" + f.queue[0] + "]", f.queue[1..], f.warnings)
  }

  /** Every `_` either takes a chord or warns: the chords taken are the front of
      the queue, and a warning comes only once the queue is empty. */
  lemma {:induction false} FillLineConserves(queue: seq<string>, line: string, lineNumber: int)
    ensures var f := FillLine(queue, line, lineNumber);
      && |f.queue| <= |queue| && queue == queue[..|queue| - |f.queue|] + f.queue
      && Count(line, '_') == (|queue| - |f.queue|) + |f.warnings|
      && (forall i :: 0 <= i < |f.warnings| ==> f.warnings[i] == Warning(lineNumber, UnderscoreWithEmptyQueue))
      && (f.warnings != [] ==> f.queue == [])
    decreases |line|
  {
    if line != [] {
      var init, c := line[..|line| - 1], line[|line| - 1];
      var f := FillLine(queue, init, lineNumber);
      var g := FillLine(queue, line, lineNumber);
      FillLineConserves(queue, init, lineNumber);
      assert Count(line, '_') == Count(init, '_') + (if c == '_' then 1 else 0);
      if c != '_' {
        assert g == Fill(f.text + [c], f.queue, f.warnings);
      } else if f.queue == [] {
        assert g == Fill(f.text + "_", f.queue, f.warnings + [Warning(lineNumber, UnderscoreWithEmptyQueue)]);
      } else {
        assert g == Fill(f.text + "[" + f.queue[0] + "]", f.queue[1..], f.warnings);
        assert queue[..|queue| - |f.queue| + 1] == queue[..|queue| - |f.queue|] + [f.queue[0]];
      }
    }
  }

  /** A line without `_` is copied unchanged and leaves the queue as it was. */
  lemma {:induction false} FillLineNoUnderscore(queue: seq<string>, line: string, lineNumber: int)
    requires '_' !in line
    ensures FillLine(queue, line, lineNumber) == Fill(line, queue, [])
    decreases |line|
  {
    if line != [] {
      FillLineNoUnderscore(queue, line[..|line| - 1], lineNumber);
      assert line[..|line| - 1] + [line[|line| - 1]] == line;
    }
  }

  /** Filling a line is filling its first part, then the rest from the queue
      that is left: the texts and the warnings follow one another. */
  lemma {:induction false} FillLineAppend(queue: seq<string>, x: string, y: string, lineNumber: int)
    ensures var f := FillLine(queue, x, lineNumber);
      var g := FillLine(f.queue, y, lineNumber);
      FillLine(queue, x + y, lineNumber) == Fill(f.text + g.text, g.queue, f.warnings + g.warnings)
    decreases |y|
  {
    var f := FillLine(queue, x, lineNumber);
    if y == [] {
      assert x + y == x;
      assert f.text + [] == f.text && f.warnings + [] == f.warnings;
    } else {
      var init, c := y[..|y| - 1], y[|y| - 1];
      FillLineAppend(queue, x, init, lineNumber);
      assert (x + y)[..|x + y| - 1] == x + init;
      assert (x + y)[|x + y| - 1] == c;
      var g0 := FillLine(f.queue, init, lineNumber);
      if c != '_' {
        assert f.text + g0.text + [c] == f.text + (g0.text + [c]);
      } else if g0.queue == [] {
        assert f.text + g0.text + "_" == f.text + (g0.text + "_");
        assert f.warnings + g0.warnings + [Warning(lineNumber, UnderscoreWithEmptyQueue)]
          == f.warnings + (g0.warnings + [Warning(lineNumber, UnderscoreWithEmptyQueue)]);
      } else {
        assert f.text + g0.text + "[" + g0.queue[0] + "]" == f.text + (g0.text + "[" + g0.queue[0] + "]");
      }
    }
  }

  /** The first `_` of a line takes the chord at the front of the queue: the text
      before it is copied, it becomes `[chord]`, and the rest of the line is
      filled from the remaining queue. */
  lemma FillLineFront(queue: seq<string>, a: string, b: string, lineNumber: int)
    requires '_' !in a && queue != []
    ensures var g := FillLine(queue[1..], b, lineNumber);
      FillLine(queue, a + "_" + b, lineNumber) == Fill(a + "[" + queue[0] + "]" + g.text, g.queue, g.warnings)
  {
    var head := FillUnderscoreAfter(queue, a, lineNumber);
    assert head == Fill(a + "[" + queue[0] + "]", queue[1..], []);
    FillLineAppend(queue, a + "_", b, lineNumber);
  }

  /** With the queue empty, the first `_` stays and is warned about at this line;
      the rest of the line is filled from the still empty queue. */
  lemma FillLineEmptyFront(a: string, b: string, lineNumber: int)
    requires '_' !in a
    ensures var g := FillLine([], b, lineNumber);
      FillLine([], a + "_" + b, lineNumber) ==
        Fill(a + "_" + g.text, g.queue, [Warning(lineNumber, UnderscoreWithEmptyQueue)] + g.warnings)
  {
    var head := FillUnderscoreAfter([], a, lineNumber);
    assert head == Fill(a + "_", [], [Warning(lineNumber, UnderscoreWithEmptyQueue)]);
    FillLineAppend([], a + "_", b, lineNumber);
  }

  /** Text free of `_` followed by one `_`. */
  lemma FillUnderscoreAfter(queue: seq<string>, a: string, lineNumber: int) returns (head: Fill)
    requires '_' !in a
    ensures head == FillLine(queue, a + "_", lineNumber)
    ensures queue != [] ==> head == Fill(a + "[" + queue[0] + "]", queue[1..], [])
    ensures queue == [] ==> head == Fill(a + "_", [], [Warning(lineNumber, UnderscoreWithEmptyQueue)])
  {
    var line := a + "_";
    assert line[..|line| - 1] == a && line[|line| - 1] == '_';
    FillLineNoUnderscore(queue, a, lineNumber);
    head := FillLine(queue, line, lineNumber);
  }

  /** A filled line holds a character other than `_` and brackets only where the
      line or one of the chords it took holds it: in particular no new line break. */
  lemma {:induction false} FillLineAvoids(queue: seq<string>, line: string, lineNumber: int, x: char)
    requires x != '_' && x != '[' && x != ']' && x !in line
    requires forall i :: 0 <= i < |queue| ==> x !in queue[i]
    ensures x !in FillLine(queue, line, lineNumber).text
    decreases |line|
  {
    if line != [] {
      var f := FillLine(queue, line[..|line| - 1], lineNumber);
      FillLineAvoids(queue, line[..|line| - 1], lineNumber, x);
      if line[|line| - 1] == '_' && f.queue != [] {
        FillLineConserves(queue, line[..|line| - 1], lineNumber);
        assert f.queue[0] == queue[|queue| - |f.queue|];
      }
    }
  }

  /** The state `processChordQueue` carries from line to line. */
  datatype QueueState = QueueState(queue: seq<string>, queueLineStart: int, output: seq<string>, warnings: seq<Warning>)

  /** The outer loop of `processChordQueue` over the first `|lines|` lines: a directive
      line replaces the queue (warning if chords were left) and is dropped; any
      other line is filled and output. */
  function QueueLines(lines: seq<string>): QueueState
    decreases |lines|
  {
    if lines == [] then QueueState([], -1, [], [])
    else
      var i := |lines| - 1;
      var st := QueueLines(lines[..i]);
      match ParseQueueDirective(lines[i])
      case Some(chords) =>
        var w := if st.queue != [] then [Warning(st.queueLineStart + 1, PreviousQueueUnconsumed(|st.queue|))] else [];
        QueueState(chords, i, st.output, st.warnings + w)
      case None =>
        var f := FillLine(st.queue, lines[i], i + 1);
        QueueState(f.queue, st.queueLineStart, st.output + [f.text], st.warnings + f.warnings)
  }

  /** One more line through the outer loop: a directive line. */
  lemma QueueLinesDirective(lines: seq<string>, i: nat, chords: seq<string>)
    requires i < |lines| && ParseQueueDirective(lines[i]) == Some(chords)
    ensures var st := QueueLines(lines[..i]);
      var w := if st.queue != [] then [Warning(st.queueLineStart + 1, PreviousQueueUnconsumed(|st.queue|))] else [];
      QueueLines(lines[..i + 1]) == QueueState(chords, i, st.output, st.warnings + w)
  {
    var prefix := lines[..i + 1];
    assert prefix[..i] == lines[..i] && prefix[i] == lines[i] && |prefix| - 1 == i;
  }

  /** One more line through the outer loop: a line that is filled. */
  lemma QueueLinesFilled(lines: seq<string>, i: nat)
    requires i < |lines| && ParseQueueDirective(lines[i]).None?
    ensures var st := QueueLines(lines[..i]);
      var f := FillLine(st.queue, lines[i], i + 1);
      QueueLines(lines[..i + 1]) == QueueState(f.queue, st.queueLineStart, st.output + [f.text], st.warnings + f.warnings)
  {
    var prefix := lines[..i + 1];
    assert prefix[..i] == lines[..i] && prefix[i] == lines[i] && |prefix| - 1 == i;
  }

  /** A non-empty queue always has the line it was loaded on, among the lines read. */
  lemma {:induction false} QueueLinesOrigin(lines: seq<string>)
    ensures var st := QueueLines(lines);
      && -1 <= st.queueLineStart < |lines|
      && (st.queue != [] ==> st.queueLineStart >= 0)
  {
    if lines != [] {
      var i := |lines| - 1;
      var prev := QueueLines(lines[..i]);
      QueueLinesOrigin(lines[..i]);
      assert lines[..i + 1] == lines;
      match ParseQueueDirective(lines[i]) {
      case Some(chords) =>
        QueueLinesDirective(lines, i, chords);
      case None =>
        QueueLinesFilled(lines, i);
        FillLineConserves(prev.queue, lines[i], i + 1);
      }
    }
  }

  /** Every warning points at a line of the input. */
  lemma {:induction false} QueueLinesWarningLines(lines: seq<string>)
    ensures var st := QueueLines(lines);
      forall i :: 0 <= i < |st.warnings| ==> 1 <= st.warnings[i].line <= |lines|
  {
    if lines != [] {
      var i := |lines| - 1;
      var prev := QueueLines(lines[..i]);
      QueueLinesWarningLines(lines[..i]);
      QueueLinesOrigin(lines[..i]);
      assert lines[..i + 1] == lines;
      match ParseQueueDirective(lines[i]) {
      case Some(chords) =>
        QueueLinesDirective(lines, i, chords);
      case None =>
        var f := FillLine(prev.queue, lines[i], i + 1);
        QueueLinesFilled(lines, i);
        FillLineConserves(prev.queue, lines[i], i + 1);
        assert QueueLines(lines).warnings == prev.warnings + f.warnings;
      }
    }
  }

  /** Every line but a directive line is output. */
  lemma {:induction false} QueueLinesOutputCount(lines: seq<string>)
    ensures |QueueLines(lines).output| == |lines| - DirectiveCount(lines)
  {
    if lines != [] {
      var i := |lines| - 1;
      QueueLinesOutputCount(lines[..i]);
      assert lines[..i + 1] == lines;
      assert DirectiveCount(lines) == DirectiveCount(lines[..i]) + (if ParseQueueDirective(lines[i]).Some? then 1 else 0);
      match ParseQueueDirective(lines[i]) {
      case Some(chords) =>
        QueueLinesDirective(lines, i, chords);
      case None =>
        QueueLinesFilled(lines, i);
      }
    }
  }

  /** The number of directive lines. */
  function DirectiveCount(lines: seq<string>): nat {
    if lines == [] then 0
    else DirectiveCount(lines[..|lines| - 1]) + (if ParseQueueDirective(lines[|lines| - 1]).Some? then 1 else 0)
  }

  /** Every chord a queue holds came from a directive, so it has no line break,
      and a filled line gains none. */
  lemma {:induction false} QueueLinesOneLine(lines: seq<string>)
    requires forall i :: 0 <= i < |lines| ==> '\n' !in lines[i]
    ensures IsChordList(QueueLines(lines).queue)
    ensures forall i :: 0 <= i < |QueueLines(lines).output| ==> '\n' !in QueueLines(lines).output[i]
  {
    if lines != [] {
      var i := |lines| - 1;
      var st := QueueLines(lines[..i]);
      QueueLinesOneLine(lines[..i]);
      ParseQueueDirectiveFinds(lines[i]);
      assert lines[..i + 1] == lines;
      if ParseQueueDirective(lines[i]).Some? {
        QueueLinesDirective(lines, i, ParseQueueDirective(lines[i]).value);
      } else {
        QueueLinesFilled(lines, i);
        FillLineConserves(st.queue, lines[i], i + 1);
        FillLineAvoids(st.queue, lines[i], i + 1, '\n');
        var f := FillLine(st.queue, lines[i], i + 1);
        assert forall k :: 0 <= k < |f.queue| ==> f.queue[k] == st.queue[|st.queue| - |f.queue| + k];
      }
    }
  }

  /** The queue pass never reports a missing key. */
  lemma {:induction false} QueueLinesKinds(lines: seq<string>)
    ensures forall i :: 0 <= i < |QueueLines(lines).warnings| ==> QueueLines(lines).warnings[i].kind != NoKey
  {
    if lines != [] {
      var i := |lines| - 1;
      var prev := QueueLines(lines[..i]);
      QueueLinesKinds(lines[..i]);
      FillLineConserves(prev.queue, lines[i], i + 1);
    }
  }

  /** The warning for chords still queued when the input ends. */
  function LeftoverWarnings(st: QueueState): seq<Warning> {
    if st.queue != [] then [Warning(st.queueLineStart + 1, EndOfInputUnconsumed(|st.queue|))] else []
  }

  /** What `processChordQueue` returns for `text`. */
  function QueuePass(text: string): ProcessingResult {
    var st := QueueLines(Split(text, '\n'));
    ProcessingResult(Join(st.output, '\n'), st.warnings + LeftoverWarnings(st))
  }

  /** The output's lines are exactly the filled lines: none of them gained a line
      break. (With no line output at all, the output is the empty string.) */
  lemma QueuePassLines(text: string)
    ensures var st := QueueLines(Split(text, '\n'));
      && (st.output != [] ==> Split(QueuePass(text).output, '\n') == st.output)
      && (st.output == [] ==> QueuePass(text).output == [])
  {
    var lines := Split(text, '\n');
    SplitPiecesLackSeparator(text, '\n');
    QueueLinesOneLine(lines);
    var st := QueueLines(lines);
    if st.output != [] {
      SplitJoin(st.output, '\n');
    }
  }

  /** A document without `_` and without `{` passes through unchanged and without warnings. */
  lemma QueuePassIdentity(text: string)
    requires '_' !in text && '{' !in text
    ensures QueuePass(text) == ProcessingResult(text, [])
  {
    var lines := Split(text, '\n');
    SplitWithin(text, '\n');
    QueueLinesIdentity(lines);
    JoinSplit(text, '\n');
  }

  /** Lines without `_` and `{` are output as they are, and nothing is queued or warned. */
  lemma {:induction false} QueueLinesIdentity(lines: seq<string>)
    requires forall i :: 0 <= i < |lines| ==> '_' !in lines[i] && '{' !in lines[i]
    ensures QueueLines(lines) == QueueState([], -1, lines, [])
  {
    if lines != [] {
      var i := |lines| - 1;
      QueueLinesIdentity(lines[..i]);
      NoDirectiveWithoutBrace(lines[i]);
      FillLineNoUnderscore([], lines[i], i + 1);
      assert lines[..i] + [lines[i]] == lines;
    }
  }

  /** A line without `{` is never a directive line. */
  lemma NoDirectiveWithoutBrace(line: string)
    requires '{' !in line
    ensures ParseQueueDirective(line).None?
  {
    SearchWithoutBrace(line);
  }

  /** The pass returns the output and warnings of the state the lines lead to,
      then a warning for a queue still holding chords. */
  lemma QueuePassOf(text: string, st: QueueState)
    requires QueueLines(Split(text, '\n')) == st
    ensures QueuePass(text) == ProcessingResult(Join(st.output, '\n'), st.warnings + LeftoverWarnings(st))
  {
  }

  /** Chords loaded by the directive lines. */
  function Declared(lines: seq<string>): nat {
    if lines == [] then 0
    else
      var last := lines[|lines| - 1];
      Declared(lines[..|lines| - 1]) + (match ParseQueueDirective(last) case Some(chords) => |chords| case None => 0)
  }

  /** The `_` characters on the lines that are not directive lines. */
  function Placeholders(lines: seq<string>): nat {
    if lines == [] then 0
    else
      var last := lines[|lines| - 1];
      Placeholders(lines[..|lines| - 1]) + (if ParseQueueDirective(last).None? then Count(last, '_') else 0)
  }

  /** How many warnings report an `_` met with an empty queue. */
  function EmptyQueueWarnings(ws: seq<Warning>): nat {
    if ws == [] then 0
    else EmptyQueueWarnings(ws[..|ws| - 1]) + (if ws[|ws| - 1].kind == UnderscoreWithEmptyQueue then 1 else 0)
  }

  /** How many chords the warnings report as never used. */
  function Unconsumed(ws: seq<Warning>): nat {
    if ws == [] then 0
    else
      Unconsumed(ws[..|ws| - 1]) +
      (match ws[|ws| - 1].kind
       case PreviousQueueUnconsumed(n) => n
       case EndOfInputUnconsumed(n) => n
       case _ => 0)
  }

  lemma {:induction false} WarningTotalsAppend(a: seq<Warning>, b: seq<Warning>)
    ensures EmptyQueueWarnings(a + b) == EmptyQueueWarnings(a) + EmptyQueueWarnings(b)
    ensures Unconsumed(a + b) == Unconsumed(a) + Unconsumed(b)
    decreases |b|
  {
    if b == [] {
      assert a + b == a;
    } else {
      var init := b[..|b| - 1];
      WarningTotalsAppend(a, init);
      assert (a + b)[..|a + b| - 1] == a + init;
      assert (a + b)[|a + b| - 1] == b[|b| - 1];
    }
  }

  /** The warnings of a filled line each count one empty-queue `_` and no chord. */
  lemma {:induction false} FillWarningTotals(ws: seq<Warning>, lineNumber: int)
    requires forall i :: 0 <= i < |ws| ==> ws[i] == Warning(lineNumber, UnderscoreWithEmptyQueue)
    ensures EmptyQueueWarnings(ws) == |ws| && Unconsumed(ws) == 0
    decreases |ws|
  {
    if ws != [] {
      FillWarningTotals(ws[..|ws| - 1], lineNumber);
    }
  }

  /** Conservation of chords over the lines read so far: every chord a directive
      declared has been taken by exactly one `_`, or reported once as unused by a
      replaced queue, or is still queued; an `_` that took no chord warned. */
  lemma {:induction false} QueueLinesConserve(lines: seq<string>)
    ensures var st := QueueLines(lines);
      Declared(lines) + EmptyQueueWarnings(st.warnings) == Placeholders(lines) + Unconsumed(st.warnings) + |st.queue|
  {
    if lines != [] {
      var i := |lines| - 1;
      var init := lines[..i];
      var prev := QueueLines(init);
      QueueLinesConserve(init);
      assert lines[..i + 1] == lines;
      match ParseQueueDirective(lines[i]) {
      case Some(chords) =>
        QueueLinesDirective(lines, i, chords);
        assert Declared(lines) == Declared(init) + |chords|;
        assert Placeholders(lines) == Placeholders(init);
        ConserveDirective(prev, chords, Declared(init), Placeholders(init));
      case None =>
        QueueLinesFilled(lines, i);
        assert Declared(lines) == Declared(init);
        assert Placeholders(lines) == Placeholders(init) + Count(lines[i], '_');
        ConserveFilled(prev, lines[i], i + 1, Declared(init), Placeholders(init));
      }
    }
  }

  /** The conservation step of a directive line. */
  lemma ConserveDirective(prev: QueueState, chords: seq<string>, declared: nat, placeholders: nat)
    requires declared + EmptyQueueWarnings(prev.warnings) == placeholders + Unconsumed(prev.warnings) + |prev.queue|
    ensures var w := if prev.queue != [] then [Warning(prev.queueLineStart + 1, PreviousQueueUnconsumed(|prev.queue|))] else [];
      declared + |chords| + EmptyQueueWarnings(prev.warnings + w) == placeholders + Unconsumed(prev.warnings + w) + |chords|
  {
    var w := if prev.queue != [] then [Warning(prev.queueLineStart + 1, PreviousQueueUnconsumed(|prev.queue|))] else [];
    WarningTotalsAppend(prev.warnings, w);
    assert w != [] ==> w[..0] == [];
    assert EmptyQueueWarnings(w) == 0 && Unconsumed(w) == |prev.queue|;
  }

  /** The conservation step of a filled line. */
  lemma ConserveFilled(prev: QueueState, line: string, lineNumber: int, declared: nat, placeholders: nat)
    requires declared + EmptyQueueWarnings(prev.warnings) == placeholders + Unconsumed(prev.warnings) + |prev.queue|
    ensures var f := FillLine(prev.queue, line, lineNumber);
      declared + EmptyQueueWarnings(prev.warnings + f.warnings) ==
        placeholders + Count(line, '_') + Unconsumed(prev.warnings + f.warnings) + |f.queue|
  {
    var f := FillLine(prev.queue, line, lineNumber);
    FillLineConserves(prev.queue, line, lineNumber);
    FillWarningTotals(f.warnings, lineNumber);
    WarningTotalsAppend(prev.warnings, f.warnings);
  }

  /** Conservation over the whole document: the chords declared, plus the `_`
      that found the queue empty, are the `_` placeholders plus the chords the
      warnings report unused (replaced queues and the queue left at the end). */
  lemma QueuePassConserves(text: string)
    ensures var lines := Split(text, '\n');
      var r := QueuePass(text);
      Declared(lines) + EmptyQueueWarnings(r.warnings) == Placeholders(lines) + Unconsumed(r.warnings)
  {
    var lines := Split(text, '\n');
    var st := QueueLines(lines);
    QueueLinesConserve(lines);
    QueuePassOf(text, st);
    ConserveLeftover(st, Declared(lines), Placeholders(lines));
  }

  /** The conservation step of the end of input: the chords still queued are reported. */
  lemma ConserveLeftover(st: QueueState, declared: nat, placeholders: nat)
    requires declared + EmptyQueueWarnings(st.warnings) == placeholders + Unconsumed(st.warnings) + |st.queue|
    ensures var all := st.warnings + LeftoverWarnings(st);
      declared + EmptyQueueWarnings(all) == placeholders + Unconsumed(all)
  {
    var left := LeftoverWarnings(st);
    WarningTotalsAppend(st.warnings, left);
    assert left != [] ==> left[..0] == [];
    assert EmptyQueueWarnings(left) == 0 && Unconsumed(left) == |st.queue|;
  }

  /** `processChordQueue`, loop for loop; the character loop is `FillUnderscores`. */
  method ProcessChordQueue(text: string) returns (r: ProcessingResult)
    ensures r == QueuePass(text)
  {
    var lines := Split(text, '\n');
    var output: seq<string> := [];
    var warnings: seq<Warning> := [];
    var queue: seq<string> := [];
    var queueLineStart := -1;
    for i := 0 to |lines|
      invariant QueueLines(lines[..i]) == QueueState(queue, queueLineStart, output, warnings)
    {
      queue, queueLineStart, output, warnings := ReadLine(lines, i, queue, queueLineStart, output, warnings);
    }
    assert lines[..|lines|] == lines;
    ghost var st := QueueState(queue, queueLineStart, output, warnings);
    QueuePassOf(text, st);
    if |queue| > 0 {
      warnings := warnings + [Warning(queueLineStart + 1, EndOfInputUnconsumed(|queue|))];
    }
    assert warnings == st.warnings + LeftoverWarnings(st);
    r := ProcessingResult(Join(output, '\n'), warnings);
  }

  /** The body of the outer loop of `processChordQueue`, for line `i`. */
  method ReadLine(lines: seq<string>, i: nat, queue: seq<string>, queueLineStart: int, output: seq<string>, warnings: seq<Warning>)
    returns (queue': seq<string>, queueLineStart': int, output': seq<string>, warnings': seq<Warning>)
    requires i < |lines|
    requires QueueLines(lines[..i]) == QueueState(queue, queueLineStart, output, warnings)
    ensures QueueLines(lines[..i + 1]) == QueueState(queue', queueLineStart', output', warnings')
  {
    var line := lines[i];
    var newQueue := ParseQueueDirective(line);
    queue', queueLineStart', output', warnings' := queue, queueLineStart, output, warnings;
    if newQueue.Some? {
      QueueLinesDirective(lines, i, newQueue.value);
      if |queue| > 0 {
        warnings' := warnings + [Warning(queueLineStart + 1, PreviousQueueUnconsumed(|queue|))];
      } else {
        assert warnings + [] == warnings;
      }
      queue' := newQueue.value;
      queueLineStart' := i;
    } else {
      QueueLinesFilled(lines, i);
      var processedLine, lineWarnings;
      processedLine, queue', lineWarnings := FillUnderscores(queue, line, i + 1);
      warnings' := warnings + lineWarnings;
      output' := output + [processedLine];
    }
  }

  /** The character loop of `processChordQueue` over one line. */
  method FillUnderscores(queue: seq<string>, line: string, lineNumber: int) returns (text: string, rest: seq<string>, warnings: seq<Warning>)
    ensures Fill(text, rest, warnings) == FillLine(queue, line, lineNumber)
  {
    text, rest, warnings := "", queue, [];
    for j := 0 to |line|
      invariant Fill(text, rest, warnings) == FillLine(queue, line[..j], lineNumber)
    {
      assert line[..j + 1][..j] == line[..j];
      if line[j] == '_' {
        if |rest| == 0 {
          warnings := warnings + [Warning(lineNumber, UnderscoreWithEmptyQueue)];
          text := text + "_";
        } else {
          var chord := rest[0];
          rest := rest[1..];
          text := text + "[" + chord + "]";
        }
      } else {
        text := text + [line[j]];
      }
    }
    assert line[..|line|] == line;
  }
}
