/**
  * The whole-document preprocessor of src/processor.ts: find the song's key,
  * run the chord queue pass, then rewrite every chord in brackets that holds a
  * `/` or looks like a Nashville number, on every line that is not a comment.
  */
module Processor {
  import opened Strings
  import opened Patterns
  import opened Nashville
  import opened ChordQueue

  /** `extractKey`: the key name of the leftmost `{key: X}` directive in the text. */
  function ExtractKey(text: string): Option<string> {
    match Search(KeyDirectiveAt, text, 0)
    case None => None
    case Some(found) => Some(found.capture.group)
  }

  /** A key is found exactly when `{key:` ... `}` occurs somewhere, and it is a key name. */
  lemma ExtractKeyFinds(text: string)
    ensures ExtractKey(text).Some? <==> exists k :: 0 <= k <= |text| && KeyDirectiveAt(text[k..]).Some?
    ensures ExtractKey(text).Some? ==> IsKeyName(ExtractKey(text).value)
  {
    SearchFinds(KeyDirectiveAt, text, 0);
  }

  /** The first `{key: X}` directive, after text without `{`, gives `X`. */
  lemma ExtractKeyRender(prefix: string, w: string, x: string, rest: string)
    requires '{' !in prefix && AllWhitespace(w) && IsKeyName(x)
    ensures ExtractKey(prefix + "{key:" + w + x + "}" + rest) == Some(x)
  {
    var text := prefix + "{key:" + w + x + "}" + rest;
    forall k | 0 <= k < |prefix|
      ensures KeyDirectiveAt(text[k..]).None?
    {
      assert text[k..][0] == prefix[k];
      assert prefix[k] in prefix;
      DirectivesNeedBrace(text[k..]);
    }
    assert text[|prefix|..] == "{key:" + w + x + "}" + rest;
    KeyDirectiveComplete(text[|prefix|..], w, x, rest);
    SearchFinds(KeyDirectiveAt, text, 0);
    var r := Search(KeyDirectiveAt, text, 0);
    assert r.Some? && r.value.at == |prefix|;
  }

  /** The key one line contributes: none from a comment line. */
  function KeyOfLine(line: string): Option<string> {
    if IsCommentLine(line) then None else ExtractKey(line)
  }

  /** The key of the first line, comment lines aside, that holds a key directive. */
  function FirstKey(lines: seq<string>): Option<string> {
    FirstOf(KeyOfLine, lines)
  }

  /** The first value `f` gives on the lines, in order. */
  function FirstOf<T>(f: string -> Option<T>, lines: seq<string>): Option<T> {
    if lines == [] then None
    else match f(lines[0])
      case Some(v) => Some(v)
      case None => FirstOf(f, lines[1..])
  }

  /** `FirstKey` finds `key` exactly when some line gives `key` and no line before
      it gives any key. */
  lemma FirstKeyFinds(lines: seq<string>, key: string)
    ensures FirstKey(lines) == Some(key) <==> exists i :: FirstAt(KeyOfLine, lines, i, key)
  {
    if FirstKey(lines) == Some(key) {
      var i := FirstOfLocated(KeyOfLine, lines, key);
    }
    if exists i :: FirstAt(KeyOfLine, lines, i, key) {
      var i :| FirstAt(KeyOfLine, lines, i, key);
      FirstOfFromLine(KeyOfLine, lines, i, key);
    }
  }

  /** Line `i` gives `v`, and no line before it gives anything. */
  ghost predicate FirstAt<T>(f: string -> Option<T>, lines: seq<string>, i: int, v: T) {
    && 0 <= i < |lines| && f(lines[i]) == Some(v)
    && forall j :: 0 <= j < i ==> f(lines[j]).None?
  }

  lemma {:induction false} FirstOfLocated<T>(f: string -> Option<T>, lines: seq<string>, v: T) returns (i: int)
    requires FirstOf(f, lines) == Some(v)
    ensures FirstAt(f, lines, i, v)
  {
    if f(lines[0]).Some? {
      i := 0;
    } else {
      var k := FirstOfLocated(f, lines[1..], v);
      i := k + 1;
      assert lines[i] == lines[1..][k];
      forall j | 1 <= j < i
        ensures f(lines[j]).None?
      {
        assert lines[j] == lines[1..][j - 1];
      }
    }
  }

  lemma {:induction false} FirstOfFromLine<T>(f: string -> Option<T>, lines: seq<string>, i: int, v: T)
    requires FirstAt(f, lines, i, v)
    ensures FirstOf(f, lines) == Some(v)
    decreases i
  {
    if i > 0 {
      forall j | 0 <= j < i - 1
        ensures f(lines[1..][j]).None?
      {
        assert lines[1..][j] == lines[j + 1];
      }
      FirstOfFromLine(f, lines[1..], i - 1, v);
    }
  }

  /** No line of the text holds a key directive when the text has no `{`. */
  lemma FirstKeyWithoutBrace(text: string)
    requires '{' !in text
    ensures FirstKey(Split(text, '\n')) == None
  {
    var lines := Split(text, '\n');
    SplitWithin(text, '\n');
    forall i | 0 <= i < |lines|
      ensures KeyOfLine(lines[i]) == None
    {
      assert '{' !in lines[i];
      SearchWithoutBrace(lines[i]);
    }
    FirstOfNone(KeyOfLine, lines);
  }

  lemma {:induction false} FirstOfNone<T>(f: string -> Option<T>, lines: seq<string>)
    requires forall i :: 0 <= i < |lines| ==> f(lines[i]) == None
    ensures FirstOf(f, lines) == None
  {
    if lines != [] {
      assert forall i :: 0 <= i < |lines[1..]| ==> lines[1..][i] == lines[i + 1];
      FirstOfNone(f, lines[1..]);
    }
  }

  /** `extractKeyIgnoringComments`: the lines in order, comment lines skipped,
      stopping at the first line that holds a key directive. */
  method ExtractKeyIgnoringComments(text: string) returns (key: Option<string>)
    ensures key == FirstKey(Split(text, '\n'))
  {
    var lines := Split(text, '\n');
    for i := 0 to |lines|
      invariant FirstKey(lines) == FirstKey(lines[i..])
    {
      var line := lines[i];
      assert lines[i..][0] == line && lines[i..][1..] == lines[i + 1..];
      if IsCommentLine(line) {
        continue;
      }
      var found := ExtractKey(line);
      if found.Some? {
        return found;
      }
    }
    return None;
  }

  /** The `replace` callback over one line: every bracketed chord that holds a
      `/` or looks like a Nashville number is converted in the key. */
  function ReplaceBrackets(line: string, key: string): string {
    ReplaceBracketed(line, c => RewriteChord(c, Some(key)))
  }

  /** With a key the tables do not know, the line is unchanged. */
  lemma ReplaceBracketsUnknownKey(line: string, key: string)
    requires PitchClass(key) == -1
    ensures ReplaceBrackets(line, key) == line
  {
    var rewrite := c => RewriteChord(c, Some(key));
    forall c | c in BracketContents(line)
      ensures rewrite(c) == c
    {
      RewriteUnknownKey(c, key);
    }
    ReplaceBracketedFixed(line, rewrite);
  }

  /** Chords with no `/` that do not look like Nashville numbers are kept as written. */
  lemma ReplaceBracketsPlainChords(line: string, key: string)
    requires forall c :: c in BracketContents(line) ==> '/' !in c && !IsNashvilleNumber(c)
    ensures ReplaceBrackets(line, key) == line
  {
    var rewrite := c => RewriteChord(c, Some(key));
    forall c | c in BracketContents(line)
      ensures rewrite(c) == c
    {
    }
    ReplaceBracketedFixed(line, rewrite);
  }

  /** A bracket at the front of the line is replaced by its rewritten chord, and
      the scan resumes after its `]`. */
  lemma ReplaceBracketsBracket(chord: string, rest: string, key: string)
    requires chord != [] && ']' !in chord
    ensures ReplaceBrackets("[" + chord + "]" + rest, key) ==
      "[" + RewriteChord(chord, Some(key)) + "]" + ReplaceBrackets(rest, key)
  {
    var line := "[" + chord + "]" + rest;
    BracketComplete(line, chord, rest);
    assert line[|chord| + 2..] == rest;
  }

  /** The rewritten line is made of the line's characters and note characters:
      in particular it gains no line break. */
  lemma ReplaceBracketsChars(line: string, key: string)
    ensures Within(ReplaceBrackets(line, key), line + NoteChars)
  {
    var rewrite := c => RewriteChord(c, Some(key));
    forall c
      ensures Within(rewrite(c), c + NoteChars)
    {
      RewriteChordChars(c, Some(key));
    }
    ReplaceBracketedWithin(line, rewrite, NoteChars);
  }

  /** The callback `map` applies to each line after the queue pass: comment lines
      are kept, every other line has its chords rewritten. */
  function ConvertLine(line: string, key: string): string {
    if IsCommentLine(line) then line else ReplaceBrackets(line, key)
  }

  function ConvertLines(lines: seq<string>, key: string): seq<string> {
    seq(|lines|, i requires 0 <= i < |lines| => ConvertLine(lines[i], key))
  }

  /** What `processChordNoob` returns for `text`. */
  function ChordNoob(text: string): ProcessingResult {
    var key := FirstKey(Split(text, '\n'));
    var queued := QueuePass(text);
    var warnings := (if key.None? then [Warning(1, NoKey)] else []) + queued.warnings;
    match key
    case None => ProcessingResult(queued.output, warnings)
    case Some(k) => ProcessingResult(Join(ConvertLines(Split(queued.output, '\n'), k), '\n'), warnings)
  }

  /** `processChordNoob`. */
  method ProcessChordNoob(text: string) returns (r: ProcessingResult)
    ensures r == ChordNoob(text)
  {
    var warnings: seq<Warning> := [];
    var key := ExtractKeyIgnoringComments(text);
    ghost var lines := Split(text, '\n');
    assert key == FirstKey(lines);
    if key.None? {
      warnings := warnings + [Warning(1, NoKey)];
    }
    var queued := ProcessChordQueue(text);
    warnings := warnings + queued.warnings;
    if key.None? {
      return ProcessingResult(queued.output, warnings);
    }
    var processedLines := ConvertLines(Split(queued.output, '\n'), key.value);
    return ProcessingResult(Join(processedLines, '\n'), warnings);
  }

  /** The missing-key warning is reported exactly when no key is found; it is
      then the only warning added, at line 1 and in front of the queue pass's
      warnings, which follow in their own order. With a key the warnings are the
      queue pass's. */
  lemma ChordNoobWarnings(text: string)
    ensures var r, queued, noKey := ChordNoob(text), QueuePass(text), FirstKey(Split(text, '\n')).None?;
      && (Warning(1, NoKey) in r.warnings <==> noKey)
      && |r.warnings| == |queued.warnings| + (if noKey then 1 else 0)
      && (noKey ==> r.warnings[0] == Warning(1, NoKey))
      && r.warnings[|r.warnings| - |queued.warnings|..] == queued.warnings
      && (!noKey ==> r.warnings == queued.warnings)
  {
    var st := QueueLines(Split(text, '\n'));
    QueueLinesKinds(Split(text, '\n'));
    var queued := QueuePass(text);
    assert forall i :: 0 <= i < |queued.warnings| ==> queued.warnings[i].kind != NoKey;
  }

  /** Without a key, the output is what the queue pass produced. */
  lemma ChordNoobWithoutKey(text: string)
    requires FirstKey(Split(text, '\n')).None?
    ensures ChordNoob(text).output == QueuePass(text).output
  {
  }

  /** With a key, the output's lines are the queue pass's lines, each converted
      on its own: conversion never adds or removes a line break. */
  lemma ChordNoobLines(text: string)
    requires FirstKey(Split(text, '\n')).Some?
    ensures Split(ChordNoob(text).output, '\n') ==
      ConvertLines(Split(QueuePass(text).output, '\n'), FirstKey(Split(text, '\n')).value)
  {
    var key := FirstKey(Split(text, '\n')).value;
    var before := Split(QueuePass(text).output, '\n');
    var converted := ConvertLines(before, key);
    SplitPiecesLackSeparator(QueuePass(text).output, '\n');
    forall i | 0 <= i < |converted|
      ensures '\n' !in converted[i]
    {
      ReplaceBracketsChars(before[i], key);
    }
    SplitJoin(converted, '\n');
    assert ChordNoob(text).output == Join(converted, '\n');
  }

  /** Comment lines (after the queue pass) come through the conversion unchanged. */
  lemma ChordNoobCommentLines(text: string, i: int)
    requires FirstKey(Split(text, '\n')).Some?
    requires 0 <= i < |Split(QueuePass(text).output, '\n')|
    requires IsCommentLine(Split(QueuePass(text).output, '\n')[i])
    ensures i < |Split(ChordNoob(text).output, '\n')|
    ensures Split(ChordNoob(text).output, '\n')[i] == Split(QueuePass(text).output, '\n')[i]
  {
    ChordNoobLines(text);
  }

  /** A key the tables do not know (`{key: E#}`, say) changes no chord. */
  lemma ChordNoobUnknownKey(text: string)
    requires FirstKey(Split(text, '\n')).Some? && PitchClass(FirstKey(Split(text, '\n')).value) == -1
    ensures ChordNoob(text).output == QueuePass(text).output
  {
    var key := FirstKey(Split(text, '\n')).value;
    var before := Split(QueuePass(text).output, '\n');
    forall i | 0 <= i < |before|
      ensures ConvertLine(before[i], key) == before[i]
    {
      ReplaceBracketsUnknownKey(before[i], key);
    }
    assert ConvertLines(before, key) == before;
    JoinSplit(QueuePass(text).output, '\n');
  }

  /** A document with no directive and no `_` comes out unchanged, with only the
      missing-key warning. */
  lemma ChordNoobPlainText(text: string)
    requires '{' !in text && '_' !in text
    ensures ChordNoob(text) == ProcessingResult(text, [Warning(1, NoKey)])
  {
    FirstKeyWithoutBrace(text);
    QueuePassIdentity(text);
  }
}
