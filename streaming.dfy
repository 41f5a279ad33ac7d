/**
  * The line-at-a-time parser of src/streaming.ts. One regular expression
  * splits a line into tokens (a key directive, a queue directive, a bracketed
  * chord, an `_`, a `#` comment, any other character); the parser keeps the
  * song's key, the chord queue and the warnings from one line to the next.
  */
module Streaming {
  import opened Strings
  import opened Patterns
  import opened Nashville
  import opened ChordQueue

  /** What the tokenizer finds in a line. */
  datatype Token =
    | Key(name: string)
    | Queue(chords: seq<string>)
    | Chord(chord: string)
    | Underscore
    | Text(text: string)
    | Comment(text: string)

  /** A token and the number of characters its match consumed. */
  datatype Lexeme = Lexeme(token: Token, length: nat)

  /** The first alternative of
      `\{key:\s*([A-G][b#]?)\}|\{q:\s*(.*?)\}|\[([^\]]+)\]|_|#.*?$|.`
      that matches at the start of `s`, as `tokenizeLine` classifies it. A queue
      directive with an empty body has a falsy capture and is kept as text. A `#`
      consumes the rest of the line: as text when `#.*?$` matched more than the
      `#` itself, as a comment otherwise. `None` exactly when `s` starts with a
      line terminator, which no alternative matches. */
  function MatchAt(s: string): (r: Option<Lexeme>)
    requires s != []
    ensures r.None? <==> IsLineTerminator(s[0])
    ensures r.Some? ==> 1 <= r.value.length <= |s|
    ensures r.Some? && r.value.token.Comment? ==> r.value.length == |s|
  {
    match KeyDirectiveAt(s)
    case Some(m) => Some(Lexeme(Key(m.group), m.length))
    case None =>
      match QueueDirectiveAt(s)
      case Some(m) =>
        if m.group != [] then Some(Lexeme(Queue(BracketContents(m.group)), m.length))
        else Some(Lexeme(Text(s[..m.length]), m.length))
      case None =>
        match BracketAt(s)
        case Some(m) => Some(Lexeme(Chord(m.group), m.length))
        case None =>
          if s[0] == '_' then Some(Lexeme(Underscore, 1))
          else if s[0] == '#' then
            if |s| > 1 && NoLineTerminators(s[1..]) then Some(Lexeme(Text(s), |s|))
            else Some(Lexeme(Comment(s), |s|))
          else if IsLineTerminator(s[0]) then None
          else Some(Lexeme(Text([s[0]]), 1))
  }

  /** The tokens `regex.exec` finds in `s`: a character no alternative matches
      is skipped. */
  function Tokens(s: string): seq<Token>
    decreases |s|
  {
    if s == [] then []
    else match MatchAt(s)
      case None => Tokens(s[1..])
      case Some(lexeme) => [lexeme.token] + Tokens(s[lexeme.length..])
  }

  lemma TokensStep(s: string)
    requires s != []
    ensures MatchAt(s).None? ==> Tokens(s) == Tokens(s[1..])
    ensures MatchAt(s).Some? ==> Tokens(s) == [MatchAt(s).value.token] + Tokens(s[MatchAt(s).value.length..])
  {
  }

  lemma AppendAssociates<T>(a: seq<T>, b: seq<T>, c: seq<T>)
    ensures (a + b) + c == a + (b + c)
  {
  }

  /** The parser's fields. */
  datatype ParserState = ParserState(
    key: Option<string>,
    queue: seq<string>,
    queueLineStart: int,
    currentLineNumber: int,
    warnings: seq<Warning>)

  const Initial := ParserState(None, [], -1, 0, [])

  /** A state and the text produced so far. */
  datatype Emitted = Emitted(state: ParserState, output: string)

  /** One case of the `switch` in `processLine`. */
  function StepToken(st: ParserState, t: Token): Emitted {
    match t
    case Key(name) =>
      Emitted(st.(key := if st.key.None? then Some(name) else st.key), "{key: " + name + "}")
    case Queue(chords) =>
      var w := if |st.queue| > 0 then [Warning(st.queueLineStart, PreviousQueueUnconsumed(|st.queue|))] else [];
      Emitted(st.(queue := chords, queueLineStart := st.currentLineNumber, warnings := st.warnings + w), "")
    case Underscore =>
      if |st.queue| == 0 then
        Emitted(st.(warnings := st.warnings + [Warning(st.currentLineNumber, UnderscoreWithEmptyQueue)]), "_")
      else
        Emitted(st.(queue := st.queue[1..]), "[" + RewriteChord(st.queue[0], st.key) + "]")
    case Chord(chord) => Emitted(st, "[" + RewriteChord(chord, st.key) + "]")
    case Text(text) => Emitted(st, text)
    case Comment(text) => Emitted(st, text)
  }

  /** The `for` loop of `processLine` over the tokens, appending to `output`. */
  function RunTokens(st: ParserState, tokens: seq<Token>, output: string): Emitted
    decreases |tokens|
  {
    if tokens == [] then Emitted(st, output)
    else
      var e := StepToken(st, tokens[0]);
      RunTokens(e.state, tokens[1..], output + e.output)
  }

  /** What `processLine` does: count the line, return a comment line as it is,
      otherwise run its tokens. */
  function ProcessLineSpec(st: ParserState, line: string): Emitted {
    var counted := st.(currentLineNumber := st.currentLineNumber + 1);
    if IsCommentLine(line) then Emitted(counted, line)
    else RunTokens(counted, Tokens(line), "")
  }

  /** What `finalize` does: warn about chords still queued. The queue is not
      emptied. */
  function FinalizeSpec(st: ParserState): ParserState {
    var w := if |st.queue| > 0 then [Warning(st.queueLineStart, EndOfInputUnconsumed(|st.queue|))] else [];
    st.(warnings := st.warnings + w)
  }

  /** Warnings that never report a missing key. */
  predicate NoMissingKey(warnings: seq<Warning>) {
    forall i :: 0 <= i < |warnings| ==> warnings[i].kind != NoKey
  }

  /** Warnings and the queue point at lines already read, and no warning
      reports a missing key. */
  ghost predicate Consistent(st: ParserState) {
    && st.currentLineNumber >= 0
    && (|st.queue| > 0 ==> 1 <= st.queueLineStart <= st.currentLineNumber)
    && (forall i :: 0 <= i < |st.warnings| ==> 1 <= st.warnings[i].line <= st.currentLineNumber)
    && NoMissingKey(st.warnings)
  }

  lemma RunTokensCons(st: ParserState, t: Token, rest: seq<Token>, output: string)
    ensures var e := StepToken(st, t);
      RunTokens(st, [t] + rest, output) == RunTokens(e.state, rest, output + e.output)
  {
    assert ([t] + rest)[0] == t && ([t] + rest)[1..] == rest;
  }

  /** Running tokens keeps the line number, only appends warnings and output,
      and never replaces a key once one is set. */
  lemma {:induction false} RunTokensProgress(st: ParserState, tokens: seq<Token>, output: string)
    ensures var e := RunTokens(st, tokens, output);
      && e.state.currentLineNumber == st.currentLineNumber
      && st.warnings <= e.state.warnings
      && (st.key.Some? ==> e.state.key == st.key)
      && output <= e.output
    decreases |tokens|
  {
    if tokens != [] {
      var step := StepToken(st, tokens[0]);
      RunTokensProgress(step.state, tokens[1..], output + step.output);
      var e := RunTokens(st, tokens, output);
      assert st.warnings <= step.state.warnings;
      assert output <= output + step.output;
    }
  }

  /** `processLine` counts exactly one line, only appends warnings, and the
      first key it sees is kept for good. */
  lemma ProcessLineProgress(st: ParserState, line: string)
    ensures var e := ProcessLineSpec(st, line);
      && e.state.currentLineNumber == st.currentLineNumber + 1
      && st.warnings <= e.state.warnings
      && (st.key.Some? ==> e.state.key == st.key)
  {
    var counted := st.(currentLineNumber := st.currentLineNumber + 1);
    RunTokensProgress(counted, Tokens(line), "");
  }

  lemma {:induction false} RunTokensValid(st: ParserState, tokens: seq<Token>, output: string)
    requires Consistent(st) && st.currentLineNumber >= 1
    ensures Consistent(RunTokens(st, tokens, output).state)
    decreases |tokens|
  {
    if tokens != [] {
      var step := StepToken(st, tokens[0]);
      assert Consistent(step.state);
      RunTokensValid(step.state, tokens[1..], output + step.output);
    }
  }

  /** `processLine` keeps every warning and the queue's line among the lines read. */
  lemma ProcessLineValid(st: ParserState, line: string)
    requires Consistent(st)
    ensures Consistent(ProcessLineSpec(st, line).state)
  {
    var counted := st.(currentLineNumber := st.currentLineNumber + 1);
    assert Consistent(counted);
    RunTokensValid(counted, Tokens(line), "");
  }

  /** `finalize` reports the leftover chords at the line that queued them. */
  lemma FinalizeValid(st: ParserState)
    requires Consistent(st)
    ensures Consistent(FinalizeSpec(st))
    ensures |st.queue| > 0 ==> FinalizeSpec(st).warnings[|st.warnings|] == Warning(st.queueLineStart, EndOfInputUnconsumed(|st.queue|))
  {
  }

  /** `finalize` does not empty the queue, so calling it again repeats the warning. */
  lemma FinalizeRepeats(st: ParserState)
    requires |st.queue| > 0
    ensures var w := Warning(st.queueLineStart, EndOfInputUnconsumed(|st.queue|));
      FinalizeSpec(FinalizeSpec(st)).warnings == st.warnings + [w, w]
  {
  }

  /** A comment line is returned as it is; only the line count moves. */
  lemma ProcessLineComment(st: ParserState, line: string)
    requires IsCommentLine(line)
    ensures ProcessLineSpec(st, line) == Emitted(st.(currentLineNumber := st.currentLineNumber + 1), line)
  {
  }

  /** A line with no directive, no `_` and no line terminator comes out exactly
      as it went in, and the state only counts it, when no key is known yet or
      the line has no bracket for a key to convert. */
  lemma PlainLine(st: ParserState, line: string)
    requires '{' !in line && '_' !in line && NoLineTerminators(line)
    requires st.key.None? || '[' !in line
    ensures ProcessLineSpec(st, line) == Emitted(st.(currentLineNumber := st.currentLineNumber + 1), line)
  {
    if !IsCommentLine(line) {
      var counted := st.(currentLineNumber := st.currentLineNumber + 1);
      LineRunsTokens(st, line);
      PlainRun(counted, line);
    }
  }

  /** A line that is not a comment is counted, then its tokens are run. */
  lemma LineRunsTokens(st: ParserState, line: string)
    requires !IsCommentLine(line)
    ensures ProcessLineSpec(st, line) == RunTokens(st.(currentLineNumber := st.currentLineNumber + 1), Tokens(line), "")
  {
  }

  lemma PlainRun(st: ParserState, line: string)
    requires '{' !in line && '_' !in line && NoLineTerminators(line)
    requires st.key.None? || '[' !in line
    ensures RunTokens(st, Tokens(line), "") == Emitted(st, line)
  {
    var tokens := Tokens(line);
    PlainTokens(line);
    if '[' !in line {
      NoChordTokens(line);
    }
    RunPlainTokens(st, tokens, "");
    assert "" + Written(tokens) == line;
  }

  predicate IsWritten(t: Token) {
    t.Chord? || t.Text? || t.Comment?
  }

  /** How a chord, text or comment token was written in the line. */
  function Spelling(t: Token): string
    requires IsWritten(t)
  {
    if t.Chord? then "[" + t.chord + "]" else t.text
  }

  /** The line that a run of chord, text and comment tokens was read from. */
  function Written(tokens: seq<Token>): string
    requires forall i :: 0 <= i < |tokens| ==> IsWritten(tokens[i])
  {
    if tokens == [] then [] else Spelling(tokens[0]) + Written(tokens[1..])
  }

  /** Without a directive, an `_` or a line terminator, the tokens are chords,
      text and comments, and written out again they give the line back. */
  lemma {:induction false} PlainTokens(s: string)
    requires '{' !in s && '_' !in s && NoLineTerminators(s)
    ensures forall i :: 0 <= i < |Tokens(s)| ==> IsWritten(Tokens(s)[i])
    ensures Written(Tokens(s)) == s
    decreases |s|
  {
    if s != [] {
      var lexeme := PlainStep(s);
      var r := s[lexeme.length..];
      PlainTokens(r);
      var ts := [lexeme.token] + Tokens(r);
      assert ts[0] == lexeme.token && ts[1..] == Tokens(r);
    }
  }

  /** A text without `[` holds no chord token. */
  lemma {:induction false} NoChordTokens(s: string)
    requires '[' !in s
    ensures forall i :: 0 <= i < |Tokens(s)| ==> !Tokens(s)[i].Chord?
    decreases |s|
  {
    if s != [] {
      var n := if MatchAt(s).None? then 1 else MatchAt(s).value.length;
      var r := s[n..];
      assert forall k :: 0 <= k < |r| ==> r[k] == s[n + k];
      assert '[' !in r;
      NoChordTokens(r);
      TokensStep(s);
      if MatchAt(s).Some? {
        assert s[0] != '[';
        assert !MatchAt(s).value.token.Chord?;
      }
    }
  }

  /** The first token of such a text, and what is left after it. */
  lemma PlainStep(s: string) returns (lexeme: Lexeme)
    requires s != [] && '{' !in s && '_' !in s && NoLineTerminators(s)
    ensures 1 <= lexeme.length <= |s| && IsWritten(lexeme.token)
    ensures Tokens(s) == [lexeme.token] + Tokens(s[lexeme.length..])
    ensures s == Spelling(lexeme.token) + s[lexeme.length..]
    ensures var r := s[lexeme.length..]; '{' !in r && '_' !in r && NoLineTerminators(r)
    ensures '[' !in s ==> '[' !in s[lexeme.length..] && !lexeme.token.Chord?
  {
    lexeme := PlainLexeme(s);
    TokensStep(s);
    var r := s[lexeme.length..];
    assert forall c :: c in r ==> c in s;
    assert forall k :: 0 <= k < |r| ==> r[k] == s[lexeme.length + k];
    assert s[..lexeme.length] + r == s;
  }

  /** The token at the start of such a text, and how it was written. */
  lemma PlainLexeme(s: string) returns (lexeme: Lexeme)
    requires s != [] && s[0] != '{' && s[0] != '_' && !IsLineTerminator(s[0])
    ensures MatchAt(s) == Some(lexeme)
    ensures IsWritten(lexeme.token)
    ensures 1 <= lexeme.length <= |s|
    ensures s[..lexeme.length] == Spelling(lexeme.token)
    ensures lexeme.token.Chord? ==> s[0] == '['
  {
    DirectivesNeedBrace(s);
    lexeme := MatchAt(s).value;
    if BracketAt(s).None? && s[0] != '#' {
      assert s[..1] == [s[0]];
    }
  }

  /** Text and comments are output as written, and so are chords before a key is known. */
  lemma {:induction false} RunPlainTokens(st: ParserState, tokens: seq<Token>, output: string)
    requires forall i :: 0 <= i < |tokens| ==> IsWritten(tokens[i])
    requires st.key.None? || forall i :: 0 <= i < |tokens| ==> !tokens[i].Chord?
    ensures RunTokens(st, tokens, output) == Emitted(st, output + Written(tokens))
    decreases |tokens|
  {
    if tokens != [] {
      var t := tokens[0];
      var piece := Spelling(t);
      assert StepToken(st, t) == Emitted(st, piece);
      RunPlainTokens(st, tokens[1..], output + piece);
      assert output + piece + Written(tokens[1..]) == output + Written(tokens);
    }
  }

  /** A key directive line comes out normalised as `{key: X}`, and sets the key
      only when none is set yet. */
  lemma KeyDirectiveLine(st: ParserState, w: string, x: string)
    requires AllWhitespace(w) && IsKeyName(x)
    ensures var e := ProcessLineSpec(st, "{key:" + w + x + "}");
      && e.output == "{key: " + x + "}"
      && e.state == st.(currentLineNumber := st.currentLineNumber + 1, key := if st.key.None? then Some(x) else st.key)
  {
    var line := "{key:" + w + x + "}";
    KeyDirectiveComplete(line, w, x, []);
    assert line + [] == line;
    assert MatchAt(line) == Some(Lexeme(Key(x), |line|));
    SingleToken(line);
    NotCommentLine(line);
    OneTokenLine(st, line, Key(x));
  }

  /** A queue directive line outputs nothing and loads the chords in the
      brackets of its body, warning when chords from an earlier queue are still
      unused. The body is what follows the whitespace after `{q:`, up to the `}`;
      it may hold no bracket at all, and the queue is then emptied. */
  lemma QueueDirectiveLine(st: ParserState, w: string, b: string)
    requires AllWhitespace(w) && b != [] && '}' !in b && NoLineTerminators(b) && !IsJsWhitespace(b[0])
    ensures var e := ProcessLineSpec(st, "{q:" + w + b + "}");
      && e.output == ""
      && e.state == st.(
           currentLineNumber := st.currentLineNumber + 1,
           queue := BracketContents(b),
           queueLineStart := st.currentLineNumber + 1,
           warnings := st.warnings + if |st.queue| > 0 then [Warning(st.queueLineStart, PreviousQueueUnconsumed(|st.queue|))] else [])
  {
    QueueDirectiveThenRest(st, w, b, []);
    assert "{q:" + w + b + "}" + [] == "{q:" + w + b + "}";
  }

  /** A queue directive with a body is one token, holding the chords in the
      body's brackets, and the tokens of the rest of its line follow it. */
  lemma QueueBodyTokens(w: string, b: string, rest: string)
    requires AllWhitespace(w) && b != [] && '}' !in b && NoLineTerminators(b) && !IsJsWhitespace(b[0])
    ensures Tokens("{q:" + w + b + "}" + rest) == [Queue(BracketContents(b))] + Tokens(rest)
  {
    var directive := "{q:" + w + b + "}";
    var line := directive + rest;
    QueueDirectiveComplete(line, w, b, rest);
    QueueDirectiveIsNotKey(line);
    assert MatchAt(line) == Some(Lexeme(Queue(BracketContents(b)), |directive|));
    TokensStep(line);
    assert line[|directive|..] == rest;
  }

  /** Brackets spaced by any whitespace on the line: the directive is one token
      holding exactly the chords written. */
  lemma QueueSpacedTokens(w: string, cs: seq<string>, ws: seq<string>, rest: string)
    requires AllWhitespace(w) && IsChordList(cs) && cs != [] && |ws| == |cs|
    requires forall i :: 0 <= i < |ws| ==> NoLineTerminators(ws[i]) && AllWhitespace(ws[i])
    ensures Tokens("{q:" + w + Spaced(cs, ws) + "}" + rest) == [Queue(cs)] + Tokens(rest)
  {
    SpacedOneLine(cs, ws);
    BracketContentsSpaced(cs, ws);
    QueueBodyTokens(w, Spaced(cs, ws), rest);
  }

  /** The directive of the tests, `{q:[1] [4] [5]}`, queues those three chords
      in front of the rest of its line. */
  lemma QueueOneFourFive(rest: string)
    ensures Tokens("{q:[1] [4] [5]}" + rest) == [Queue(["1", "4", "5"])] + Tokens(rest)
  {
    var cs, ws := ["1", "4", "5"], [" ", " ", ""];
    assert Spaced(cs[2..], ws[2..]) == "[5]";
    assert Spaced(cs[1..], ws[1..]) == "[4] [5]";
    var b := Spaced(cs, ws);
    assert b == "[1] [4] [5]";
    assert "{q:" + "" + b + "}" == "{q:[1] [4] [5]}";
    QueueSpacedTokens("", cs, ws, rest);
  }

  /** Only the queue directive is dropped from its line: the queue is loaded
      from the brackets of its body (warning about an unused earlier queue), and
      the rest of the line is then processed as usual, from the new queue. */
  lemma QueueDirectiveThenRest(st: ParserState, w: string, b: string, rest: string)
    requires AllWhitespace(w) && b != [] && '}' !in b && NoLineTerminators(b) && !IsJsWhitespace(b[0])
    ensures var n := st.currentLineNumber + 1;
      var unused := if |st.queue| > 0 then [Warning(st.queueLineStart, PreviousQueueUnconsumed(|st.queue|))] else [];
      var loaded := st.(currentLineNumber := n, queue := BracketContents(b), queueLineStart := n, warnings := st.warnings + unused);
      ProcessLineSpec(st, "{q:" + w + b + "}" + rest) == RunTokens(loaded, Tokens(rest), "")
  {
    var line := "{q:" + w + b + "}" + rest;
    var counted := st.(currentLineNumber := st.currentLineNumber + 1);
    NotCommentLine(line);
    LineRunsTokens(st, line);
    QueueBodyTokens(w, b, rest);
    RunTokensCons(counted, Queue(BracketContents(b)), Tokens(rest), "");
    assert "" + "" == "";
  }

  /** A line that is not a comment line: it is counted, its first token is run,
      and the rest of the line follows from the state and output that token leaves. */
  lemma FirstTokenThenRest(st: ParserState, d: string, rest: string, t: Token)
    requires d != [] && MatchAt(d + rest) == Some(Lexeme(t, |d|)) && !IsCommentLine(d + rest)
    ensures var e := StepToken(st.(currentLineNumber := st.currentLineNumber + 1), t);
      ProcessLineSpec(st, d + rest) == RunTokens(e.state, Tokens(rest), e.output)
  {
    var line := d + rest;
    var counted := st.(currentLineNumber := st.currentLineNumber + 1);
    var e := StepToken(counted, t);
    LineRunsTokens(st, line);
    TokensStep(line);
    assert line[|d|..] == rest;
    RunTokensCons(counted, t, Tokens(rest), "");
    assert "" + e.output == e.output;
  }

  /** A key directive opening a line is output as `{key: X}` and sets the key
      (when none is set yet) before the rest of the line is processed. */
  lemma KeyDirectiveThenRest(st: ParserState, w: string, x: string, rest: string)
    requires AllWhitespace(w) && IsKeyName(x)
    ensures var keyed := st.(currentLineNumber := st.currentLineNumber + 1, key := if st.key.None? then Some(x) else st.key);
      ProcessLineSpec(st, "{key:" + w + x + "}" + rest) == RunTokens(keyed, Tokens(rest), "{key: " + x + "}")
  {
    var d := "{key:" + w + x + "}";
    KeyDirectiveComplete(d + rest, w, x, rest);
    assert MatchAt(d + rest) == Some(Lexeme(Key(x), |d|));
    NotCommentLine(d + rest);
    FirstTokenThenRest(st, d, rest, Key(x));
  }

  /** A `_` opening a line takes the next queued chord, converted under the key
      known so far, before the rest of the line is processed; with nothing
      queued it stays `_` and is warned about at this line. */
  lemma UnderscoreThenRest(st: ParserState, rest: string)
    ensures |st.queue| == 0 ==>
      var n := st.currentLineNumber + 1;
      ProcessLineSpec(st, "_" + rest) ==
      RunTokens(st.(currentLineNumber := n, warnings := st.warnings + [Warning(n, UnderscoreWithEmptyQueue)]), Tokens(rest), "_")
    ensures |st.queue| > 0 ==>
      ProcessLineSpec(st, "_" + rest) ==
      RunTokens(st.(currentLineNumber := st.currentLineNumber + 1, queue := st.queue[1..]), Tokens(rest), "[" + RewriteChord(st.queue[0], st.key) + "]")
  {
    DirectivesNeedBrace("_" + rest);
    assert MatchAt("_" + rest) == Some(Lexeme(Underscore, 1));
    NotCommentLine("_" + rest);
    FirstTokenThenRest(st, "_", rest, Underscore);
  }

  /** A bracket `[x]` opening a line is rewritten under the key known so far
      before the rest of the line is processed; the state only counts the line. */
  lemma BracketThenRest(st: ParserState, x: string, rest: string)
    requires x != [] && ']' !in x
    ensures ProcessLineSpec(st, "[" + x + "]" + rest) ==
      RunTokens(st.(currentLineNumber := st.currentLineNumber + 1), Tokens(rest), "[" + RewriteChord(x, st.key) + "]")
  {
    var d := "[" + x + "]";
    BracketComplete(d + rest, x, rest);
    DirectivesNeedBrace(d + rest);
    assert MatchAt(d + rest) == Some(Lexeme(Chord(x), |d|));
    NotCommentLine(d + rest);
    FirstTokenThenRest(st, d, rest, Chord(x));
  }

  /** The token loop never reports a missing key. */
  lemma {:induction false} RunTokensNoMissingKey(st: ParserState, tokens: seq<Token>, output: string)
    requires NoMissingKey(st.warnings)
    ensures NoMissingKey(RunTokens(st, tokens, output).state.warnings)
    decreases |tokens|
  {
    if tokens != [] {
      var e := StepToken(st, tokens[0]);
      assert NoMissingKey(e.state.warnings);
      RunTokensNoMissingKey(e.state, tokens[1..], output + e.output);
    }
  }

  /** Unlike the whole-document pass, the streaming parser never reports a
      missing key: neither `processLine` nor `finalize` adds such a warning. */
  lemma ParserNoMissingKey(st: ParserState, line: string)
    requires NoMissingKey(st.warnings)
    ensures NoMissingKey(ProcessLineSpec(st, line).state.warnings)
    ensures NoMissingKey(FinalizeSpec(st).warnings)
  {
    if !IsCommentLine(line) {
      RunTokensNoMissingKey(st.(currentLineNumber := st.currentLineNumber + 1), Tokens(line), "");
    }
  }

  /** A queue directive with nothing in it, `{q:}`, is not taken as a directive:
      it is output as text and the queue stays as it was. */
  lemma EmptyQueueDirectiveLine(st: ParserState, w: string)
    requires AllWhitespace(w)
    ensures ProcessLineSpec(st, "{q:" + w + "}") ==
      Emitted(st.(currentLineNumber := st.currentLineNumber + 1), "{q:" + w + "}")
  {
    var line := "{q:" + w + "}";
    QueueDirectiveComplete(line, w, [], []);
    assert line == "{q:" + w + [] + "}" + [];
    QueueDirectiveIsNotKey(line);
    assert line[..|line|] == line;
    assert MatchAt(line) == Some(Lexeme(Text(line), |line|));
    SingleToken(line);
    NotCommentLine(line);
    OneTokenLine(st, line, Text(line));
  }

  /** `{q:}` opening a line is output as text, the queue stays as it was, and the
      rest of the line follows from the same state. */
  lemma EmptyQueueDirectiveThenRest(st: ParserState, w: string, rest: string)
    requires AllWhitespace(w)
    ensures ProcessLineSpec(st, "{q:" + w + "}" + rest) ==
      RunTokens(st.(currentLineNumber := st.currentLineNumber + 1), Tokens(rest), "{q:" + w + "}")
  {
    var d := "{q:" + w + "}";
    QueueDirectiveComplete(d + rest, w, [], rest);
    assert d + rest == "{q:" + w + [] + "}" + rest;
    QueueDirectiveIsNotKey(d + rest);
    assert (d + rest)[..|d|] == d;
    assert MatchAt(d + rest) == Some(Lexeme(Text(d), |d|));
    NotCommentLine(d + rest);
    FirstTokenThenRest(st, d, rest, Text(d));
  }

  /** A line that is just `_` takes the next queued chord, converted as a
      bracket would be; with nothing queued it stays `_` and is warned about at
      this line. */
  lemma UnderscoreLine(st: ParserState)
    ensures var n, e := st.currentLineNumber + 1, ProcessLineSpec(st, "_");
      && (|st.queue| == 0 ==>
            && e.output == "_"
            && e.state == st.(currentLineNumber := n, warnings := st.warnings + [Warning(n, UnderscoreWithEmptyQueue)]))
      && (|st.queue| > 0 ==>
            && e.output == "[" + RewriteChord(st.queue[0], st.key) + "]"
            && e.state == st.(currentLineNumber := n, queue := st.queue[1..]))
  {
    var line := "_";
    DirectivesNeedBrace(line);
    assert MatchAt(line) == Some(Lexeme(Underscore, 1));
    SingleToken(line);
    NotCommentLine(line);
    OneTokenLine(st, line, Underscore);
  }

  /** A line that is just a bracket `[x]` is rewritten as `processor.ts` would
      rewrite it under the key known so far, and the state only counts it. */
  lemma BracketLine(st: ParserState, x: string)
    requires x != [] && ']' !in x
    ensures ProcessLineSpec(st, "[" + x + "]") ==
      Emitted(st.(currentLineNumber := st.currentLineNumber + 1), "[" + RewriteChord(x, st.key) + "]")
  {
    var line := "[" + x + "]";
    BracketComplete(line, x, []);
    assert line + [] == line;
    DirectivesNeedBrace(line);
    assert MatchAt(line) == Some(Lexeme(Chord(x), |line|));
    SingleToken(line);
    NotCommentLine(line);
    OneTokenLine(st, line, Chord(x));
  }

  /** From a `#` the scanner reaches, the rest of the line is one token, copied
      out as it is, and the state does not change. */
  lemma HashTakesRest(st: ParserState, s: string, output: string)
    requires s != [] && s[0] == '#'
    ensures Tokens(s) == [Text(s)] || Tokens(s) == [Comment(s)]
    ensures RunTokens(st, Tokens(s), output) == Emitted(st, output + s)
  {
    var t := HashLexeme(s);
    SingleToken(s);
    assert StepToken(st, t) == Emitted(st, s);
    RunTokensCons(st, t, [], output);
  }

  lemma HashLexeme(s: string) returns (t: Token)
    requires s != [] && s[0] == '#'
    ensures MatchAt(s) == Some(Lexeme(t, |s|))
    ensures t == Text(s) || t == Comment(s)
  {
    DirectivesNeedBrace(s);
    t := MatchAt(s).value.token;
  }

  /** A line the first alternative matches whole is that one token. */
  lemma SingleToken(line: string)
    requires line != [] && MatchAt(line).Some? && MatchAt(line).value.length == |line|
    ensures Tokens(line) == [MatchAt(line).value.token]
  {
    TokensStep(line);
    assert line[|line|..] == [];
  }

  /** A line that is not a comment and is one token: the line is counted and the token is run. */
  lemma OneTokenLine(st: ParserState, line: string, t: Token)
    requires !IsCommentLine(line) && Tokens(line) == [t]
    ensures ProcessLineSpec(st, line) == StepToken(st.(currentLineNumber := st.currentLineNumber + 1), t)
  {
    LineRunsTokens(st, line);
    RunSingleToken(st.(currentLineNumber := st.currentLineNumber + 1), t);
  }

  lemma RunSingleToken(st: ParserState, t: Token)
    ensures RunTokens(st, [t], "") == StepToken(st, t)
  {
    var e := StepToken(st, t);
    assert [t][1..] == [];
    assert RunTokens(st, [t], "") == RunTokens(e.state, [], "" + e.output);
    assert "" + e.output == e.output;
  }

  class ChordNoobParser {
    var key: Option<string>
    var queue: seq<string>
    var queueLineStart: int
    var currentLineNumber: int
    var warnings: seq<Warning>

    function State(): ParserState
      reads this
    {
      ParserState(key, queue, queueLineStart, currentLineNumber, warnings)
    }

    ghost predicate Valid()
      reads this
    {
      Consistent(State())
    }

    constructor()
      ensures State() == Initial && Valid()
    {
      key := None;
      queue := [];
      queueLineStart := -1;
      currentLineNumber := 0;
      warnings := [];
    }

    /** `processLine`. */
    method ProcessLine(line: string) returns (result: string)
      requires Valid()
      modifies this
      ensures Emitted(State(), result) == ProcessLineSpec(old(State()), line)
      ensures Valid()
    {
      ProcessLineValid(State(), line);
      currentLineNumber := currentLineNumber + 1;
      if IsCommentLine(line) {
        return line;
      }
      var tokens := TokenizeLine(line);
      result := "";
      ghost var start := State();
      for i := 0 to |tokens|
        invariant RunTokens(State(), tokens[i..], result) == RunTokens(start, tokens, "")
      {
        assert tokens[i..][0] == tokens[i] && tokens[i..][1..] == tokens[i + 1..];
        ghost var before, resultBefore, step := State(), result, StepToken(State(), tokens[i]);
        match tokens[i] {
        case Key(name) =>
          if key.None? {
            key := Some(name);
          }
          result := result + ("{key: " + name + "}");
        case Queue(chords) =>
          if |queue| > 0 {
            warnings := warnings + [Warning(queueLineStart, PreviousQueueUnconsumed(|queue|))];
          }
          queue := chords;
          queueLineStart := currentLineNumber;
        case Underscore =>
          if |queue| == 0 {
            warnings := warnings + [Warning(currentLineNumber, UnderscoreWithEmptyQueue)];
            result := result + "_";
          } else {
            var chord := queue[0];
            queue := queue[1..];
            chord := RewriteChord(chord, key);
            result := result + ("[" + chord + "]");
          }
        case Chord(chord) =>
          result := result + ("[" + RewriteChord(chord, key) + "]");
        case Text(text) =>
          result := result + text;
        case Comment(text) =>
          result := result + text;
        }
        assert State() == step.state && result == resultBefore + step.output;
      }
      assert tokens[|tokens|..] == [];
    }

    /** `tokenizeLine`: the `exec` loop, stopping after a comment. `rest` is
        the line from the regular expression's `lastIndex` on. */
    method TokenizeLine(line: string) returns (tokens: seq<Token>)
      ensures tokens == Tokens(line)
    {
      tokens := [];
      var rest := line;
      while rest != []
        invariant tokens + Tokens(rest) == Tokens(line)
        decreases |rest|
      {
        var found := MatchAt(rest);
        TokensStep(rest);
        if found.None? {
          rest := rest[1..];
        } else {
          var lexeme := found.value;
          AppendAssociates(tokens, [lexeme.token], Tokens(rest[lexeme.length..]));
          tokens := tokens + [lexeme.token];
          if lexeme.token.Comment? {
            assert rest[lexeme.length..] == [];
            return;
          }
          rest := rest[lexeme.length..];
        }
      }
      assert tokens + [] == tokens;
    }

    /** `finalize`. */
    method Finalize() returns (result: seq<Warning>)
      requires Valid()
      modifies this
      ensures State() == FinalizeSpec(old(State()))
      ensures result == warnings
      ensures Valid()
    {
      FinalizeValid(State());
      if |queue| > 0 {
        warnings := warnings + [Warning(queueLineStart, EndOfInputUnconsumed(|queue|))];
      }
      return warnings;
    }

    /** `getWarnings`: a copy of the warnings; nothing changes. */
    method GetWarnings() returns (result: seq<Warning>)
      ensures result == warnings
    {
      return warnings;
    }
  }
}
