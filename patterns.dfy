/**
  * The regular expressions the preprocessor matches, each written as a
  * recognizer anchored at the start of a string. The whole-document pass
  * (processor.ts, chordQueue.ts) and the streaming tokenizer (streaming.ts)
  * spell the same patterns separately; here each is defined once.
  */
module Patterns {
  import opened Strings

  /** What a pattern matched at the start of a string: its capture group and
      the number of characters the whole match consumed. */
  datatype Capture = Capture(group: string, length: nat)

  predicate StartsWith(s: string, prefix: string) {
    |prefix| <= |s| && s[..|prefix|] == prefix
  }

  predicate AllWhitespace(w: string) {
    forall i :: 0 <= i < |w| ==> IsJsWhitespace(w[i])
  }

  /** The key names `[A-G][b#]?` accepts. */
  predicate IsKeyName(x: string) {
    && (|x| == 1 || |x| == 2)
    && 'A' <= x[0] <= 'G'
    && (|x| == 2 ==> x[1] == 'b' || x[1] == '#')
  }

  /** `\{key:\s*([A-G][b#]?)\}` at the start of `s`. */
  function KeyDirectiveAt(s: string): (m: Option<Capture>)
    ensures m.Some? ==>
      var x, n := m.value.group, m.value.length;
      && IsKeyName(x) && 7 <= n <= |s| && 5 <= n - 1 - |x|
      && s[..n] == "{key:" + s[5..n - 1 - |x|] + x + "}"
      && AllWhitespace(s[5..n - 1 - |x|])
  {
    if StartsWith(s, "{key:") then
      var q := SkipWhitespace(s, 5);
      if q + 1 < |s| && 'A' <= s[q] <= 'G' && s[q + 1] == '}' then
        assert s[..q + 2] == s[..5] + s[5..q] + s[q..q + 1] + "}";
        Some(Capture(s[q..q + 1], q + 2))
      else if q + 2 < |s| && 'A' <= s[q] <= 'G' && (s[q + 1] == 'b' || s[q + 1] == '#') && s[q + 2] == '}' then
        assert s[..q + 3] == s[..5] + s[5..q] + s[q..q + 2] + "}";
        Some(Capture(s[q..q + 2], q + 3))
      else
        None
    else
      None
  }

  /** Every text of the shape `{key:` whitespace key-name `}` is recognized, so
      together with the ensures of `KeyDirectiveAt` this is an if-and-only-if. */
  lemma KeyDirectiveComplete(s: string, w: string, x: string, rest: string)
    requires AllWhitespace(w) && IsKeyName(x)
    requires s == "{key:" + w + x + "}" + rest
    ensures KeyDirectiveAt(s) == Some(Capture(x, 5 + |w| + |x| + 1))
  {
    assert s[..5] == "{key:";
    assert s[5 + |w|] == x[0];
    SkipWhitespaceRun(s, 5, |w|);
    assert s[5 + |w| + 1] == if |x| == 1 then '}' else x[1];
    assert s[5 + |w|..5 + |w| + |x|] == x;
  }

  /** The end of the lazy `(.*?)\}` scan from `i`: the first `}` or line terminator, or `|s|`. */
  function FindBodyEnd(s: string, i: nat): (k: nat)
    requires i <= |s|
    ensures i <= k <= |s|
    ensures forall j :: i <= j < k ==> s[j] != '}' && !IsLineTerminator(s[j])
    ensures k < |s| ==> s[k] == '}' || IsLineTerminator(s[k])
    decreases |s| - i
  {
    if i == |s| || s[i] == '}' || IsLineTerminator(s[i]) then i else FindBodyEnd(s, i + 1)
  }

  /** `\{q:\s*(.*?)\}` at the start of `s`: the body runs from the first
      non-whitespace character to the first `}`, and may not cross a line terminator. */
  function QueueDirectiveAt(s: string): (m: Option<Capture>)
    ensures m.Some? ==>
      var b, n := m.value.group, m.value.length;
      && 4 <= n <= |s| && 3 <= n - 1 - |b|
      && s[..n] == "{q:" + s[3..n - 1 - |b|] + b + "}"
      && AllWhitespace(s[3..n - 1 - |b|])
      && '}' !in b && NoLineTerminators(b)
      && (b == [] || !IsJsWhitespace(b[0]))
  {
    if StartsWith(s, "{q:") then
      var w := SkipWhitespace(s, 3);
      var k := FindBodyEnd(s, w);
      if k < |s| && s[k] == '}' then
        assert s[..k + 1] == s[..3] + s[3..w] + s[w..k] + "}";
        Some(Capture(s[w..k], k + 1))
      else
        None
    else
      None
  }

  /** Every text of the shape `{q:` whitespace body `}` is recognized, with that body. */
  lemma QueueDirectiveComplete(s: string, w: string, b: string, rest: string)
    requires AllWhitespace(w) && '}' !in b && NoLineTerminators(b)
    requires b == [] || !IsJsWhitespace(b[0])
    requires s == "{q:" + w + b + "}" + rest
    ensures QueueDirectiveAt(s) == Some(Capture(b, 3 + |w| + |b| + 1))
  {
    assert s[..3] == "{q:";
    assert s[3 + |w|] == if b == [] then '}' else b[0];
    SkipWhitespaceRun(s, 3, |w|);
    var start := 3 + |w|;
    assert s[start..start + |b|] == b;
    assert s[start + |b|] == '}';
    FindBodyEndAt(s, start, |b|);
  }

  lemma {:induction false} FindBodyEndAt(s: string, i: nat, n: nat)
    requires i + n < |s| && s[i + n] == '}'
    requires forall j :: i <= j < i + n ==> s[j] != '}' && !IsLineTerminator(s[j])
    ensures FindBodyEnd(s, i) == i + n
    decreases n
  {
    if n > 0 {
      FindBodyEndAt(s, i + 1, n - 1);
    }
  }

  /** `\[([^\]]+)\]` at the start of `s`. */
  function BracketAt(s: string): (m: Option<Capture>)
    ensures m.Some? ==>
      var c, n := m.value.group, m.value.length;
      && c != [] && ']' !in c && n == |c| + 2 <= |s|
      && s[..n] == "[" + c + "]"
  {
    if |s| > 0 && s[0] == '[' then
      var k := Find(s, 1, ']');
      if 1 < k < |s| then
        assert s[..k + 1] == "[" + s[1..k] + "]";
        Some(Capture(s[1..k], k + 1))
      else
        None
    else
      None
  }

  /** Every `[c]` with `c` non-empty and free of `]` is recognized, so together
      with the ensures of `BracketAt` this is an if-and-only-if. */
  lemma BracketComplete(s: string, c: string, rest: string)
    requires c != [] && ']' !in c
    requires s == "[" + c + "]" + rest
    ensures BracketAt(s) == Some(Capture(c, |c| + 2))
  {
    assert s[1..|c| + 1] == c;
    FindFirst(s, 1, |c|, ']');
  }

  /** Where a pattern first matched, and what it captured. */
  datatype Found = Found(at: nat, capture: Capture)

  /** `s.match(re)` without the `g` flag: the leftmost position at or after `p`
      where `pattern` matches. */
  function Search(pattern: string -> Option<Capture>, s: string, p: nat): (r: Option<Found>)
    requires p <= |s|
    decreases |s| - p
  {
    match pattern(s[p..])
    case Some(m) => Some(Found(p, m))
    case None => if p == |s| then None else Search(pattern, s, p + 1)
  }

  /** `Search` finds the leftmost match, and finds none only when there is none. */
  lemma {:induction false} SearchFinds(pattern: string -> Option<Capture>, s: string, p: nat)
    requires p <= |s|
    ensures var r := Search(pattern, s, p);
      && (r.Some? ==> p <= r.value.at <= |s| && pattern(s[r.value.at..]) == Some(r.value.capture))
      && (r.Some? ==> forall k :: p <= k < r.value.at ==> pattern(s[k..]).None?)
      && (r.None? ==> forall k :: p <= k <= |s| ==> pattern(s[k..]).None?)
    decreases |s| - p
  {
    if pattern(s[p..]).None? && p < |s| {
      SearchFinds(pattern, s, p + 1);
    }
  }

  /** `s.matchAll(/\[([^\]]+)\]/g)`: the contents of every bracket, left to right. */
  function BracketContents(s: string): (cs: seq<string>)
    ensures forall i :: 0 <= i < |cs| ==> cs[i] != [] && ']' !in cs[i] && Within(cs[i], s)
    decreases |s|
  {
    if s == [] then []
    else match BracketAt(s)
      case Some(m) =>
        var rest := BracketContents(s[m.length..]);
        assert forall i :: 0 <= i < |rest| ==> Within(rest[i], s) by {
          assert forall c :: c in s[m.length..] ==> c in s;
        }
        assert Within(m.group, s) by {
          assert m.group == s[1..m.length - 1];
        }
        [m.group] + rest
      case None =>
        var rest := BracketContents(s[1..]);
        assert forall c :: c in s[1..] ==> c in s;
        rest
  }

  /** One step of the bracket scan. */
  lemma BracketContentsStep(s: string)
    requires s != []
    ensures BracketAt(s).Some? ==>
      BracketContents(s) == [BracketAt(s).value.group] + BracketContents(s[BracketAt(s).value.length..])
    ensures BracketAt(s).None? ==> BracketContents(s) == BracketContents(s[1..])
  {
  }

  /** A character that does not open a bracket is passed over. */
  lemma BracketContentsSkip(s: string)
    requires s != [] && s[0] != '['
    ensures BracketContents(s) == BracketContents(s[1..])
  {
  }

  /** `line.replace(/\[([^\]]+)\]/g, ...)`: scanning left to right, the contents
      of every bracket are passed to `rewrite` and the scan resumes after the
      `]`; every other character is copied. */
  function ReplaceBracketed(line: string, rewrite: string -> string): string
    decreases |line|
  {
    if line == [] then []
    else match BracketAt(line)
      case Some(m) => "[" + rewrite(m.group) + "]" + ReplaceBracketed(line[m.length..], rewrite)
      case None => [line[0]] + ReplaceBracketed(line[1..], rewrite)
  }

  /** When `rewrite` keeps every chord the scan meets, the line is unchanged. */
  lemma {:induction false} ReplaceBracketedFixed(line: string, rewrite: string -> string)
    requires forall c :: c in BracketContents(line) ==> rewrite(c) == c
    ensures ReplaceBracketed(line, rewrite) == line
    decreases |line|
  {
    if line != [] {
      var n := FixedStep(line, rewrite);
      ReplaceBracketedFixed(line[n..], rewrite);
      assert line == line[..n] + line[n..];
    }
  }

  /** One step of the scan when `rewrite` keeps the chord it meets. */
  lemma FixedStep(line: string, rewrite: string -> string) returns (n: nat)
    requires line != []
    requires forall c :: c in BracketContents(line) ==> rewrite(c) == c
    ensures 1 <= n <= |line|
    ensures ReplaceBracketed(line, rewrite) == line[..n] + ReplaceBracketed(line[n..], rewrite)
    ensures forall c :: c in BracketContents(line[n..]) ==> c in BracketContents(line)
  {
    BracketContentsStep(line);
    match BracketAt(line) {
    case Some(m) =>
      n := m.length;
      assert m.group in BracketContents(line);
    case None =>
      n := 1;
      assert line[..1] == [line[0]];
    }
  }

  /** When `rewrite` only uses a chord's own characters and those of `extra`,
      the rewritten line is made of the line's characters and those of `extra`. */
  lemma {:induction false} ReplaceBracketedWithin(line: string, rewrite: string -> string, extra: string)
    requires forall c :: Within(rewrite(c), c + extra)
    ensures Within(ReplaceBracketed(line, rewrite), line + extra)
    decreases |line|
  {
    if line != [] {
      match BracketAt(line) {
      case Some(m) =>
        var rest := line[m.length..];
        ReplaceBracketedWithin(rest, rewrite, extra);
        assert Within(rewrite(m.group), m.group + extra);
        assert line[..m.length] == "[" + m.group + "]";
        assert forall c :: c in m.group ==> c in line[..m.length];
        assert forall c :: c in line[..m.length] + rest ==> c in line by {
          assert line == line[..m.length] + rest;
        }
      case None =>
        ReplaceBracketedWithin(line[1..], rewrite, extra);
        assert line == [line[0]] + line[1..];
      }
    }
  }

  /** What a queue holds: chords that can stand inside `[...]` on one line of a directive. */
  predicate IsChordList(chords: seq<string>) {
    forall i :: 0 <= i < |chords| ==>
      chords[i] != [] && ']' !in chords[i] && '}' !in chords[i] && NoLineTerminators(chords[i])
  }

  /** Brackets spaced out by whitespace, as an author may write them:
      `[c1] ws[0] [c2] ws[1] ...`. */
  function Spaced(cs: seq<string>, ws: seq<string>): string
    requires |ws| == |cs|
    decreases |cs|
  {
    if cs == [] then [] else "[" + cs[0] + "]" + ws[0] + Spaced(cs[1..], ws[1..])
  }

  /** Whitespace in front of the brackets is passed over by the scan. */
  lemma {:induction false} BracketContentsAfterWhitespace(w: string, s: string)
    requires AllWhitespace(w)
    ensures BracketContents(w + s) == BracketContents(s)
    decreases |w|
  {
    if w != [] {
      assert IsJsWhitespace(w[0]);
      BracketContentsSkip(w + s);
      assert (w + s)[1..] == w[1..] + s;
      BracketContentsAfterWhitespace(w[1..], s);
    } else {
      assert w + s == s;
    }
  }

  /** However the brackets are spaced, scanning them gives the chords written, in order. */
  lemma {:induction false} BracketContentsSpaced(cs: seq<string>, ws: seq<string>)
    requires |ws| == |cs|
    requires forall i :: 0 <= i < |ws| ==> AllWhitespace(ws[i])
    requires forall i :: 0 <= i < |cs| ==> cs[i] != [] && ']' !in cs[i]
    ensures BracketContents(Spaced(cs, ws)) == cs
    decreases |cs|
  {
    if cs != [] {
      var s := Spaced(cs, ws);
      var rest := Spaced(cs[1..], ws[1..]);
      var tail := ws[0] + rest;
      assert s == "[" + cs[0] + "]" + tail;
      BracketComplete(s, cs[0], tail);
      BracketContentsStep(s);
      assert s[|cs[0]| + 2..] == tail;
      BracketContentsAfterWhitespace(ws[0], rest);
      BracketContentsSpaced(cs[1..], ws[1..]);
    }
  }

  /** Spaced brackets open with `[`, and with spacing that stays on one line
      around chords without `}` they hold no `}` and no line terminator. */
  lemma {:induction false} SpacedOneLine(cs: seq<string>, ws: seq<string>)
    requires |ws| == |cs|
    requires forall i :: 0 <= i < |ws| ==> NoLineTerminators(ws[i]) && AllWhitespace(ws[i])
    requires forall i :: 0 <= i < |cs| ==> '}' !in cs[i] && NoLineTerminators(cs[i])
    ensures var s := Spaced(cs, ws);
      && '}' !in s && NoLineTerminators(s)
      && (s == [] <==> cs == []) && (s != [] ==> s[0] == '[')
    decreases |cs|
  {
    if cs != [] {
      var s := Spaced(cs, ws);
      var rest := Spaced(cs[1..], ws[1..]);
      SpacedOneLine(cs[1..], ws[1..]);
      var head := "[" + cs[0] + "]";
      assert s == head + ws[0] + rest;
      forall k | 0 <= k < |s| ensures s[k] != '}' && !IsLineTerminator(s[k])
      {
        if 0 < k < |cs[0]| + 1 {
          assert s[k] == cs[0][k - 1];
        } else if |head| <= k < |head| + |ws[0]| {
          assert s[k] == ws[0][k - |head|] && IsJsWhitespace(ws[0][k - |head|]);
        } else if k >= |head| + |ws[0]| {
          assert s[k] == rest[k - |head| - |ws[0]|];
        }
      }
    }
  }

  /** Both directives begin with `{`. */
  lemma DirectivesNeedBrace(s: string)
    requires s == [] || s[0] != '{'
    ensures KeyDirectiveAt(s).None? && QueueDirectiveAt(s).None?
  {
    if |s| >= 3 {
      assert s[..3][0] == s[0];
    }
    if |s| >= 5 {
      assert s[..5][0] == s[0];
    }
  }

  /** Text without `{` holds no directive anywhere. */
  lemma SearchWithoutBrace(text: string)
    requires '{' !in text
    ensures Search(KeyDirectiveAt, text, 0).None? && Search(QueueDirectiveAt, text, 0).None?
  {
    forall k | 0 <= k <= |text|
      ensures KeyDirectiveAt(text[k..]).None? && QueueDirectiveAt(text[k..]).None?
    {
      if k < |text| {
        assert text[k] in text;
      }
      DirectivesNeedBrace(text[k..]);
    }
    SearchFinds(KeyDirectiveAt, text, 0);
    SearchFinds(QueueDirectiveAt, text, 0);
    var r1 := Search(KeyDirectiveAt, text, 0);
    var r2 := Search(QueueDirectiveAt, text, 0);
    assert r1.None? && r2.None?;
  }

  /** A queue directive is not a key directive. */
  lemma QueueDirectiveIsNotKey(s: string)
    requires QueueDirectiveAt(s).Some?
    ensures KeyDirectiveAt(s).None?
  {
    assert s[1] == 'q';
    if |s| >= 5 {
      assert s[..5][1] == 'q';
    }
  }
}
