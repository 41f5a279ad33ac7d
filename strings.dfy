/**
  * The JavaScript string built-ins the preprocessor relies on, written as
  * functions over `seq<char>`: the whitespace class `\s` (which is also what
  * `trim()` removes), the line terminators that `.` refuses, `indexOf`,
  * `split` and `join` with a one-character separator.
  */
module Strings {

  datatype Option<T> = None | Some(value: T)

  /** The characters JavaScript's `.` does not match. */
  predicate IsLineTerminator(c: char) {
    c == '\n' || c == '\r' || c == '\U{2028}' || c == '\U{2029}'
  }

  predicate NoLineTerminators(s: string) {
    forall i :: 0 <= i < |s| ==> !IsLineTerminator(s[i])
  }

  /** JavaScript's `\s`, the same set `String.prototype.trim` strips. */
  predicate IsJsWhitespace(c: char) {
    || c == '\t' || c == '\n' || c == '\U{000B}' || c == '\U{000C}' || c == '\r'
    || c == ' ' || c == '\U{00A0}' || c == '\U{1680}' || ('\U{2000}' <= c <= '\U{200A}')
    || c == '\U{2028}' || c == '\U{2029}' || c == '\U{202F}' || c == '\U{205F}'
    || c == '\U{3000}' || c == '\U{FEFF}'
  }

  /** Every character of `p` occurs in `s`. */
  ghost predicate Within(p: string, s: string) {
    forall c :: c in p ==> c in s
  }

  /** Where a greedy `\s*` that starts at `i` stops. */
  function SkipWhitespace(s: string, i: nat): (j: nat)
    requires i <= |s|
    ensures i <= j <= |s|
    ensures forall k :: i <= k < j ==> IsJsWhitespace(s[k])
    ensures j < |s| ==> !IsJsWhitespace(s[j])
    decreases |s| - i
  {
    if i < |s| && IsJsWhitespace(s[i]) then SkipWhitespace(s, i + 1) else i
  }

  /** The first index at or after `i` that holds `c`, or `|s|` when there is none. */
  function Find(s: string, i: nat, c: char): (k: nat)
    requires i <= |s|
    ensures i <= k <= |s|
    ensures forall j :: i <= j < k ==> s[j] != c
    ensures k < |s| ==> s[k] == c
    decreases |s| - i
  {
    if i == |s| || s[i] == c then i else Find(s, i + 1, c)
  }

  /** A greedy `\s*` stops right after a whitespace run `w` that is not followed by whitespace. */
  lemma {:induction false} SkipWhitespaceRun(s: string, i: nat, n: nat)
    requires i + n <= |s|
    requires forall k :: i <= k < i + n ==> IsJsWhitespace(s[k])
    requires i + n < |s| ==> !IsJsWhitespace(s[i + n])
    ensures SkipWhitespace(s, i) == i + n
    decreases n
  {
    if n > 0 {
      SkipWhitespaceRun(s, i + 1, n - 1);
    }
  }

  /** `line.trim().startsWith("#")`: the first character that is not whitespace is `#`. */
  predicate IsCommentLine(line: string) {
    var k := SkipWhitespace(line, 0);
    k < |line| && line[k] == '#'
  }

  /** A line that starts with a character other than whitespace and `#` is not a comment line. */
  lemma NotCommentLine(line: string)
    requires line != [] && !IsJsWhitespace(line[0]) && line[0] != '#'
    ensures !IsCommentLine(line)
  {
    assert SkipWhitespace(line, 0) == 0;
  }

  /** `Array.prototype.indexOf`: the first index that holds `x`, or -1. */
  function IndexOf<T(==)>(s: seq<T>, x: T): (i: int)
    ensures -1 <= i < |s|
    ensures i == -1 <==> x !in s
    ensures 0 <= i ==> i < |s| && s[i] == x && x !in s[..i]
  {
    if |s| == 0 then -1
    else if s[0] == x then 0
    else
      var j := IndexOf(s[1..], x);
      if j == -1 then -1
      else
        assert s[..j + 1] == [s[0]] + s[1..][..j];
        j + 1
  }

  /** The number of occurrences of `x` in `s`. */
  function Count<T(==)>(s: seq<T>, x: T): nat {
    if s == [] then 0 else Count(s[..|s| - 1], x) + (if s[|s| - 1] == x then 1 else 0)
  }

  /** `s.split(sep)`: the pieces between the separators, left to right. */
  function Split(s: string, sep: char): (parts: seq<string>)
    ensures |parts| >= 1
    decreases |s|
  {
    var k := Find(s, 0, sep);
    if k == |s| then [s] else [s[..k]] + Split(s[k + 1..], sep)
  }

  /** `parts.join(sep)`. */
  function Join(parts: seq<string>, sep: char): string {
    if |parts| == 0 then []
    else if |parts| == 1 then parts[0]
    else parts[0] + [sep] + Join(parts[1..], sep)
  }

  /** A string holding no separator is one piece. */
  lemma SplitNoSeparator(s: string, sep: char)
    requires sep !in s
    ensures Split(s, sep) == [s]
  {
    assert Find(s, 0, sep) == |s|;
  }

  /** Splitting a piece free of the separator, then the separator, then the
      rest, gives the piece followed by the pieces of the rest. */
  lemma SplitCons(a: string, sep: char, b: string)
    requires sep !in a
    ensures Split(a + [sep] + b, sep) == [a] + Split(b, sep)
  {
    var s := a + [sep] + b;
    FindFirst(s, 0, |a|, sep);
    assert s[..|a|] == a && s[|a| + 1..] == b;
  }

  lemma {:induction false} FindFirst(s: string, i: nat, n: nat, x: char)
    requires i + n < |s| && s[i + n] == x
    requires forall j :: i <= j < i + n ==> s[j] != x
    ensures Find(s, i, x) == i + n
    decreases n
  {
    if n > 0 {
      FindFirst(s, i + 1, n - 1, x);
    }
  }

  /** Joining what `split` returned gives back the string. */
  lemma {:induction false} JoinSplit(s: string, sep: char)
    ensures Join(Split(s, sep), sep) == s
    decreases |s|
  {
    var k := Find(s, 0, sep);
    if k < |s| {
      var rest := s[k + 1..];
      JoinSplit(rest, sep);
      assert s == s[..k] + [sep] + rest;
    }
  }

  /** Splitting what `join` built gives back the pieces, when none holds the separator. */
  lemma {:induction false} SplitJoin(parts: seq<string>, sep: char)
    requires |parts| >= 1
    requires forall i :: 0 <= i < |parts| ==> sep !in parts[i]
    ensures Split(Join(parts, sep), sep) == parts
  {
    if |parts| == 1 {
      SplitNoSeparator(parts[0], sep);
    } else {
      SplitJoin(parts[1..], sep);
      SplitCons(parts[0], sep, Join(parts[1..], sep));
    }
  }

  /** No piece `split` returns holds the separator. */
  lemma {:induction false} SplitPiecesLackSeparator(s: string, sep: char)
    ensures forall i :: 0 <= i < |Split(s, sep)| ==> sep !in Split(s, sep)[i]
    decreases |s|
  {
    var k := Find(s, 0, sep);
    if k < |s| {
      SplitPiecesLackSeparator(s[k + 1..], sep);
    }
  }

  /** Every piece `split` returns is made of characters of the string, and
      there are two pieces or more only when the separator occurs. */
  lemma {:induction false} SplitWithin(s: string, sep: char)
    ensures forall i :: 0 <= i < |Split(s, sep)| ==> Within(Split(s, sep)[i], s)
    ensures |Split(s, sep)| >= 2 ==> sep in s
    decreases |s|
  {
    var k := Find(s, 0, sep);
    if k < |s| {
      SplitWithin(s[k + 1..], sep);
      assert forall c :: c in s[k + 1..] ==> c in s;
      assert forall c :: c in s[..k] ==> c in s;
    }
  }

  /** What `join` builds is made of the pieces' characters, and of the
      separator when there are two pieces or more. */
  lemma {:induction false} JoinWithin(parts: seq<string>, sep: char, s: string)
    requires forall i :: 0 <= i < |parts| ==> Within(parts[i], s)
    requires |parts| >= 2 ==> sep in s
    ensures Within(Join(parts, sep), s)
  {
    if |parts| >= 2 {
      JoinWithin(parts[1..], sep, s);
    }
  }

  /** A string made of the characters of a single line is on a single line. */
  lemma WithinOneLine(p: string, s: string)
    requires Within(p, s) && NoLineTerminators(s)
    ensures NoLineTerminators(p)
  {
    forall k | 0 <= k < |p|
      ensures !IsLineTerminator(p[k])
    {
      assert p[k] in s;
    }
  }
}
