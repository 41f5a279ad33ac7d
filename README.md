# chordnoob in Dafny

chordnoob is a preprocessor for ChordPro song sheets. It provides two shortcuts:

- **Nashville numbers.** A chord may be written as a scale degree: `[1]`, `[4]`, `[b7]`, `[6m7]`, `[1/3]`. It is converted into a chord name in the key that the song's `{key: X}` directive gives.
- **Chord queues.** A `{q: [1] [4] [5]}` line loads a queue of chords and disappears from the output. Every `_` on a later line takes the next chord from the front of the queue.

Misuse produces warnings instead of errors:

- no key in the document;
- an `_` when the queue is empty;
- a queue replaced while it still held chords;
- chords left in the queue at the end.

This project models the four core files and proves what they promise.

- `nashville.dfy` (module `Nashville`) models `src/nashville.ts`. It holds the note tables, `getChordRoot`, `parseNashvilleNumber`, `isNashvilleNumber`, `applyAccidental`, `nashvilleToChord` and `convertChordWithSlashes`. It also holds the "convert when a key is set and the chord holds a `/` or looks like a Nashville number, otherwise keep it" rule that both `processor.ts` and `streaming.ts` apply. Thrown errors become a `Result`.
- `chord_queue.dfy` (module `ChordQueue`) models `src/chordQueue.ts`: `parseQueueDirective` and the two loops of `processChordQueue`. Each loop has a specification function and a method with loop invariants that is proved equal to it.
- `processor.dfy` (module `Processor`) models `src/processor.ts`: `extractKey`, `extractKeyIgnoringComments` and the whole-document pass `processChordNoob`.
- `streaming.dfy` (module `Streaming`) models the line-at-a-time `ChordNoobParser` class of `src/streaming.ts`. It is a Dafny class with the same fields. Its methods are proved against pure functions over a `ParserState` value.
- `strings.dfy` (module `Strings`) and `patterns.dfy` (module `Patterns`) hold the JavaScript string operations and the regular expressions that the four files use. `split`, `join`, `indexOf`, `trim().startsWith("#")` and `\s` are in `Strings`.

Each regular expression is modelled as a recognizer: a function that, at the start of a string, returns the capture and the length of the match. The recognizers have lemmas in both directions, so a match happens exactly on text of the described shape. A global `match` or `matchAll` is a left-to-right scan over such a recognizer.

## Model

| member | source | states |
|---|---|---|
| Strings.IndexOf | src/nashville.ts:74 | `indexOf` returns -1 exactly when the value is absent; otherwise it returns an index holding the value, with no earlier occurrence |
| Strings.JoinSplit | src/chordQueue.ts:43 | joining the pieces that `split("\n")` produced gives back the text |
| Strings.SplitJoin | src/processor.ts:59 | splitting a join gives back the pieces, when there is at least one piece and none holds the separator (joining no pieces gives "", which splits into one empty piece) |
| Strings.SplitPiecesLackSeparator | src/chordQueue.ts:43 | no piece of a split holds the separator |
| Strings.SplitWithin | src/processor.ts:93 | every piece is made of the text's characters; two or more pieces occur only if the separator occurs |
| Strings.NotCommentLine | src/processor.ts:62 | a line whose first character is neither whitespace nor `#` is not a comment line (`trim().startsWith("#")`) |
| Patterns.KeyDirectiveAt | src/processor.ts:23 | a match of `\{key:\s*([A-G][b#]?)\}` is `{key:`, whitespace, a key name and `}`; the capture is the key name |
| Patterns.KeyDirectiveComplete | src/processor.ts:23 | every text of that shape matches, with that capture and length (the converse direction) |
| Patterns.QueueDirectiveAt | src/chordQueue.ts:21 | a match of `\{q:\s*(.*?)\}` is `{q:`, whitespace, then a body up to the first `}`; the body holds no line terminator and does not start with whitespace |
| Patterns.QueueDirectiveComplete | src/chordQueue.ts:21 | every text of that shape matches, with that body (the converse direction) |
| Patterns.BracketAt | src/chordQueue.ts:27 | a match of `\[([^\]]+)\]` is `[`, a non-empty chord without `]`, then `]` |
| Patterns.BracketComplete | src/chordQueue.ts:27 | every such bracket matches (the converse direction) |
| Patterns.SearchFinds | src/processor.ts:23 | `match` without `g` finds the leftmost position where the pattern matches, and finds nothing only when no position matches |
| Patterns.BracketContents | src/chordQueue.ts:27-31 | every chord `matchAll` collects is non-empty, holds no `]` and is made of the text's characters |
| Patterns.BracketContentsAfterWhitespace | src/chordQueue.ts:27-31 | whitespace in front of the brackets does not change the chords read |
| Patterns.BracketContentsSpaced | src/chordQueue.ts:27-31 | brackets `[c1] ws1 [c2] ws2 ...` spaced by any whitespace read back as exactly `c1, c2, ...`, in order |
| Patterns.SpacedOneLine | src/chordQueue.ts:21 | spaced brackets open with `[` and, with one-line spacing, hold no `}` or line terminator, so the lazy `(.*?)\}` body takes them whole |
| Patterns.ReplaceBracketedFixed | src/processor.ts:68 | a `replace` whose callback keeps every chord it meets leaves the line unchanged |
| Patterns.ReplaceBracketedWithin | src/processor.ts:68 | a `replace` whose callback uses only the chord's characters and some extra characters yields only the line's characters and those extra characters |
| Patterns.DirectivesNeedBrace | src/streaming.ts:37 | neither directive matches at a character other than `{` |
| Patterns.SearchWithoutBrace | src/processor.ts:23 | a text without `{` holds no key directive and no queue directive |
| Patterns.QueueDirectiveIsNotKey | src/streaming.ts:37 | the queue alternative and the key alternative never both match at one position |
| Nashville.SharpNameIsTable | src/nashville.ts:22-35 | entry `j` of `CHROMATIC` is the letter of pitch class `j`, or the letter below followed by `#` |
| Nashville.ChromaticIndexIsIndexOf | src/nashville.ts:74 | the letter-based lookup equals `CHROMATIC.indexOf` over the twelve-entry table |
| Nashville.ChromaticIndexOfName | src/nashville.ts:22-35 | every table entry is found at its own index |
| Nashville.ChromaticIndexFound | src/nashville.ts:22-35 | a spelling that is found is the table entry at that index |
| Nashville.FlatToSharpIsTable | src/nashville.ts:38-44 | the lookup is exactly the five-entry `FLAT_TO_SHARP` table |
| Nashville.SharpToFlatIsTable | src/nashville.ts:47-53 | the lookup is exactly the five-entry `FLAT_NOTES` table, which `SHARP_TO_FLAT` (lines 111-117) repeats |
| Nashville.IsFlatKeyIsTable | src/nashville.ts:56 | a key is flat exactly when it is in the six-entry `FLAT_KEYS` set |
| Nashville.DegreeInterval | src/nashville.ts:59 | `MAJOR_SCALE_INTERVALS[(degree - 1) % 7]` is a semitone count within the octave for every degree from 1 up |
| Nashville.KnownSpellings | src/nashville.ts:69-75 | a note has a pitch class exactly when it is in `CHROMATIC` or in `FLAT_TO_SHARP` |
| Nashville.SpellPitch | src/nashville.ts:81-86 | spelling a pitch class and looking it up are inverse; a flat spelling has no `#`; a sharp spelling has no `b` and is a table entry |
| Nashville.SpellOfPitch | src/nashville.ts:81-86 | every known note is the spelling of its pitch class in its own style (the other direction) |
| Nashville.RespellFlat | src/nashville.ts:84-86 | a table entry respelled through `FLAT_NOTES`, when flat spelling is asked for, is the flat spelling of its pitch class |
| Nashville.GetChordRoot | src/nashville.ts:67-89 | fails, with the invalid-key error, exactly when the key has no pitch class; otherwise the root is the pitch class (key + interval of the degree) mod 12, spelled with flats exactly in a flat key |
| Nashville.ChordRootPitch | src/nashville.ts:74-86 | the root's pitch class is (key + interval) mod 12; in a flat key it has no `#`, otherwise it is a `CHROMATIC` entry |
| Nashville.ParseNashvilleNumber | src/nashville.ts:95-106 | a parse has a degree 1-7, an accidental `""`, `b` or `#`, and a quality with no line terminator; writing the parts out gives the input back |
| Nashville.ParseFormat | src/nashville.ts:95-106 | every well-formed number is parsed back from its text (the round trip in the other direction) |
| Nashville.LooksNashvilleIffParses | src/nashville.ts:181-183 | whatever `parseNashvilleNumber` accepts passes `isNashvilleNumber`; the converse holds on text without line terminators |
| Nashville.ApplyAccidental | src/nashville.ts:125-150 | fails exactly on an unknown note with a non-empty accidental; no accidental keeps the note; `#` gives the sharp spelling and `b` the flat spelling of the pitch class one semitone up or down |
| Nashville.AccidentalPitch | src/nashville.ts:138-146 | `#` raises the pitch class by one semitone and `b` lowers it by one, modulo 12 |
| Nashville.AccidentalsCancel | src/nashville.ts:125-150 | `#` then `b`, or `b` then `#`, gives back the note's pitch class |
| Nashville.NashvilleToChordFailure | src/nashville.ts:161-166 | conversion fails exactly on text that does not parse (that error) or on an unknown key (the invalid-key error) |
| Nashville.NashvilleToChordSuccess | src/nashville.ts:161-175 | the chord is the spelling of (key + interval + accidental) mod 12 followed by the quality as written; it uses flats after `b`, sharps after `#`, and the key's style otherwise |
| Nashville.ConvertPartsSpec | src/nashville.ts:199-208 | the map succeeds exactly when every part converts, and then holds each part's conversion in order; a failure carries the error of the first failing part |
| Nashville.ConvertPartChars | src/nashville.ts:201-208 | a converted part is made of the part's characters and note characters |
| Nashville.ConvertChordWithSlashesParts | src/nashville.ts:198-210 | on success, the result splits at `/` into exactly the converted parts |
| Nashville.ConvertChordWithSlashesKeeps | src/nashville.ts:198-210 | a chord none of whose parts looks like a Nashville number is returned unchanged |
| Nashville.ConvertChordWithSlashesFails | src/nashville.ts:198-210 | on one line, conversion fails exactly when the key is unknown and some part looks like a Nashville number |
| Nashville.PartFails | src/nashville.ts:203-205 | one part fails exactly when it looks like a Nashville number and the key is unknown |
| Nashville.RewriteUnknownKey | src/processor.ts:70-82 | with a key that has no pitch class (`E#`, `Cb`, ...), the catch keeps every chord as written |
| Nashville.RewriteChordChars | src/processor.ts:68-83 | a rewritten chord is made of the chord's characters and note characters, so it gains no line break |
| ChordQueue.ParseQueueDirectiveFinds | src/chordQueue.ts:20-34 | there is a queue exactly when a `{q:...}` directive matches somewhere in the line; every queued chord is non-empty, single-line and holds no `]` or `}` |
| ChordQueue.ParseQueueDirectiveBody | src/chordQueue.ts:20-34 | for any body `b` after the whitespace (no `}`, no line break, not starting with whitespace), `{q:` w b `}` rest parses to the chords in the brackets of `b`, in order; an empty or bracket-free body gives no chords |
| ChordQueue.ParseQueueDirectiveSpaced | src/chordQueue.ts:20-34 | brackets spaced by any one-line whitespace inside `{q:` ... `}` parse back to exactly the chords written (a round trip) |
| ChordQueue.ParseQueueDirectiveWideSpacing | src/chordQueue.ts:20-34 | `{q:  [1]   [4]   [5]  }`, followed by anything, parses to `1, 4, 5` |
| ChordQueue.FillLineConserves | src/chordQueue.ts:74-93 | the chords a line takes are a prefix of the queue, and the rest is what stays queued; the number of `_` equals the chords taken plus the warnings; every warning is an empty-queue warning for this line; a warning comes only once the queue is empty |
| ChordQueue.FillLineAppend | src/chordQueue.ts:72-93 | filling `x + y` fills `x`, then fills `y` from the queue `x` left; the texts and the warnings are concatenated in that order |
| ChordQueue.FillLineFront | src/chordQueue.ts:77-88 | with chords queued, the text before the first `_` is copied, that `_` becomes `[` + the front chord + `]`, and the rest of the line is filled from the queue's tail; so the k-th served `_` gets the k-th chord |
| ChordQueue.FillLineEmptyFront | src/chordQueue.ts:77-84 | with the queue empty, the first `_` stays `_` and gives one empty-queue warning at this line, ahead of the rest of the line's warnings |
| ChordQueue.FillLineNoUnderscore | src/chordQueue.ts:74-93 | a line without `_` is copied and leaves the queue alone |
| ChordQueue.FillLineAvoids | src/chordQueue.ts:74-93 | filling adds no character that is absent from the line, from the queued chords and from `_[]` |
| ChordQueue.QueueLinesDirective | src/chordQueue.ts:54-68 | a directive line replaces the queue, records its line, outputs nothing, and warns at the old queue's line (1-based) with the old count when chords were left |
| ChordQueue.QueueLinesFilled | src/chordQueue.ts:72-95 | any other line is filled from the queue, with warnings at its 1-based line number, and output |
| ChordQueue.QueueLinesOrigin | src/chordQueue.ts:47-48 | the recorded queue line is -1 or a line already read, and is a real line whenever chords are queued |
| ChordQueue.QueueLinesWarningLines | src/chordQueue.ts:58-82 | every warning points at a line of the input, counted from 1 |
| ChordQueue.QueueLinesOutputCount | src/chordQueue.ts:56-95 | every line except a directive line is output |
| ChordQueue.QueueLinesOneLine | src/chordQueue.ts:87-88 | queued chords and filled lines hold no line break |
| ChordQueue.QueueLinesIdentity | src/chordQueue.ts:50-96 | lines without `_` and `{` are output as they are, with nothing queued and no warning |
| ChordQueue.QueueLinesConserve | src/chordQueue.ts:54-95 | every declared chord so far is taken by exactly one `_`, reported once as unused by a replaced queue, or still queued; every `_` that took nothing warned |
| ChordQueue.QueuePassConserves | src/chordQueue.ts:42-110 | over the document: chords declared + empty-queue warnings = `_` placeholders + chords reported unused (replaced queues and the queue left at the end) |
| ChordQueue.QueuePassLines | src/chordQueue.ts:106-108 | splitting the output gives exactly the filled lines whenever at least one line is output (with none, the output is the empty string) |
| ChordQueue.QueuePassIdentity | src/chordQueue.ts:42-110 | a document without `_` and `{` passes through unchanged, with no warning |
| ChordQueue.ProcessChordQueue | src/chordQueue.ts:42-110 | the loops compute exactly the queue pass of the text |
| ChordQueue.ReadLine | src/chordQueue.ts:51-95 | one pass of the outer loop moves the state from the first `i` lines to the first `i + 1` |
| ChordQueue.FillUnderscores | src/chordQueue.ts:72-93 | the character loop computes the filled line, the rest of the queue and the line's warnings |
| Processor.ExtractKeyFinds | src/processor.ts:22-26 | a key is found exactly when a key directive matches somewhere, and it is a key name |
| Processor.ExtractKeyRender | src/processor.ts:22-26 | the first `{key: X}`, after text without `{`, gives `X` |
| Processor.FirstKeyFinds | src/processor.ts:92-101 | the key found is `X` exactly when some non-comment line has key `X` and no earlier non-comment line has a key |
| Processor.FirstKeyWithoutBrace | src/processor.ts:92-101 | a text without `{` has no key |
| Processor.ExtractKeyIgnoringComments | src/processor.ts:92-101 | the loop returns the key of the first non-comment line that has one |
| Processor.ReplaceBracketsUnknownKey | src/processor.ts:68-83 | with an unknown key, no bracket in the line changes |
| Processor.ReplaceBracketsPlainChords | src/processor.ts:70-73 | a line whose chords have no `/` and do not look like Nashville numbers is unchanged |
| Processor.ReplaceBracketsBracket | src/processor.ts:68-83 | a bracket is replaced by `[` + its rewritten chord + `]`, and the scan resumes after its `]` |
| Processor.ReplaceBracketsChars | src/processor.ts:68-83 | the rewritten line is made of the line's characters and note characters |
| Processor.ProcessChordNoob | src/processor.ts:37-87 | the method computes the document result: key lookup, queue pass, then per-line conversion |
| ChordQueue.QueueLinesKinds | src/chordQueue.ts:58-93 | the queue pass's per-line warnings are never missing-key warnings |
| Processor.ChordNoobWarnings | src/processor.ts:38-51 | the missing-key warning is present exactly when no key is found; it is then the only added warning, at line 1 and first, followed by the queue pass's warnings in their order; with a key the warnings are exactly the queue pass's |
| Processor.ChordNoobWithoutKey | src/processor.ts:53-56 | without a key, the output is the queue pass's output |
| Processor.ChordNoobLines | src/processor.ts:59-86 | with a key, the output's lines are the queue pass's lines, each converted on its own |
| Processor.ChordNoobCommentLines | src/processor.ts:62-64 | a comment line of the queue pass's output comes through the conversion unchanged |
| Processor.ChordNoobUnknownKey | src/processor.ts:68-83 | a key the tables do not know changes no chord |
| Processor.ChordNoobPlainText | src/processor.ts:37-87 | a document without `{` and `_` comes out unchanged, with only the missing-key warning |
| Streaming.MatchAt | src/streaming.ts:37 | the token regex fails only at a line terminator; a match consumes 1 to all remaining characters; a comment consumes the rest of the line |
| Streaming.RunTokensProgress | src/streaming.ts:54-120 | the token loop keeps the line number, only appends to warnings and output, and never replaces a key once set |
| Streaming.ProcessLineProgress | src/streaming.ts:42-123 | `processLine` counts exactly one line, only appends warnings, and keeps the first key for good |
| Streaming.RunTokensValid | src/streaming.ts:54-120 | the token loop keeps warnings and the queue's line among the lines read |
| Streaming.ProcessLineValid | src/streaming.ts:42-123 | `processLine` keeps that invariant, which also says that no warning reports a missing key |
| Streaming.FinalizeValid | src/streaming.ts:174-184 | `finalize` keeps the invariant and reports leftover chords at the line that queued them |
| Streaming.FinalizeRepeats | src/streaming.ts:174-184 | the queue is not emptied, so a second `finalize` repeats the warning |
| Streaming.ProcessLineComment | src/streaming.ts:43-48 | a comment line is returned as it is; only the line count moves |
| Streaming.PlainLine | src/streaming.ts:42-123 | a line with no `{`, no `_` and no line terminator comes out unchanged, and only the line count moves, when no key is set or the line has no `[` |
| Streaming.NoChordTokens | src/streaming.ts:148-150 | a text without `[` tokenizes into no chord token |
| Streaming.PlainTokens | src/streaming.ts:128-169 | such a line tokenizes into chords, text and comments that, written out, give the line back |
| Streaming.RunPlainTokens | src/streaming.ts:99-118 | text and comment tokens are output as written, and so are chords while no key is set |
| Streaming.KeyDirectiveLine | src/streaming.ts:56-62 | a key directive line outputs `{key: X}` and sets the key only if none is set |
| Streaming.QueueDirectiveLine | src/streaming.ts:64-75 | a queue directive line with any non-empty body outputs nothing, loads the chords in the body's brackets (none when it has no bracket), records its line, and warns about an unconsumed earlier queue at that queue's line |
| Streaming.QueueBodyTokens | src/streaming.ts:139-147 | a queue directive with any non-empty body is one token holding the chords in the body's brackets, followed by the tokens of the rest of its line |
| Streaming.QueueSpacedTokens | src/streaming.ts:139-147 | brackets spaced by any one-line whitespace make one queue token holding exactly the chords written |
| Streaming.QueueOneFourFive | src/streaming.ts:139-147 | `{q:[1] [4] [5]}` followed by anything is the token queueing `1, 4, 5`, then the tokens of the rest |
| Streaming.QueueDirectiveThenRest | src/streaming.ts:64-75 | for any non-empty body, only the directive is dropped from its line: the queue is loaded from the body's brackets (with the unused-queue warning), then the rest of the line is processed from that state |
| Streaming.FirstTokenThenRest | src/streaming.ts:42-54 | a non-comment line is counted, its first token is run, and the rest of the line continues from the state and output that token leaves |
| Streaming.KeyDirectiveThenRest | src/streaming.ts:56-62 | a key directive opening a line outputs `{key: X}`, sets the key only if none is set, and the rest of the line follows under that key |
| Streaming.UnderscoreThenRest | src/streaming.ts:77-97 | a `_` opening a line takes and converts the next queued chord (or stays `_` and warns at this line when none is queued), and the rest of the line follows from the shortened queue |
| Streaming.BracketThenRest | src/streaming.ts:99-113 | a bracket `[x]` opening a line is rewritten under the key known so far, and the rest of the line follows from the same state |
| Streaming.RunTokensNoMissingKey | src/streaming.ts:54-120 | the token loop adds no missing-key warning |
| Streaming.ParserNoMissingKey | src/streaming.ts:42-123 | neither `processLine` nor `finalize` (lines 174-184) adds a missing-key warning, unlike the whole-document pass |
| Streaming.EmptyQueueDirectiveLine | src/streaming.ts:139-163 | `{q:}` has a falsy capture, so it is output as text and the queue stays |
| Streaming.EmptyQueueDirectiveThenRest | src/streaming.ts:139-163 | `{q:}` opening a line is output as text, the queue stays, and the rest of the line follows from the same state |
| Streaming.UnderscoreLine | src/streaming.ts:77-97 | `_` takes and converts the next queued chord; with nothing queued it stays `_` and warns at the current line |
| Streaming.BracketLine | src/streaming.ts:99-113 | `[x]` is rewritten as the whole-document pass rewrites it under the key known so far |
| Streaming.HashTakesRest | src/streaming.ts:154-163 | from a `#`, the rest of the line is one text or comment token, copied out unchanged |
| Streaming.ChordNoobParser.constructor | src/streaming.ts:30-34 | a new parser has no key, an empty queue, queue line -1, line 0 and no warnings |
| Streaming.ChordNoobParser.ProcessLine | src/streaming.ts:42-123 | the returned line and the new fields are exactly what processing the line from the old fields gives, and the invariant holds |
| Streaming.ChordNoobParser.TokenizeLine | src/streaming.ts:128-169 | the `exec` loop returns the line's tokens, stopping after a comment |
| Streaming.ChordNoobParser.Finalize | src/streaming.ts:174-184 | the fields become those after the leftover warning, and the warnings are returned |
| Streaming.ChordNoobParser.GetWarnings | src/streaming.ts:189-191 | returns the warnings and changes nothing |

## Left out

- `index.ts` (reading files and standard input, printing) is not part of this model. The core receives its text as a parameter.
- Warning messages are modelled as a `WarningKind` and its chord count, not as message strings. The line numbers are modelled exactly.
- Thrown errors (`Invalid key`, `Invalid Nashville number`, unknown note) are a `Result` with one error value per message. The `try`/`catch` in the callers becomes a `match`.
- JavaScript strings are sequences of UTF-16 code units. The model works on `char`s and does not distinguish surrogate pairs. The regular expressions' line terminators (`\n`, `\r`, U+2028, U+2029) and `\s` are modelled as JavaScript defines them.
- The regular expressions are modelled as recognizers plus a left-to-right scan. The `lastIndex` of the stateful `tokenRegex` field is modelled as the rest of the line still to scan, so the field itself is not modelled.
- The note tables are modelled as functions of the letter and the accidental. Each has a lemma showing it equals the literal table.
- Object lookups such as `FLAT_TO_SHARP[key]`, and `as Note` casts, are modelled on the five real entries. Prototype keys such as `constructor` are not given the behaviour an object lookup would give them.
- `getWarnings` returns a copy of the array. In the model, sequences are values, so the copy and the original cannot alias. `finalize` returns the live array; the model returns its value.
- A bare degree such as `[2]` yields a major chord: `nashvilleToChord` (src/nashville.ts:161-175) appends the quality as written and has no per-degree default.
- The streaming parser and the whole-document pass are each modelled and proved on their own. No lemma states that they give the same output for a document. Lemmas state where they differ: the parser drops only the directive from a queue line (`Streaming.QueueDirectiveThenRest`), and it never reports a missing key (`Streaming.ParserNoMissingKey`).
- `processChordQueue`'s character loop uses `queue.shift()` on a mutable array. The model's queue is a sequence that the loop replaces with its tail.
