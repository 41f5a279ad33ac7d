/**
  * The Nashville Number converter of src/nashville.ts: chords written as a
  * scale degree of the song's key (`4m7`, `b3`, `1/5`) become chord names
  * (`Fm7`, `Eb`, `C/G` in C). Notes are strings; a note's pitch class is its
  * index in the twelve-entry chromatic table. Thrown errors become `Fail`.
  *
  * The source's lookup tables are string arrays and dictionaries. Here each
  * lookup is a function that reads a spelling's letter and accidental, and a
  * lemma next to it shows that it gives what the literal table gives.
  */
module Nashville {
  import opened Strings

  /** The twelve pitch classes in sharp spelling: a pitch class is an index here. */
  const Chromatic: seq<string> := ["C", "C#", "D", "D#", "E", "F", "F#", "G", "G#", "A", "A#", "B"]

  /** The keys whose chords are spelled with flats. */
  const FlatKeys: set<string> := {"F", "Bb", "Eb", "Ab", "Db", "Gb"}

  /** Semitones from the tonic to each degree of the major scale. */
  const MajorScaleIntervals: seq<int> := [0, 2, 4, 5, 7, 9, 11]

  /** The pitch class of a natural note letter, or -1 for any other character. */
  function LetterPitch(c: char): (p: int)
    ensures -1 <= p < 12
  {
    if c == 'C' then 0 else if c == 'D' then 2 else if c == 'E' then 4 else if c == 'F' then 5
    else if c == 'G' then 7 else if c == 'A' then 9 else if c == 'B' then 11 else -1
  }

  /** The pitch classes of the seven letters. */
  predicate IsNatural(j: int) {
    j == 0 || j == 2 || j == 4 || j == 5 || j == 7 || j == 9 || j == 11
  }

  /** The letter of a natural pitch class. */
  function Letter(j: int): (c: char)
    requires IsNatural(j)
    ensures LetterPitch(c) == j
  {
    if j == 0 then 'C' else if j == 2 then 'D' else if j == 4 then 'E' else if j == 5 then 'F'
    else if j == 7 then 'G' else if j == 9 then 'A' else 'B'
  }

  /** A pitch class that is not natural lies between two that are. */
  lemma Between(j: int)
    requires 0 <= j < 12 && !IsNatural(j)
    ensures IsNatural(j - 1) && IsNatural(j + 1) && j - 1 != 4 && j - 1 != 11
  {
  }

  /** Entry `j` of the chromatic table: the letter, or the letter below and a sharp. */
  function SharpName(j: int): (note: string)
    requires 0 <= j < 12
  {
    if IsNatural(j) then [Letter(j)] else Between(j); [Letter(j - 1), '#']
  }

  /** The flat spelling of pitch class `j`: the letter, or the letter above and a flat. */
  function FlatName(j: int): (note: string)
    requires 0 <= j < 12
  {
    if IsNatural(j) then [Letter(j)] else Between(j); [Letter(j + 1), 'b']
  }

  /** `SharpName` is the chromatic table. */
  lemma SharpNameIsTable(j: int)
    requires 0 <= j < 12
    ensures SharpName(j) == Chromatic[j]
  {
  }

  /** `CHROMATIC.indexOf(note)`: a letter, or one of C D F G A followed by a sharp. */
  function ChromaticIndex(note: string): (i: int)
    ensures -1 <= i < 12
  {
    if |note| == 1 then LetterPitch(note[0])
    else if |note| == 2 && note[1] == '#' && LetterPitch(note[0]) >= 0 && note[0] != 'E' && note[0] != 'B' then
      LetterPitch(note[0]) + 1
    else -1
  }

  /** Every entry of the table is found at its own index. */
  lemma ChromaticIndexOfName(j: int)
    requires 0 <= j < 12
    ensures ChromaticIndex(SharpName(j)) == j
  {
    if !IsNatural(j) {
      Between(j);
    }
  }

  /** A spelling that is found is the table's entry at that index. */
  lemma ChromaticIndexFound(note: string)
    requires ChromaticIndex(note) >= 0
    ensures note == SharpName(ChromaticIndex(note))
  {
    var c := note[0];
    assert LetterPitch(c) >= 0;
    assert Letter(LetterPitch(c)) == c;
  }

  /** The lookup is the first-occurrence search `CHROMATIC.indexOf` over the table. */
  lemma ChromaticIndexIsIndexOf(note: string)
    ensures ChromaticIndex(note) == IndexOf(Chromatic, note)
  {
    var i := IndexOf(Chromatic, note);
    if i >= 0 {
      SharpNameIsTable(i);
      ChromaticIndexOfName(i);
    }
    if ChromaticIndex(note) >= 0 {
      ChromaticIndexFound(note);
      SharpNameIsTable(ChromaticIndex(note));
    }
  }

  /** `FLAT_TO_SHARP[note]`: a flat one semitone above a letter that has a sharp. */
  function FlatToSharp(note: string): Option<string> {
    if |note| == 2 && note[1] == 'b' && LetterPitch(note[0]) > 0 && !IsNatural(LetterPitch(note[0]) - 1) then
      Some(SharpName(LetterPitch(note[0]) - 1))
    else
      None
  }

  /** `FlatToSharp` is the five-entry table of the source. */
  lemma FlatToSharpIsTable(note: string)
    ensures FlatToSharp(note) ==
      if note == "Db" then Some("C#") else if note == "Eb" then Some("D#")
      else if note == "Gb" then Some("F#") else if note == "Ab" then Some("G#")
      else if note == "Bb" then Some("A#") else None
  {
  }

  /** `FLAT_NOTES[note]` and `SHARP_TO_FLAT[note]`, which are the same table:
      the flat spelling of a sharp from the chromatic table. */
  function SharpToFlat(note: string): Option<string> {
    var i := ChromaticIndex(note);
    if |note| == 2 && i >= 0 then Some(FlatName(i)) else None
  }

  /** `SharpToFlat` is the five-entry table of the source. */
  lemma SharpToFlatIsTable(note: string)
    ensures SharpToFlat(note) ==
      if note == "C#" then Some("Db") else if note == "D#" then Some("Eb")
      else if note == "F#" then Some("Gb") else if note == "G#" then Some("Ab")
      else if note == "A#" then Some("Bb") else None
  {
  }

  /** `FLAT_KEYS.has(key)`: F, or one of the five flats. */
  predicate IsFlatKey(key: string) {
    (|key| == 1 && key[0] == 'F') || FlatToSharp(key).Some?
  }

  /** `IsFlatKey` is membership in the six-entry set of the source. */
  lemma IsFlatKeyIsTable(key: string)
    ensures IsFlatKey(key) <==> key in FlatKeys
  {
    FlatToSharpIsTable(key);
    if |key| == 1 && key[0] == 'F' {
      assert key == "F";
    }
  }

  /** `MAJOR_SCALE_INTERVALS[(degree - 1) % 7]`: degrees past 7 wrap round the octave. */
  function DegreeInterval(degree: int): (semitones: int)
    requires degree >= 1
    ensures 0 <= semitones < 12
  {
    MajorScaleIntervals[(degree - 1) % 7]
  }

  datatype ConversionError =
    | InvalidKey(key: string)
    | InvalidNashvilleNumber(input: string)
    | UnknownNote(note: string)

  datatype Result<T> = Ok(value: T) | Fail(error: ConversionError) {
    predicate IsFailure() { Fail? }
    function PropagateFailure<U>(): Result<U> requires Fail? { Fail(error) }
    function Extract(): T requires Ok? { value }
  }

  /** The pitch class a spelling names, or -1: a flat spelling is looked up
      through its sharp equivalent, as `getChordRoot` does with its key. */
  function PitchClass(note: string): int {
    ChromaticIndex(match FlatToSharp(note) case Some(sharp) => sharp case None => note)
  }

  /** The spellings the converter knows: the twelve table entries and the five flats. */
  lemma KnownSpellings(note: string)
    ensures PitchClass(note) >= 0 <==> note in Chromatic || FlatToSharp(note).Some?
  {
    ChromaticIndexIsIndexOf(note);
    if FlatToSharp(note).Some? {
      ChromaticIndexOfName(LetterPitch(note[0]) - 1);
    }
  }

  /** The note of pitch class `j`, spelled with a flat or with a sharp where it needs one. */
  function Spell(j: int, flat: bool): string
    requires 0 <= j < 12
  {
    if flat then FlatName(j) else SharpName(j)
  }

  /** Spelling and looking up are inverse: a spelling names its pitch class,
      uses the accidental it was asked for, and is made of note characters. */
  lemma SpellPitch(j: int, flat: bool)
    requires 0 <= j < 12
    ensures PitchClass(Spell(j, flat)) == j
    ensures flat ==> '#' !in Spell(j, flat)
    ensures !flat ==> 'b' !in Spell(j, flat) && Spell(j, flat) in Chromatic
  {
    if !IsNatural(j) {
      Between(j);
      ChromaticIndexOfName(j);
    }
    SharpNameIsTable(j);
  }

  /** And every known spelling is the spelling of its pitch class, in the style
      its accidental shows: so two spellings of one pitch class in the same style
      are the same note. */
  lemma SpellOfPitch(note: string)
    requires PitchClass(note) >= 0
    ensures note == Spell(PitchClass(note), '#' !in note)
  {
    match FlatToSharp(note)
    case Some(sharp) =>
      var j := LetterPitch(note[0]);
      assert Letter(j) == note[0];
      ChromaticIndexOfName(j - 1);
      Between(j - 1);
      assert note == [note[0], 'b'];
    case None =>
      ChromaticIndexFound(note);
      if |note| == 1 {
        assert '#' !in note;
      }
  }

  /** The flat respelling of a table entry, as `getChordRoot` and
      `applyAccidental` do it, is the flat spelling of its pitch class. */
  lemma RespellFlat(j: int, flat: bool)
    requires 0 <= j < 12
    ensures (if flat then (match SharpToFlat(SharpName(j)) case Some(f) => f case None => SharpName(j))
      else SharpName(j)) == Spell(j, flat)
  {
    ChromaticIndexOfName(j);
  }

  /** `getChordRoot`: the root of the chord on scale degree `degree` of `key`,
      spelled with flats in a flat key. */
  function GetChordRoot(key: string, degree: int): (r: Result<string>)
    requires degree >= 1
    ensures r.Fail? <==> PitchClass(key) == -1
    ensures r.Fail? ==> r.error == InvalidKey(key)
    ensures r.Ok? ==> r.value == Spell((PitchClass(key) + DegreeInterval(degree)) % 12, IsFlatKey(key))
  {
    var lookupKey := match FlatToSharp(key) case Some(sharp) => sharp case None => key;
    var keyIndex := ChromaticIndex(lookupKey);
    if keyIndex == -1 then Fail(InvalidKey(key))
    else
      var chordIndex := (keyIndex + DegreeInterval(degree)) % 12;
      var note := SharpName(chordIndex);
      assert keyIndex == PitchClass(key);
      RespellFlat(chordIndex, IsFlatKey(key));
      Ok(if IsFlatKey(key) then (match SharpToFlat(note) case Some(flat) => flat case None => note) else note)
  }

  /** In a key the tables know, the root lies the degree's interval above the
      key, modulo the octave; it is spelled without sharps in a flat key and is
      an entry of the chromatic table otherwise. */
  lemma ChordRootPitch(key: string, degree: int)
    requires degree >= 1 && PitchClass(key) >= 0
    ensures PitchClass(GetChordRoot(key, degree).value) == (PitchClass(key) + DegreeInterval(degree)) % 12
    ensures IsFlatKey(key) ==> '#' !in GetChordRoot(key, degree).value
    ensures !IsFlatKey(key) ==> GetChordRoot(key, degree).value in Chromatic
  {
    SpellPitch((PitchClass(key) + DegreeInterval(degree)) % 12, IsFlatKey(key));
  }

  /** A parsed Nashville number. */
  datatype NashvilleNumber = NashvilleNumber(accidental: string, degree: int, quality: string)

  predicate IsAccidental(c: char) { c == 'b' || c == '#' }

  /** What `[b#]?` matches. */
  predicate IsAccidentalText(a: string) {
    a == "" || a == "b" || a == "#"
  }

  predicate IsDegree(c: char) { '1' <= c <= '7' }

  function DegreeChar(d: int): char
    requires 1 <= d <= 7
  {
    ('0' as int + d) as char
  }

  /** The text a parsed number came from. */
  function Format(n: NashvilleNumber): string
    requires 1 <= n.degree <= 7
  {
    n.accidental + [DegreeChar(n.degree)] + n.quality
  }

  /** `parseNashvilleNumber`: `^([b#]?)([1-7])(.*)$`, where `.` matches no line terminator. */
  function ParseNashvilleNumber(input: string): (r: Option<NashvilleNumber>)
    ensures r.Some? ==>
      && 1 <= r.value.degree <= 7
      && IsAccidentalText(r.value.accidental)
      && NoLineTerminators(r.value.quality)
      && Format(r.value) == input
  {
    var k := if |input| > 0 && IsAccidental(input[0]) then 1 else 0;
    if k < |input| && IsDegree(input[k]) && NoLineTerminators(input[k + 1..]) then
      var n := NashvilleNumber(input[..k], input[k] as int - '0' as int, input[k + 1..]);
      assert k == 1 ==> input[..k] == [input[0]];
      assert input == input[..k] + [input[k]] + input[k + 1..];
      Some(n)
    else
      None
  }

  /** Every well-formed number is read back from its text. */
  lemma ParseFormat(n: NashvilleNumber)
    requires 1 <= n.degree <= 7 && IsAccidentalText(n.accidental)
    requires NoLineTerminators(n.quality)
    ensures ParseNashvilleNumber(Format(n)) == Some(n)
  {
    var s := Format(n);
    var k := |n.accidental|;
    assert s[..k] == n.accidental;
    assert s[k] == DegreeChar(n.degree);
    assert s[k + 1..] == n.quality;
  }

  /** `isNashvilleNumber`: `^[b#]?[1-7]`, a test on the first two characters only. */
  predicate IsNashvilleNumber(s: string) {
    || (|s| >= 1 && IsDegree(s[0]))
    || (|s| >= 2 && IsAccidental(s[0]) && IsDegree(s[1]))
  }

  /** The quick test and the parser agree, except on text after the degree
      that holds a line terminator, which only the parser refuses. */
  lemma LooksNashvilleIffParses(s: string)
    ensures ParseNashvilleNumber(s).Some? ==> IsNashvilleNumber(s)
    ensures IsNashvilleNumber(s) && NoLineTerminators(s) ==> ParseNashvilleNumber(s).Some?
  {
    if IsNashvilleNumber(s) && NoLineTerminators(s) {
      var k := if IsAccidental(s[0]) then 1 else 0;
      assert NoLineTerminators(s[k + 1..]);
    }
  }

  /** Semitones an accidental moves a note by, modulo 12. */
  function Shift(accidental: string): int {
    if accidental == "#" then 1 else if accidental == "b" then 11 else 0
  }

  /** `applyAccidental`: `#` raises a note a semitone in sharp spelling, `b`
      lowers it in flat spelling; a flat is first respelled as its sharp. */
  function ApplyAccidental(note: string, accidental: string): (r: Result<string>)
    ensures r.Fail? <==> accidental != "" && PitchClass(note) == -1
    ensures r.Fail? ==> r.error == UnknownNote(note)
    ensures accidental == "" ==> r == Ok(note)
    ensures r.Ok? && (accidental == "#" || accidental == "b") ==>
      r.value == Spell((PitchClass(note) + Shift(accidental)) % 12, accidental == "b")
    decreases if ChromaticIndex(note) >= 0 then 0 else 1
  {
    if accidental == "" then Ok(note)
    else
      var noteIndex := ChromaticIndex(note);
      if noteIndex == -1 then
        match FlatToSharp(note)
        case Some(sharp) =>
          ChromaticIndexOfName(LetterPitch(note[0]) - 1);
          ApplyAccidental(sharp, accidental)
        case None => Fail(UnknownNote(note))
      else if accidental == "#" then
        Ok(SharpName((noteIndex + 1) % 12))
      else if accidental == "b" then
        var result := SharpName((noteIndex - 1 + 12) % 12);
        RespellFlat((noteIndex - 1 + 12) % 12, true);
        Ok(match SharpToFlat(result) case Some(flat) => flat case None => result)
      else
        Ok(note)
  }

  /** A sharp or a flat moves the pitch class one semitone up or down. */
  lemma AccidentalPitch(note: string, accidental: string)
    requires PitchClass(note) >= 0 && (accidental == "#" || accidental == "b")
    ensures PitchClass(ApplyAccidental(note, accidental).value) ==
      (PitchClass(note) + (if accidental == "#" then 1 else -1)) % 12
  {
    SpellPitch((PitchClass(note) + Shift(accidental)) % 12, accidental == "b");
    ShiftMod(PitchClass(note), accidental);
  }

  /** A sharp and a flat cancel out, in either order: the pitch class comes back. */
  lemma AccidentalsCancel(note: string, first: string, second: string)
    requires PitchClass(note) >= 0
    requires (first == "#" && second == "b") || (first == "b" && second == "#")
    ensures ApplyAccidental(note, first).Ok?
    ensures ApplyAccidental(ApplyAccidental(note, first).value, second).Ok?
    ensures PitchClass(ApplyAccidental(ApplyAccidental(note, first).value, second).value) == PitchClass(note)
  {
    AccidentalPitch(note, first);
    UndoAccidental(ApplyAccidental(note, first).value, second, PitchClass(note), if first == "#" then 1 else -1);
  }

  /** The accidental opposite to a one-semitone step takes the note back to `p`. */
  lemma UndoAccidental(mid: string, second: string, p: int, d: int)
    requires 0 <= p < 12 && (d == 1 || d == -1) && second == (if d == 1 then "b" else "#")
    requires PitchClass(mid) == (p + d) % 12
    ensures ApplyAccidental(mid, second).Ok? && PitchClass(ApplyAccidental(mid, second).value) == p
  {
    StepBack(p, PitchClass(mid), d);
    AccidentalPitch(mid, second);
  }

  /** Stepping a pitch class a semitone and back returns it. */
  lemma StepBack(p: int, q: int, d: int)
    requires 0 <= p < 12 && (d == 1 || d == -1) && q == (p + d) % 12
    ensures 0 <= q && (q - d) % 12 == p
  {
  }

  /** Eleven semitones up is one down, modulo the octave. */
  lemma ShiftMod(p: int, accidental: string)
    requires accidental == "#" || accidental == "b"
    ensures (p + Shift(accidental)) % 12 == (p + (if accidental == "#" then 1 else -1)) % 12
  {
  }

  /** `nashvilleToChord`: parse, find the root of the degree in the key, shift
      it by the accidental, and append the quality exactly as written. */
  function NashvilleToChord(s: string, key: string): Result<string> {
    match ParseNashvilleNumber(s)
    case None => Fail(InvalidNashvilleNumber(s))
    case Some(n) => ChordOfNumber(n, key)
  }

  /** What `nashvilleToChord` does once the number is parsed. */
  function ChordOfNumber(n: NashvilleNumber, key: string): Result<string>
    requires n.degree >= 1
  {
    var root :- GetChordRoot(key, n.degree);
    var shifted :- if n.accidental != "" then ApplyAccidental(root, n.accidental) else Ok(root);
    Ok(shifted + n.quality)
  }

  /** Whether the converted root is spelled with flats: after a `b`, or with no
      accidental in a flat key. */
  predicate FlatRoot(n: NashvilleNumber, key: string) {
    n.accidental == "b" || (n.accidental == "" && IsFlatKey(key))
  }

  /** The conversion fails on text that does not parse, and then on a key the
      tables do not know; on nothing else. */
  lemma NashvilleToChordFailure(s: string, key: string)
    ensures NashvilleToChord(s, key).Fail? <==>
      ParseNashvilleNumber(s).None? || PitchClass(key) == -1
    ensures ParseNashvilleNumber(s).None? ==>
      NashvilleToChord(s, key) == Fail(InvalidNashvilleNumber(s))
    ensures ParseNashvilleNumber(s).Some? && PitchClass(key) == -1 ==>
      NashvilleToChord(s, key) == Fail(InvalidKey(key))
  {
    match ParseNashvilleNumber(s)
    case None =>
    case Some(n) =>
      if PitchClass(key) >= 0 {
        var root := GetChordRoot(key, n.degree).value;
        SpellPitch((PitchClass(key) + DegreeInterval(n.degree)) % 12, IsFlatKey(key));
      }
  }

  /** The chord is the note a degree (moved by its accidental) lies above the
      key's pitch class, followed by the quality as written. It is spelled with
      a flat after a `b`, with a sharp after a `#`, and in the key's own style
      otherwise. */
  lemma NashvilleToChordSuccess(n: NashvilleNumber, key: string, target: int)
    requires 1 <= n.degree && IsAccidentalText(n.accidental) && PitchClass(key) >= 0
    requires target == (PitchClass(key) + DegreeInterval(n.degree) + Shift(n.accidental)) % 12
    ensures ChordOfNumber(n, key) == Ok(Spell(target, FlatRoot(n, key)) + n.quality)
  {
    var sum := PitchClass(key) + DegreeInterval(n.degree);
    var pitch := sum % 12;
    RootOfKey(key, n.degree, pitch);
    var root := Spell(pitch, IsFlatKey(key));
    if n.accidental == "" {
      assert target == pitch && FlatRoot(n, key) == IsFlatKey(key);
      assert Spell(target, FlatRoot(n, key)) == root;
      ChordOfParts(n, key, root, root);
    } else {
      ModOfSum(sum, Shift(n.accidental));
      assert FlatRoot(n, key) == (n.accidental == "b");
      assert Spell(target, FlatRoot(n, key)) == Spell(target, n.accidental == "b");
      AlteredChord(n, key, pitch, target);
    }
  }

  /** The root `getChordRoot` finds in a key the tables know. */
  lemma RootOfKey(key: string, degree: int, pitch: int)
    requires degree >= 1 && PitchClass(key) >= 0
    requires pitch == (PitchClass(key) + DegreeInterval(degree)) % 12
    ensures GetChordRoot(key, degree) == Ok(Spell(pitch, IsFlatKey(key)))
  {
  }

  lemma AlteredChord(n: NashvilleNumber, key: string, pitch: int, target: int)
    requires n.degree >= 1 && (n.accidental == "#" || n.accidental == "b")
    requires 0 <= pitch < 12 && target == (pitch + Shift(n.accidental)) % 12
    requires GetChordRoot(key, n.degree) == Ok(Spell(pitch, IsFlatKey(key)))
    ensures ChordOfNumber(n, key) == Ok(Spell(target, n.accidental == "b") + n.quality)
  {
    ShiftSpelledRoot(pitch, IsFlatKey(key), n.accidental, target);
    ChordOfParts(n, key, Spell(pitch, IsFlatKey(key)), Spell(target, n.accidental == "b"));
  }

  /** Moving a spelled pitch class by an accidental spells the moved pitch class. */
  lemma ShiftSpelledRoot(pitch: int, flat: bool, accidental: string, target: int)
    requires 0 <= pitch < 12 && (accidental == "#" || accidental == "b")
    requires target == (pitch + Shift(accidental)) % 12
    ensures ApplyAccidental(Spell(pitch, flat), accidental) == Ok(Spell(target, accidental == "b"))
  {
    SpellPitch(pitch, flat);
  }

  /** `nashvilleToChord` after parsing, unfolded: the shifted root followed by the quality. */
  lemma ChordOfParts(n: NashvilleNumber, key: string, root: string, shifted: string)
    requires n.degree >= 1
    requires GetChordRoot(key, n.degree) == Ok(root)
    requires n.accidental == "" ==> shifted == root
    requires n.accidental != "" ==> ApplyAccidental(root, n.accidental) == Ok(shifted)
    ensures ChordOfNumber(n, key) == Ok(shifted + n.quality)
  {
  }

  lemma ModOfSum(a: int, b: int)
    ensures (a % 12 + b) % 12 == (a + b) % 12
  {
  }

  /** Part of a chord: converted when it looks like a Nashville number, else kept. */
  function ConvertPart(part: string, key: string): Result<string> {
    if IsNashvilleNumber(part) then NashvilleToChord(part, key) else Ok(part)
  }

  /** `parts.map(...)`: every part converted in order; the first part that
      fails makes the whole map fail with its error. */
  function ConvertParts(parts: seq<string>, key: string): Result<seq<string>> {
    if parts == [] then Ok([])
    else
      var head :- ConvertPart(parts[0], key);
      var tail :- ConvertParts(parts[1..], key);
      Ok([head] + tail)
  }

  /** The map succeeds exactly when every part converts, and then holds the
      converted parts in order; when it fails, the error is that of the first
      part that fails. */
  lemma {:induction false} ConvertPartsSpec(parts: seq<string>, key: string)
    ensures var r := ConvertParts(parts, key);
      && (r.Ok? <==> forall i :: 0 <= i < |parts| ==> ConvertPart(parts[i], key).Ok?)
      && (r.Ok? ==> |r.value| == |parts|)
      && (r.Ok? ==> forall i :: 0 <= i < |parts| ==> ConvertPart(parts[i], key) == Ok(r.value[i]))
      && (r.Fail? ==> exists i :: (0 <= i < |parts| && ConvertPart(parts[i], key) == Fail(r.error) &&
        forall k :: 0 <= k < i ==> ConvertPart(parts[k], key).Ok?))
  {
    if parts != [] {
      ConvertPartsSpec(parts[1..], key);
      assert forall i :: 1 <= i < |parts| ==> parts[i] == parts[1..][i - 1];
      var r := ConvertParts(parts, key);
      if r.Fail? && ConvertPart(parts[0], key).Ok? {
        var j :| 0 <= j < |parts[1..]| && ConvertPart(parts[1..][j], key) == Fail(r.error) &&
          forall k :: 0 <= k < j ==> ConvertPart(parts[1..][k], key).Ok?;
        assert 0 <= j + 1 < |parts| && ConvertPart(parts[j + 1], key) == Fail(r.error);
      }
    }
  }

  /** `convertChordWithSlashes`: convert each `/`-separated part on its own. */
  function ConvertChordWithSlashes(chord: string, key: string): Result<string> {
    var parts :- ConvertParts(Split(chord, '/'), key);
    Ok(Join(parts, '/'))
  }

  /** The characters note names are written with. */
  const NoteChars: string := "ABCDEFG#b"

  /** Every spelling the converter knows is made of note characters. */
  lemma KnownNoteChars(note: string)
    requires PitchClass(note) >= 0
    ensures Within(note, NoteChars)
  {
    SpellOfPitch(note);
  }

  /** A converted part is made of the part's own characters and note characters. */
  lemma ConvertPartChars(part: string, key: string)
    requires ConvertPart(part, key).Ok?
    ensures Within(ConvertPart(part, key).value, part + NoteChars)
  {
    if IsNashvilleNumber(part) {
      var n := ParseNashvilleNumber(part).value;
      NashvilleToChordFailure(part, key);
      var pitch := (PitchClass(key) + DegreeInterval(n.degree) + Shift(n.accidental)) % 12;
      NashvilleToChordSuccess(n, key, pitch);
      var root := Spell(pitch, FlatRoot(n, key));
      SpellPitch(pitch, FlatRoot(n, key));
      KnownNoteChars(root);
      assert ConvertPart(part, key).value == root + n.quality;
      assert forall c :: c in n.quality ==> c in part by {
        assert part == n.accidental + [DegreeChar(n.degree)] + n.quality;
      }
    }
  }

  /** On success the result splits at `/` into exactly the converted parts: a
      converted part never holds a `/` of its own. */
  lemma ConvertChordWithSlashesParts(chord: string, key: string)
    requires ConvertChordWithSlashes(chord, key).Ok?
    ensures var parts, result := Split(chord, '/'), Split(ConvertChordWithSlashes(chord, key).value, '/');
      && |result| == |parts|
      && forall i :: 0 <= i < |parts| ==> ConvertPart(parts[i], key) == Ok(result[i])
  {
    var parts := Split(chord, '/');
    ConvertPartsSpec(parts, key);
    var converted := ConvertParts(parts, key).value;
    SplitPiecesLackSeparator(chord, '/');
    forall i | 0 <= i < |converted|
      ensures '/' !in converted[i]
    {
      PartKeepsNoSlash(parts[i], key);
    }
    SplitJoin(converted, '/');
  }

  lemma PartKeepsNoSlash(part: string, key: string)
    requires '/' !in part && ConvertPart(part, key).Ok?
    ensures '/' !in ConvertPart(part, key).value
  {
    ConvertPartChars(part, key);
    assert '/' !in part + NoteChars;
  }

  /** A chord none of whose parts looks like a Nashville number is left as it is. */
  lemma ConvertChordWithSlashesKeeps(chord: string, key: string)
    requires forall i :: 0 <= i < |Split(chord, '/')| ==> !IsNashvilleNumber(Split(chord, '/')[i])
    ensures ConvertChordWithSlashes(chord, key) == Ok(chord)
  {
    var parts := Split(chord, '/');
    ConvertPartsSpec(parts, key);
    assert ConvertParts(parts, key).value == parts;
    JoinSplit(chord, '/');
  }

  /** On a single line, the conversion fails exactly when some part looks like a
      Nashville number and the key is one the tables do not know. */
  lemma ConvertChordWithSlashesFails(chord: string, key: string)
    requires NoLineTerminators(chord)
    ensures ConvertChordWithSlashes(chord, key).Fail? <==>
      PitchClass(key) == -1 && exists i :: 0 <= i < |Split(chord, '/')| && IsNashvilleNumber(Split(chord, '/')[i])
  {
    var parts := Split(chord, '/');
    if PitchClass(key) == -1 && exists i :: 0 <= i < |parts| && IsNashvilleNumber(parts[i]) {
      var i :| 0 <= i < |parts| && IsNashvilleNumber(parts[i]);
      SomePartFails(chord, key, i);
    }
    if ConvertChordWithSlashes(chord, key).Fail? {
      OnlyNashvillePartsFail(chord, key);
    }
  }

  lemma SomePartFails(chord: string, key: string, i: int)
    requires NoLineTerminators(chord) && PitchClass(key) == -1
    requires 0 <= i < |Split(chord, '/')| && IsNashvilleNumber(Split(chord, '/')[i])
    ensures ConvertChordWithSlashes(chord, key).Fail?
  {
    var parts := Split(chord, '/');
    SplitWithin(chord, '/');
    WithinOneLine(parts[i], chord);
    PartFails(parts[i], key);
    ConvertPartsSpec(parts, key);
  }

  lemma OnlyNashvillePartsFail(chord: string, key: string)
    requires NoLineTerminators(chord) && ConvertChordWithSlashes(chord, key).Fail?
    ensures PitchClass(key) == -1 && exists i :: 0 <= i < |Split(chord, '/')| && IsNashvilleNumber(Split(chord, '/')[i])
  {
    var parts := Split(chord, '/');
    var r := ConvertParts(parts, key);
    ConvertPartsSpec(parts, key);
    var i :| 0 <= i < |parts| && ConvertPart(parts[i], key) == Fail(r.error);
    SplitWithin(chord, '/');
    WithinOneLine(parts[i], chord);
    PartFails(parts[i], key);
  }

  lemma PartFails(part: string, key: string)
    requires NoLineTerminators(part)
    ensures ConvertPart(part, key).Fail? <==> PitchClass(key) == -1 && IsNashvilleNumber(part)
  {
    LooksNashvilleIffParses(part);
    NashvilleToChordFailure(part, key);
  }

  /** The rule every caller applies to a chord in brackets: convert it when a
      key is set and it holds a `/` or looks like a Nashville number, and keep
      it unchanged when there is no key or the conversion fails. */
  function RewriteChord(chord: string, key: Option<string>): string {
    if key.Some? && ('/' in chord || IsNashvilleNumber(chord)) then
      match ConvertChordWithSlashes(chord, key.value)
      case Ok(converted) => converted
      case Fail(_) => chord
    else
      chord
  }

  /** A key the tables do not know (the directive accepts `E#`, `B#`, `Cb`, `Fb`)
      leaves every chord as written. */
  lemma RewriteUnknownKey(chord: string, key: string)
    requires PitchClass(key) == -1
    ensures RewriteChord(chord, Some(key)) == chord
  {
    var parts := Split(chord, '/');
    var r := ConvertChordWithSlashes(chord, key);
    ConvertPartsSpec(parts, key);
    if r.Ok? {
      forall i | 0 <= i < |parts|
        ensures !IsNashvilleNumber(parts[i])
      {
        assert ConvertPart(parts[i], key).Ok?;
        if IsNashvilleNumber(parts[i]) {
          NashvilleToChordFailure(parts[i], key);
        }
      }
      ConvertChordWithSlashesKeeps(chord, key);
    }
  }

  /** A rewritten chord is made of the chord's own characters and note
      characters; in particular it gains no line break. */
  lemma RewriteChordChars(chord: string, key: Option<string>)
    ensures Within(RewriteChord(chord, key), chord + NoteChars)
  {
    if key.Some? && ('/' in chord || IsNashvilleNumber(chord)) && ConvertChordWithSlashes(chord, key.value).Ok? {
      var parts := Split(chord, '/');
      ConvertPartsSpec(parts, key.value);
      var converted := ConvertParts(parts, key.value).value;
      SplitWithin(chord, '/');
      forall i | 0 <= i < |converted|
        ensures Within(converted[i], chord + NoteChars)
      {
        ConvertPartChars(parts[i], key.value);
      }
      JoinWithin(converted, '/', chord + NoteChars);
    }
  }
}
