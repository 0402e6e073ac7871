/**
 * The note model of the chord viewer: the twelve pitch classes spelled with sharps,
 * the five flat aliases, and the shift of a chord root by a number of semitones.
 */
module Notes {
  import opened Wrappers

  /** The twelve pitch classes in chromatic order from C, spelled with sharps. */
  const Sharps: seq<string> := ["C", "C#", "D", "D#", "E", "F", "F#", "G", "G#", "A", "A#", "B"]

  /** The flat spellings that are rewritten to their sharp equivalents. */
  const FlatEquivalents: map<string, string> :=
    map["Db" := "C#", "Eb" := "D#", "Gb" := "F#", "Ab" := "G#", "Bb" := "A#"]

  predicate IsRootLetter(c: char) {
    'A' <= c <= 'G'
  }

  /** Length of the match of `/^[A-G][#b]?/` at the start of `s`, or 0 when it does not match. */
  function RootLength(s: string): (n: nat)
    ensures n <= 2 && n <= |s|
    ensures n == 0 <==> |s| == 0 || !IsRootLetter(s[0])
    ensures n == 2 <==> |s| >= 2 && IsRootLetter(s[0]) && (s[1] == '#' || s[1] == 'b')
  {
    if |s| == 0 || !IsRootLetter(s[0]) then 0
    else if |s| >= 2 && (s[1] == '#' || s[1] == 'b') then 2
    else 1
  }

  /** `normalizeNote`: a leading flat spelling from the alias table is replaced by its sharp. */
  function NormalizeNote(n: string): string {
    if n == [] then n
    else if |n| >= 2 && n[1] == 'b' && n[..2] in FlatEquivalents then FlatEquivalents[n[..2]] + n[2..]
    else n
  }

  /** `table.indexOf(name)`, searching from position `from`. */
  function IndexIn(table: seq<string>, name: string, from: nat): (r: Option<nat>)
    requires from <= |table|
    ensures r.Some? ==> from <= r.value < |table| && table[r.value] == name
    ensures r.None? <==> name !in table[from..]
    decreases |table| - from
  {
    if from == |table| then None
    else if table[from] == name then Some(from)
    else
      assert table[from..] == [table[from]] + table[from + 1..];
      IndexIn(table, name, from + 1)
  }

  /** `SHARPS.indexOf(name)`: the pitch class a sharp or natural spelling names. */
  function NoteIndex(name: string): (r: Option<nat>)
    ensures r.Some? ==> r.value < 12 && Sharps[r.value] == name
    ensures r.None? <==> name !in Sharps
  {
    assert Sharps[0..] == Sharps;
    IndexIn(Sharps, name, 0)
  }

  /** The pitch class the viewer reads from a root spelling (`SHARPS.indexOf(normalizeNote(base))`). */
  function RootIndex(base: string): Option<nat> {
    NoteIndex(NormalizeNote(base))
  }

  /**
   * JavaScript's `a % 12`: the quotient is truncated toward zero, so the remainder takes the
   * sign of the dividend, where Dafny's `%` is never negative.
   */
  function JsRem12(a: int): (r: int)
    ensures -12 < r < 12 && (a - r) % 12 == 0
    ensures a >= 0 ==> r >= 0
    ensures a <= 0 ==> r <= 0
  {
    if a >= 0 then a % 12 else -((-a) % 12)
  }

  /**
   * `SHARPS[k] + rest`: an index outside the table reads `undefined`, which string
   * concatenation spells out. A remainder of -0 reads entry 0.
   */
  function SharpAt(k: int): string {
    if 0 <= k < 12 then Sharps[k] else "undefined"
  }

  /** The spelling a root at pitch class `i` takes after `shiftNote` moves it `step` semitones. */
  function ShiftedRoot(i: int, step: int): string {
    SharpAt(JsRem12(i + step + 12))
  }

  /** `shiftNote(root, step)`: move the root `step` semitones, keeping the rest of the text. */
  function ShiftNote(root: string, step: int): string {
    var n := RootLength(root);
    if n == 0 then root
    else
      match RootIndex(root[..n])
      case None => root
      case Some(i) => ShiftedRoot(i, step) + root[n..]
  }

  // ------------------------------------------------------------------ reference pitch model

  /** Semitones above C of a natural note letter. */
  function LetterPitch(c: char): nat
    requires IsRootLetter(c)
  {
    if c == 'C' then 0 else if c == 'D' then 2 else if c == 'E' then 4
    else if c == 'F' then 5 else if c == 'G' then 7 else if c == 'A' then 9 else 11
  }

  /** The pitch class a root spelling denotes in equal temperament: a sharp raises, a flat lowers. */
  function Pitch(base: string): nat
    requires 1 <= |base| <= 2 && RootLength(base) == |base|
  {
    var p := LetterPitch(base[0]);
    if |base| == 1 then p
    else if base[1] == '#' then (if p == 11 then 0 else p + 1)
    else (if p == 0 then 11 else p - 1)
  }

  predicate IsUnknownRoot(base: string) {
    base == "Cb" || base == "Fb" || base == "E#" || base == "B#"
  }

  lemma SharpsDistinct()
    ensures forall i, j :: 0 <= i < j < 12 ==> Sharps[i] != Sharps[j]
  {
  }

  lemma NoteIndexAt(k: nat)
    requires k < 12
    ensures NoteIndex(Sharps[k]) == Some(k)
  {
    SharpsDistinct();
  }

  /** A spelling from the sharp table reads as its own position. */
  lemma SharpSpelling(base: string, k: nat)
    requires k < 12 && base == Sharps[k]
    ensures RootIndex(base) == Some(k)
  {
    assert |base| < 2 || base[1] != 'b';
    NoteIndexAt(k);
  }

  /** A flat spelling reads as the position of its sharp equivalent. */
  lemma FlatSpelling(base: string, k: nat)
    requires k < 12 && base in FlatEquivalents && FlatEquivalents[base] == Sharps[k]
    ensures RootIndex(base) == Some(k)
  {
    assert |base| == 2 && base[1] == 'b';
    assert base[..2] == base && base[2..] == [];
    assert NormalizeNote(base) == Sharps[k];
    NoteIndexAt(k);
  }

  /** Cb, Fb, E# and B# are in neither table. */
  lemma UnknownSpelling(base: string)
    requires IsUnknownRoot(base)
    ensures RootIndex(base) == None
  {
    assert base[..2] == base && base[2..] == [];
    assert base !in FlatEquivalents;
    assert NormalizeNote(base) == base;
    assert base !in Sharps;
  }

  lemma NaturalIsPitch(base: string)
    requires |base| == 1 && IsRootLetter(base[0])
    ensures RootIndex(base) == Some(Pitch(base))
  {
    var c := base[0];
    if c == 'C' { SharpSpelling(base, 0); }
    else if c == 'D' { SharpSpelling(base, 2); }
    else if c == 'E' { SharpSpelling(base, 4); }
    else if c == 'F' { SharpSpelling(base, 5); }
    else if c == 'G' { SharpSpelling(base, 7); }
    else if c == 'A' { SharpSpelling(base, 9); }
    else { assert c == 'B'; SharpSpelling(base, 11); }
  }

  lemma SharpIsPitch(c: char)
    requires IsRootLetter(c)
    ensures RootIndex([c, '#']) == if IsUnknownRoot([c, '#']) then None else Some(Pitch([c, '#']))
  {
    var base := [c, '#'];
    if c == 'E' || c == 'B' {
      UnknownSpelling(base);
    } else {
      SharpInTable(c);
      SharpSpelling(base, Pitch(base));
    }
  }

  lemma SharpInTable(c: char)
    requires IsRootLetter(c) && c != 'E' && c != 'B'
    ensures !IsUnknownRoot([c, '#']) && Pitch([c, '#']) < 12 && Sharps[Pitch([c, '#'])] == [c, '#']
  {
  }

  lemma FlatIsPitch(c: char)
    requires IsRootLetter(c)
    ensures RootIndex([c, 'b']) == if IsUnknownRoot([c, 'b']) then None else Some(Pitch([c, 'b']))
  {
    var base := [c, 'b'];
    if c == 'C' || c == 'F' {
      UnknownSpelling(base);
    } else {
      FlatInTable(c);
      FlatSpelling(base, Pitch(base));
    }
  }

  lemma FlatInTable(c: char)
    requires IsRootLetter(c) && c != 'C' && c != 'F'
    ensures !IsUnknownRoot([c, 'b']) && Pitch([c, 'b']) < 12
    ensures [c, 'b'] in FlatEquivalents && FlatEquivalents[[c, 'b']] == Sharps[Pitch([c, 'b'])]
  {
  }

  /**
   * The two tables agree with equal temperament: every root spelling the viewer recognises
   * reads as the pitch class it denotes, and the only ones it does not recognise are Cb, Fb,
   * E# and B#.
   */
  lemma RootIndexIsPitch(base: string)
    requires 1 <= |base| <= 2 && RootLength(base) == |base|
    ensures RootIndex(base) == if IsUnknownRoot(base) then None else Some(Pitch(base))
  {
    if |base| == 1 { NaturalIsPitch(base); }
    else {
      assert base == [base[0], base[1]];
      if base[1] == '#' { SharpIsPitch(base[0]); } else { FlatIsPitch(base[0]); }
    }
  }

  // ------------------------------------------------------------------ shifting a root

  /** Every entry of the sharp table is a root letter, alone or followed by `#`. */
  lemma SharpsShape(k: nat)
    requires k < 12
    ensures 1 <= |Sharps[k]| <= 2 && IsRootLetter(Sharps[k][0])
    ensures |Sharps[k]| == 2 ==> Sharps[k][1] == '#'
  {
  }

  /** The index `shiftNote` computes, `(i + step + 12) % 12`, against the true residue. */
  lemma ShiftIndex(i: nat, step: int)
    requires i < 12
    ensures i + step + 12 >= 0 ==> JsRem12(i + step + 12) == (i + step) % 12
    ensures i + step + 12 < 0 ==> (JsRem12(i + step + 12) == 0 <==> (i + step) % 12 == 0)
    ensures i + step + 12 < 0 ==> JsRem12(i + step + 12) < 0 || JsRem12(i + step + 12) == 0
  {
  }

  /** Undoing a shift inside the twelve residues. */
  lemma ResidueRoundTrip(i: nat, n: int, j: int, m: int)
    requires i < 12 && j == (i + n) % 12 && n + m == 0
    ensures (j + m) % 12 == i
  {
  }

  /** `shiftNote` on a root whose pitch class is known moves that root and keeps the rest. */
  lemma ShiftNoteAt(root: string, step: int, i: nat)
    requires RootLength(root) > 0 && RootIndex(root[..RootLength(root)]) == Some(i)
    ensures ShiftNote(root, step) == ShiftedRoot(i, step) + root[RootLength(root)..]
  {
  }

  /** Inside the table the shifted spelling is the true residue's. */
  lemma ShiftedRootInTable(i: nat, step: int)
    requires i < 12 && i + step + 12 >= 0
    ensures ShiftedRoot(i, step) == Sharps[(i + step) % 12]
  {
    ShiftIndex(i, step);
  }

  /**
   * `shiftNote` on a root at pitch class `i`: while `i + step + 12` is not negative the root
   * becomes the sharp spelling `step` semitones away, in true modular arithmetic, and the
   * rest of the text is kept. Below that, JavaScript's `%` leaves a negative index, the
   * table read is `undefined`, and that word replaces the root (only a remainder of -0
   * still reads C).
   */
  lemma ShiftNoteMovesRoot(root: string, step: int, i: nat)
    requires RootLength(root) > 0 && RootIndex(root[..RootLength(root)]) == Some(i)
    ensures i + step + 12 >= 0 ==>
      ShiftNote(root, step) == Sharps[(i + step) % 12] + root[RootLength(root)..]
    ensures i + step + 12 < 0 ==>
      ShiftNote(root, step) == (if (i + step) % 12 == 0 then "C" else "undefined") + root[RootLength(root)..]
  {
    ShiftNoteAt(root, step, i);
    ShiftIndex(i, step);
  }

  /** Text that does not start with a root letter comes back unchanged, whatever the step. */
  lemma ShiftNoteKeepsNonRoot(root: string, step: int)
    requires RootLength(root) == 0
    ensures ShiftNote(root, step) == root
  {
  }

  /** A root the tables do not know (Cb, Fb, E#, B#) leaves the text unchanged, whatever the step. */
  lemma ShiftNoteKeepsUnknownRoot(root: string, step: int)
    requires RootLength(root) == 2 && IsUnknownRoot(root[..2])
    ensures ShiftNote(root, step) == root
  {
    UnknownSpelling(root[..2]);
  }

  /** Steps twelve apart give the same text as long as the index stays non-negative. */
  lemma ShiftNotePeriodic(root: string, step: int, i: nat)
    requires RootLength(root) > 0 && RootIndex(root[..RootLength(root)]) == Some(i)
    requires step >= -12 - i
    ensures ShiftNote(root, step + 12) == ShiftNote(root, step)
  {
    ShiftNoteMovesRoot(root, step, i);
    ShiftNoteMovesRoot(root, step + 12, i);
    assert (i + step + 12) % 12 == (i + step) % 12;
  }

  /** A root spelling followed by a rest that cannot extend it is read back as that spelling. */
  lemma RootFollowedBy(base: string, rest: string)
    requires 1 <= |base| && RootLength(base) == |base|
    requires rest == [] || (rest[0] != '#' && rest[0] != 'b')
    ensures RootLength(base + rest) == |base|
    ensures (base + rest)[..|base|] == base && (base + rest)[|base|..] == rest
  {
    assert (base + rest)[..|base|] == base && (base + rest)[|base|..] == rest;
  }

  /** `shiftNote` on a known root spelling followed by such a rest moves the root alone. */
  lemma ShiftNoteOnRoot(base: string, rest: string, step: int, k: nat)
    requires 1 <= |base| && RootLength(base) == |base| && RootIndex(base) == Some(k)
    requires rest == [] || (rest[0] != '#' && rest[0] != 'b')
    ensures ShiftNote(base + rest, step) == ShiftedRoot(k, step) + rest
  {
    RootFollowedBy(base, rest);
    ShiftNoteAt(base + rest, step, k);
  }

  /** The second half of the round trip: a sharp spelling moved by `m`. */
  lemma ShiftBack(j: nat, rest: string, m: int)
    requires j < 12 && j + m + 12 >= 0
    requires rest == [] || (rest[0] != '#' && rest[0] != 'b')
    ensures ShiftNote(Sharps[j] + rest, m) == Sharps[(j + m) % 12] + rest
  {
    var base := Sharps[j];
    SharpsShape(j);
    SharpSpelling(base, j);
    ShiftNoteOnRoot(base, rest, m, j);
    ShiftedRootInTable(j, m);
  }

  /**
   * Shifting by `n` and back by `m = -n`, for `-12 <= n <= 12`, gives the sharp spelling of
   * the original root followed by the original rest, provided the rest does not start with
   * `#` or `b` (which a one-letter spelling would otherwise take as its accidental).
   */
  lemma ShiftNoteRoundTrip(root: string, n: int, m: int, i: nat)
    requires RootLength(root) > 0 && RootIndex(root[..RootLength(root)]) == Some(i)
    requires -12 <= n <= 12 && n + m == 0
    requires var rest := root[RootLength(root)..]; rest == [] || (rest[0] != '#' && rest[0] != 'b')
    ensures ShiftNote(ShiftNote(root, n), m) == Sharps[i] + root[RootLength(root)..]
  {
    var rest := root[RootLength(root)..];
    var j := (i + n) % 12;
    ShiftNoteAt(root, n, i);
    ShiftedRootInTable(i, n);
    assert ShiftNote(root, n) == Sharps[j] + rest;
    ShiftBack(j, rest, m);
    ResidueRoundTrip(i, n, j, m);
  }

  /** The same in the form used for concrete steps: the target index is given outright. */
  lemma ShiftNoteTo(root: string, step: int, i: nat, j: nat)
    requires RootLength(root) > 0 && RootIndex(root[..RootLength(root)]) == Some(i)
    requires j < 12 && (j == i + step || j == i + step + 12 || j == i + step - 12)
    ensures ShiftNote(root, step) == Sharps[j] + root[RootLength(root)..]
  {
    ShiftNoteAt(root, step, i);
    ShiftedRootAt(i, step, j);
  }

  lemma ShiftedRootAt(i: nat, step: int, j: nat)
    requires i < 12 && j < 12 && (j == i + step || j == i + step + 12 || j == i + step - 12)
    ensures ShiftedRoot(i, step) == Sharps[j]
  {
    ShiftIndexTo(i, step, j);
  }

  lemma ShiftIndexTo(i: nat, step: int, j: nat)
    requires i < 12 && j < 12 && (j == i + step || j == i + step + 12 || j == i + step - 12)
    ensures JsRem12(i + step + 12) == j
  {
  }

  /** The characters a shifted root is spelled with: note letters, `#`, and the letters of `undefined`. */
  predicate IsSpelledChar(c: char) {
    IsRootLetter(c) || c == '#' || c == 'u' || c == 'n' || c == 'd' || c == 'e' || c == 'f' || c == 'i'
  }

  lemma ShiftedRootChars(i: int, step: int)
    ensures |ShiftedRoot(i, step)| > 0 && IsSpelledChar(ShiftedRoot(i, step)[0])
    ensures forall c :: c in ShiftedRoot(i, step) ==> IsSpelledChar(c)
  {
    var k := JsRem12(i + step + 12);
    if 0 <= k < 12 {
      SharpsShape(k);
    }
  }

  /**
   * `shiftNote` only brings in spelling characters, and a text that starts with a root
   * still starts with a spelling character afterwards.
   */
  lemma ShiftNoteChars(root: string, step: int)
    ensures forall c :: c in ShiftNote(root, step) ==> c in root || IsSpelledChar(c)
    ensures RootLength(root) > 0 ==> |ShiftNote(root, step)| > 0 && IsSpelledChar(ShiftNote(root, step)[0])
  {
    var n := RootLength(root);
    if n > 0 && RootIndex(root[..n]).Some? {
      var i := RootIndex(root[..n]).value;
      ShiftNoteAt(root, step, i);
      ShiftedRootChars(i, step);
    }
  }

  // ------------------------------------------------------------------ the intended shift

  /**
   * The wrap-around shift, `((i + step) mod 12 + 12) mod 12`, which stays inside the table for
   * every step, as the `+ 12` in the index evidently means it to. Dafny's `%` is already never
   * negative.
   */
  function ShiftNoteIntended(root: string, step: int): string {
    var n := RootLength(root);
    if n == 0 then root
    else
      match RootIndex(root[..n])
      case None => root
      case Some(i) => IntendedRoot(i, step) + root[n..]
  }

  /** The spelling a root at pitch class `i` takes after the intended shift. */
  function IntendedRoot(i: int, step: int): string {
    Sharps[((i + step) % 12 + 12) % 12]
  }

  /** The residue the intended shift computes is the true residue. */
  lemma IntendedIndex(i: nat, step: int)
    ensures ((i + step) % 12 + 12) % 12 == (i + step) % 12
  {
  }

  /** The code as written: C moved down 13 semitones reads `undefined`, not B. */
  lemma ShiftBelowTableIsUndefined()
    ensures ShiftNote("C", -13) == "undefined"
    ensures ShiftNoteIntended("C", -13) == "B"
  {
    assert "C"[..1] == "C" && "C"[1..] == [];
    SharpSpelling("C", 0);
    assert JsRem12(-1) == -1;
    IntendedIndex(0, -13);
    assert (0 - 13) % 12 == 11;
  }

  /** The two shifts agree whenever the index the code computes is not negative. */
  lemma ShiftNoteIntendedAgrees(root: string, step: int, i: nat)
    requires RootLength(root) > 0 && RootIndex(root[..RootLength(root)]) == Some(i)
    requires step >= -12 - i
    ensures ShiftNote(root, step) == ShiftNoteIntended(root, step)
  {
    ShiftNoteMovesRoot(root, step, i);
    IntendedIndex(i, step);
  }

  /** The intended shift is periodic in twelve for every step. */
  lemma ShiftNoteIntendedPeriodic(root: string, step: int)
    ensures ShiftNoteIntended(root, step + 12) == ShiftNoteIntended(root, step)
  {
    var n := RootLength(root);
    if n > 0 && RootIndex(root[..n]).Some? {
      var i := RootIndex(root[..n]).value;
      IntendedIndex(i, step);
      IntendedIndex(i, step + 12);
      assert (i + step + 12) % 12 == (i + step) % 12;
    }
  }

  /** The intended shift undoes itself for every step, under the same condition on the rest. */
  lemma ShiftNoteIntendedRoundTrip(root: string, n: int, m: int, i: nat)
    requires RootLength(root) > 0 && RootIndex(root[..RootLength(root)]) == Some(i)
    requires n + m == 0
    requires var rest := root[RootLength(root)..]; rest == [] || (rest[0] != '#' && rest[0] != 'b')
    ensures ShiftNoteIntended(ShiftNoteIntended(root, n), m) == Sharps[i] + root[RootLength(root)..]
  {
    var rest := root[RootLength(root)..];
    var j := (i + n) % 12;
    assert ShiftNoteIntended(root, n) == IntendedRoot(i, n) + rest;
    IntendedIndex(i, n);
    assert ShiftNoteIntended(root, n) == Sharps[j] + rest;
    IntendedBack(j, rest, m);
    ResidueRoundTrip(i, n, j, m);
  }

  /** The second half of the intended round trip. */
  lemma IntendedBack(j: nat, rest: string, m: int)
    requires j < 12
    requires rest == [] || (rest[0] != '#' && rest[0] != 'b')
    ensures ShiftNoteIntended(Sharps[j] + rest, m) == Sharps[(j + m) % 12] + rest
  {
    var base := Sharps[j];
    SharpsShape(j);
    SharpSpelling(base, j);
    RootFollowedBy(base, rest);
    assert ShiftNoteIntended(base + rest, m) == IntendedRoot(j, m) + rest;
    IntendedIndex(j, m);
  }
}
