/**
 * Transposition of a chord sheet by a number of semitones, as the chord viewer does it:
 * chords (`transposeChord`), white-space separated tokens of a line, lines of the text
 * (`transposeText`). A token is taken for a chord when it starts with a note letter.
 */
module Transpose {
  import opened Wrappers
  import opened JsText
  import opened Notes

  // The test `/^[A-G][#b]?.*/` of transposeText: the text starts with a note letter.
  predicate IsChordCandidate(s: string) {
    |s| > 0 && IsRootLetter(s[0])
  }

  /**
   * `/^([A-G][#b]?)(.*)$/` matches `s`: a note letter first, and no line terminator after it,
   * since `.` does not match one. The two groups together are then `s` itself.
   */
  predicate MatchesChord(s: string) {
    IsChordCandidate(s) && forall k :: 1 <= k < |s| ==> !IsLineTerminator(s[k])
  }

  /** A spelling character is neither white space, nor `$`, nor `/`. */
  lemma SpelledIsPlain(c: char)
    requires IsSpelledChar(c)
    ensures !IsSpace(c) && c != '$' && c != '/' && c != '\n'
  {
  }

  /**
   * `transposeChord(chord, step)`: a slash chord is split at its slashes and only the first
   * two segments are transposed and joined again; a chord matching the chord pattern has its
   * root shifted; anything else is returned as it is.
   */
  function TransposeChord(chord: string, step: int): (r: string)
    ensures forall c :: c in r ==> c in chord || IsSpelledChar(c)
    ensures IsChordCandidate(chord) ==> |r| > 0 && IsSpelledChar(r[0])
    decreases |chord|
  {
    if '/' in chord then
      var segs := SplitOn(chord, '/');
      assert IsChordCandidate(chord) ==> IsChordCandidate(segs[0]) by {
        if IsChordCandidate(chord) {
          assert chord[0] != '/';
        }
      }
      TransposeChord(segs[0], step) + "/" + TransposeChord(segs[1], step)
    else if MatchesChord(chord) then
      ShiftNoteChars(chord, step);
      ShiftNote(chord, step)
    else chord
  }

  /** What one part of `line.split(/(\s+)/)` becomes: a chord token is replaced in place. */
  function TransposePart(p: string, step: int): string {
    var trimmed := Trim(p);
    if trimmed == [] then p
    else if IsChordCandidate(trimmed) then Replace(p, trimmed, TransposeChord(trimmed, step))
    else p
  }

  function TransposeParts(parts: seq<string>, step: int): seq<string> {
    seq(|parts|, k requires 0 <= k < |parts| => TransposePart(parts[k], step))
  }

  /** One line of `transposeText`: split keeping the white space, transpose, join. */
  function TransposeLine(line: string, step: int): string {
    Concat(TransposeParts(SplitKeepingSpace(line), step))
  }

  function TransposeLines(lines: seq<string>, step: int): seq<string> {
    seq(|lines|, k requires 0 <= k < |lines| => TransposeLine(lines[k], step))
  }

  /** `transposeText(text, step)`: every line transposed, lines joined with `\n` again. */
  function TransposeText(text: string, step: int): string {
    JoinWith(TransposeLines(SplitOn(text, '\n'), step), '\n')
  }

  // ---------------------------------------------------------------- chords

  /** A chord without a slash that matches the pattern has its root moved `step` semitones. */
  lemma TransposeChordMovesRoot(chord: string, step: int, i: nat)
    requires '/' !in chord && MatchesChord(chord)
    requires RootIndex(chord[..RootLength(chord)]) == Some(i)
    ensures i + step + 12 >= 0 ==>
      TransposeChord(chord, step) == Sharps[(i + step) % 12] + chord[RootLength(chord)..]
    ensures i + step + 12 < 0 ==>
      TransposeChord(chord, step)
      == (if (i + step) % 12 == 0 then "C" else "undefined") + chord[RootLength(chord)..]
  {
    ShiftNoteMovesRoot(chord, step, i);
  }

  /**
   * A slash chord comes back with exactly one slash: the first two segments transposed,
   * anything after a second slash dropped.
   */
  lemma TransposeChordSlash(chord: string, step: int)
    requires '/' in chord
    ensures var segs := SplitOn(chord, '/');
      SplitOn(TransposeChord(chord, step), '/')
      == [TransposeChord(segs[0], step), TransposeChord(segs[1], step)]
  {
    var segs := SplitOn(chord, '/');
    var a, b := TransposeChord(segs[0], step), TransposeChord(segs[1], step);
    assert '/' !in a by {
      if '/' in a {
        SpelledIsPlain('/');
      }
    }
    assert '/' !in b by {
      if '/' in b {
        SpelledIsPlain('/');
      }
    }
    assert JoinWith([a, b], '/') == a + "/" + b by {
      assert [a, b][1..] == [b];
    }
    SplitJoin([a, b], '/');
  }

  /**
   * A plain chord shifted by `n` and back by `m = -n` (|n| <= 12) comes back with its root in
   * sharp spelling, provided its suffix does not start with `#` or `b`.
   */
  lemma TransposeChordRoundTrip(chord: string, n: int, m: int, i: nat)
    requires '/' !in chord && MatchesChord(chord)
    requires RootIndex(chord[..RootLength(chord)]) == Some(i)
    requires -12 <= n <= 12 && n + m == 0
    requires var rest := chord[RootLength(chord)..]; rest == [] || (rest[0] != '#' && rest[0] != 'b')
    ensures TransposeChord(TransposeChord(chord, n), m) == Sharps[i] + chord[RootLength(chord)..]
  {
    var mid := TransposeChord(chord, n);
    assert mid == ShiftNote(chord, n);
    assert '/' !in mid && MatchesChord(mid) by {
      ShiftNoteChars(chord, n);
      ShiftNoteAt(chord, n, i);
      ShiftedRootInTable(i, n);
      SharpsShape((i + n) % 12);
      PlainChordChars(chord, mid);
    }
    ShiftNoteRoundTrip(chord, n, m, i);
  }

  /** A text made of a chord's characters and spelling characters is again a plain chord. */
  lemma PlainChordChars(chord: string, r: string)
    requires '/' !in chord && MatchesChord(chord)
    requires |r| > 0 && IsSpelledChar(r[0])
    requires forall c :: c in r ==> c in chord || IsSpelledChar(c)
    requires IsRootLetter(r[0])
    ensures '/' !in r && MatchesChord(r)
  {
    forall k | 0 <= k < |r| ensures r[k] != '/' && (k >= 1 ==> !IsLineTerminator(r[k])) {
      assert r[k] in r;
      if IsSpelledChar(r[k]) {
        SpelledIsPlain(r[k]);
      } else {
        var j :| 0 <= j < |chord| && chord[j] == r[k];
        assert chord[j] in chord;
      }
    }
  }

  // ---------------------------------------------------------------- tokens

  /**
   * A word of the line (no white space) is its own trimmed text, so a chord word becomes the
   * transposed chord after `replace` expands the `$` patterns of that replacement; without a
   * `$` in the word it is exactly the transposed chord. Other words are kept.
   */
  lemma TransposePartOfWord(w: string, step: int)
    requires NoSpace(w)
    ensures TransposePart(w, step)
      == (if IsChordCandidate(w) then Substitute(TransposeChord(w, step), w, [], []) else w)
    ensures '$' !in w ==>
      TransposePart(w, step) == (if IsChordCandidate(w) then TransposeChord(w, step) else w)
  {
    if IsChordCandidate(w) {
      var trans := TransposeChord(w, step);
      ReplaceWhole(w, trans);
      if '$' !in w && '$' in trans {
        SpelledIsPlain('$');
      }
    }
  }

  /** A run of white space is kept as it is. */
  lemma TransposePartOfSpace(p: string, step: int)
    requires AllSpace(p)
    ensures TransposePart(p, step) == p
  {
  }

  /**
   * A word stays a word: it gains no white space, a non-empty word stays non-empty, and only
   * spelling characters are added to it.
   */
  lemma TransposedWordShape(w: string, step: int)
    requires NoSpace(w)
    ensures NoSpace(TransposePart(w, step))
    ensures w != [] ==> TransposePart(w, step) != []
    ensures forall c :: c in TransposePart(w, step) ==> c in w || IsSpelledChar(c)
  {
    TransposePartOfWord(w, step);
    var r := TransposePart(w, step);
    if IsChordCandidate(w) {
      var trans := TransposeChord(w, step);
      SpelledIsPlain(trans[0]);
      forall k | 0 <= k < |r| ensures !IsSpace(r[k]) {
        assert r[k] in r;
        if IsSpelledChar(r[k]) {
          SpelledIsPlain(r[k]);
        }
      }
    }
  }

  /**
   * The transposed parts still have the shape of `split(/(\s+)/)`, so splitting the
   * transposed line again gives back exactly the transposed parts: the same number of
   * tokens, with every white-space run unchanged.
   */
  lemma TransposeLineTokens(line: string, step: int)
    ensures SplitKeepingSpace(TransposeLine(line, step))
      == TransposeParts(SplitKeepingSpace(line), step)
  {
    var parts := SplitKeepingSpace(line);
    var out := TransposeParts(parts, step);
    SplitKeepingSpaceSound(line);
    forall k | 0 <= k < |out|
      ensures k % 2 == 0 ==> NoSpace(out[k])
      ensures k % 2 == 1 ==> out[k] == parts[k]
      ensures parts[k] != [] ==> out[k] != []
    {
      if k % 2 == 0 {
        TransposedWordShape(parts[k], step);
      } else {
        TransposePartOfSpace(parts[k], step);
      }
    }
    assert WellSplit(out);
    SplitKeepingSpaceOfConcat(out);
  }

  /** A character that is not a spelling character appears in a transposed line only if it was in the line. */
  lemma TransposeLineAvoids(line: string, step: int, c: char)
    requires !IsSpelledChar(c) && c !in line
    ensures c !in TransposeLine(line, step)
  {
    var parts := SplitKeepingSpace(line);
    var out := TransposeParts(parts, step);
    SplitKeepingSpaceSound(line);
    ConcatChars(parts, c);
    forall k | 0 <= k < |out| ensures c !in out[k] {
      if k % 2 == 0 {
        TransposedWordShape(parts[k], step);
      } else {
        TransposePartOfSpace(parts[k], step);
      }
    }
    ConcatChars(out, c);
  }

  // ---------------------------------------------------------------- text

  /**
   * Transposition works line by line: splitting the transposed text at `\n` gives the
   * transposed lines, so the number of lines is kept.
   */
  lemma TransposeTextLines(text: string, step: int)
    ensures SplitOn(TransposeText(text, step), '\n') == TransposeLines(SplitOn(text, '\n'), step)
    ensures |SplitOn(TransposeText(text, step), '\n')| == |SplitOn(text, '\n')|
  {
    var lines := SplitOn(text, '\n');
    var out := TransposeLines(lines, step);
    forall k | 0 <= k < |out| ensures '\n' !in out[k] {
      TransposeLineAvoids(lines[k], step, '\n');
    }
    SplitJoin(out, '\n');
  }

  /** A text without `$` keeps that property, so every chord token comes out exactly transposed. */
  lemma TransposeTextAvoidsDollar(text: string, step: int)
    requires '$' !in text
    ensures '$' !in TransposeText(text, step)
  {
    var lines := SplitOn(text, '\n');
    var out := TransposeLines(lines, step);
    forall k | 0 <= k < |out| ensures '$' !in out[k] {
      TransposeLineAvoids(lines[k], step, '$');
    }
    JoinChars(out, '\n', '$');
  }

  /** A character other than the separator is in a joined text only if it is in one of the parts. */
  lemma {:induction false} JoinChars(parts: seq<string>, sep: char, c: char)
    requires c != sep && forall k :: 0 <= k < |parts| ==> c !in parts[k]
    ensures c !in JoinWith(parts, sep)
  {
    if |parts| > 1 {
      JoinChars(parts[1..], sep, c);
      assert forall k :: 0 <= k < |parts| - 1 ==> parts[1..][k] == parts[k + 1];
    }
  }

  // ---------------------------------------------------------------- the intended token replacement

  /**
   * The token replacement that puts the chord in verbatim: the chord token is replaced by its
   * transposition, with no `$` patterns expanded.
   */
  function TransposePartIntended(p: string, step: int): string {
    var trimmed := Trim(p);
    if trimmed == [] then p
    else if IsChordCandidate(trimmed) then ReplaceLiteral(p, trimmed, TransposeChord(trimmed, step))
    else p
  }

  /** Every chord word becomes exactly its transposition, `$` or not. */
  lemma TransposePartIntendedOfWord(w: string, step: int)
    requires NoSpace(w)
    ensures TransposePartIntended(w, step) == (if IsChordCandidate(w) then TransposeChord(w, step) else w)
  {
    if IsChordCandidate(w) {
      ReplaceLiteralWhole(w, TransposeChord(w, step));
    }
  }

  /** On words without `$` the code and the intended replacement agree. */
  lemma TransposePartIntendedAgrees(w: string, step: int)
    requires NoSpace(w) && '$' !in w
    ensures TransposePart(w, step) == TransposePartIntended(w, step)
  {
    TransposePartOfWord(w, step);
    TransposePartIntendedOfWord(w, step);
  }

  /**
   * The code as written: a chord word whose suffix is `$&` gets the whole original word
   * inserted after the new root, because `replace` expands `$&` to the matched text; the
   * intended replacement keeps the suffix as it is.
   */
  lemma DollarPatternExpands(c: char, step: int, i: nat)
    requires i < 12 && Sharps[i] == [c]
    ensures TransposePart([c] + "$&", step) == ShiftedRoot(i, step) + ([c] + "$&")
    ensures TransposePartIntended([c] + "$&", step) == ShiftedRoot(i, step) + "$&"
  {
    var w := [c] + "$&";
    var root := ShiftedRoot(i, step);
    assert NoSpace(w) && IsChordCandidate(w) by {
      SharpsShape(i);
    }
    assert TransposeChord(w, step) == root + "$&" by {
      SharpsShape(i);
      assert '/' !in w && MatchesChord(w);
      assert RootLength(w) == 1 && w[..1] == [c] && w[1..] == "$&";
      SharpSpelling([c], i);
      ShiftNoteAt(w, step, i);
    }
    assert TransposePart(w, step) == Substitute(root + "$&", w, [], []) by {
      TransposePartOfWord(w, step);
    }
    assert TransposePartIntended(w, step) == root + "$&" by {
      TransposePartIntendedOfWord(w, step);
    }
    assert '$' !in root by {
      ShiftedRootChars(i, step);
      if '$' in root {
        SpelledIsPlain('$');
      }
    }
    SubstituteDollarAmp(root, w);
  }

  // ---------------------------------------------------------------- examples

  /** A plain chord moved to a given table entry (helper for the concrete examples). */
  lemma PlainChordTo(chord: string, step: int, i: nat, j: nat)
    requires '/' !in chord && MatchesChord(chord)
    requires 1 <= |chord| && (|chord| == 1 || (chord[1] != '#' && chord[1] != 'b')) && i < 12
    requires Sharps[i] == [chord[0]]
    requires j < 12 && (j == i + step || j == i + step + 12 || j == i + step - 12)
    ensures TransposeChord(chord, step) == Sharps[j] + chord[1..]
  {
    assert RootLength(chord) == 1;
    assert chord[..1] == [chord[0]];
    SharpSpelling([chord[0]], i);
    ShiftNoteTo(chord, step, i, j);
  }

  /** A segment without a slash that the chord pattern does not match comes back unchanged. */
  lemma TransposeChordKeepsNonChord(s: string, step: int)
    requires '/' !in s && !MatchesChord(s)
    ensures TransposeChord(s, step) == s
  {
  }

  /** A flat root is rewritten to its sharp even when nothing is moved. */
  lemma FlatAtStepZero()
    ensures TransposeChord("Db", 0) == "C#"
  {
    var c := "Db";
    assert '/' !in c && MatchesChord(c);
    assert RootLength(c) == 2 && c[..2] == "Db" && c[2..] == [];
    FlatSpelling("Db", 1);
    ShiftNoteTo(c, 0, 1, 1);
  }

  /** C moved down a semitone wraps around to B. */
  lemma DownFromC()
    ensures TransposeChord("C", -1) == "B"
  {
    PlainChordTo("C", -1, 0, 11);
  }
}
