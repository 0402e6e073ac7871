/**
 * The JavaScript string primitives the chord viewer is built from: the white-space class
 * shared by `\s` and `String.prototype.trim`, `split` on a one-character separator,
 * `split(/(\s+)/)` (a split that keeps the separators), `join`, `indexOf` and `replace`
 * with a string pattern, including the `$` patterns of its replacement string.
 */
module JsText {
  import opened Wrappers

  /** The characters JavaScript's `\s` matches and `trim` removes: WhiteSpace and LineTerminator. */
  predicate IsSpace(c: char) {
    || c == ' ' || c == '\t' || c == '\n' || c == '\r' || c == '\U{000B}' || c == '\U{000C}'
    || c == '\U{00A0}' || c == '\U{1680}' || ('\U{2000}' <= c <= '\U{200A}')
    || c == '\U{2028}' || c == '\U{2029}' || c == '\U{202F}' || c == '\U{205F}'
    || c == '\U{3000}' || c == '\U{FEFF}'
  }

  /** The characters a regular expression's `.` refuses to match. */
  predicate IsLineTerminator(c: char) {
    c == '\n' || c == '\r' || c == '\U{2028}' || c == '\U{2029}'
  }

  predicate NoSpace(s: string) {
    forall k :: 0 <= k < |s| ==> !IsSpace(s[k])
  }

  predicate AllSpace(s: string) {
    forall k :: 0 <= k < |s| ==> IsSpace(s[k])
  }

  // ---------------------------------------------------------------- trim

  /** Number of white-space characters at the end of `s`. */
  function TrailLength(s: string): (n: nat)
    ensures n <= |s| && (forall k :: |s| - n <= k < |s| ==> IsSpace(s[k]))
    ensures n < |s| ==> !IsSpace(s[|s| - n - 1])
  {
    if |s| == 0 || !IsSpace(s[|s| - 1]) then 0
    else 1 + TrailLength(s[..|s| - 1])
  }

  /** `s.trimStart()`. */
  function TrimStart(s: string): string {
    s[RunLength(s)..]
  }

  /** `s.trimEnd()`. */
  function TrimEnd(s: string): string {
    s[..|s| - TrailLength(s)]
  }

  /** `s.trim()`: white space removed from both ends, nothing else touched. */
  function Trim(s: string): (r: string)
    ensures r == [] || (!IsSpace(r[0]) && !IsSpace(r[|r| - 1]))
    ensures NoSpace(s) ==> r == s
    ensures AllSpace(s) <==> r == []
    ensures RunLength(s) + |r| <= |s| && s[RunLength(s)..RunLength(s) + |r|] == r
    ensures AllSpace(s[..RunLength(s)]) && AllSpace(s[RunLength(s) + |r|..])
  {
    TrimEnds(s);
    TrimNoSpace(s);
    TrimAllSpace(s);
    TrimPieces(s);
    TrimEnd(TrimStart(s))
  }

  lemma TrimEnds(s: string)
    ensures var r := TrimEnd(TrimStart(s)); r == [] || (!IsSpace(r[0]) && !IsSpace(r[|r| - 1]))
  {
    var i := RunLength(s);
    var t := s[i..];
    var r := t[..|t| - TrailLength(t)];
    if r != [] {
      assert r[0] == s[i];
      assert r[|r| - 1] == t[|t| - TrailLength(t) - 1];
    }
  }

  /** The text is its leading white space, the trimmed text, then its trailing white space. */
  lemma TrimPieces(s: string)
    ensures var i, r := RunLength(s), TrimEnd(TrimStart(s));
      && i + |r| <= |s| && s[i..i + |r|] == r
      && AllSpace(s[i + |r|..])
  {
    var i := RunLength(s);
    var t := s[i..];
    var n := TrailLength(t);
    var r := t[..|t| - n];
    assert s[i..i + |r|] == r;
    var tail := s[i + |r|..];
    forall k | 0 <= k < |tail|
      ensures IsSpace(tail[k])
    {
      assert tail[k] == t[|t| - n + k];
    }
  }

  lemma TrimNoSpace(s: string)
    ensures NoSpace(s) ==> TrimEnd(TrimStart(s)) == s
  {
    if NoSpace(s) {
      assert RunLength(s) == 0;
      assert s[0..] == s;
      assert s[..|s|] == s;
    }
  }

  lemma TrimAllSpace(s: string)
    ensures AllSpace(s) <==> TrimEnd(TrimStart(s)) == []
  {
    var i := RunLength(s);
    var t := s[i..];
    if TrimEnd(t) == [] {
      assert i == |s|;
    }
  }

  /** The trimmed text is the piece of `s` that starts where the leading white space ends. */
  lemma TrimOccurs(s: string)
    ensures OccursAt(s, Trim(s), RunLength(s))
    ensures IndexOf(s, Trim(s)).Some?
  {
    var j := RunLength(s);
    var t := s[j..];
    var r := t[..|t| - TrailLength(t)];
    assert r == Trim(s);
    OccursInSuffix(s, j, |r|);
    OccursGivesIndex(s, r, j);
  }

  /** A prefix of the suffix starting at `j` occurs at `j`. */
  lemma OccursInSuffix(s: string, j: nat, m: nat)
    requires j + m <= |s|
    ensures OccursAt(s, s[j..][..m], j)
  {
    assert s[j..j + m] == s[j..][..m];
  }

  /** Where a pattern occurs, the text is the part before it, the pattern and the part after. */
  lemma OccursSplit(s: string, pat: string, j: nat)
    requires OccursAt(s, pat, j)
    ensures s == s[..j] + pat + s[j + |pat|..]
  {
  }

  /** A pattern that occurs somewhere has a first position. */
  lemma OccursGivesIndex(s: string, pat: string, j: nat)
    requires OccursAt(s, pat, j)
    ensures IndexOf(s, pat).Some? && IndexOf(s, pat).value <= j
  {
  }

  // ---------------------------------------------------------------- split / join on one character

  /** Position of the first occurrence of `c` in `s`. */
  function FirstIndexOf(s: string, c: char): (i: nat)
    requires c in s
    ensures i < |s| && s[i] == c && c !in s[..i]
  {
    if s[0] == c then 0 else 1 + FirstIndexOf(s[1..], c)
  }

  /** Any position holding `c` with no `c` before it is the first occurrence. */
  lemma FirstIndexOfAt(s: string, c: char, i: nat)
    requires i < |s| && s[i] == c && c !in s[..i]
    ensures FirstIndexOf(s, c) == i
  {
  }

  /** `s.split(sep)` for a one-character separator string. */
  function SplitOn(s: string, sep: char): (parts: seq<string>)
    ensures |parts| >= 1
    ensures forall k :: 0 <= k < |parts| ==> sep !in parts[k]
    ensures sep !in s <==> parts == [s]
    ensures sep in s ==> |parts| >= 2 && forall k :: 0 <= k < |parts| ==> |parts[k]| < |s|
    ensures sep in s ==> parts[0] == s[..FirstIndexOf(s, sep)]
    ensures forall k, c :: 0 <= k < |parts| && c in parts[k] ==> c in s
    decreases |s|
  {
    if sep in s then
      var i := FirstIndexOf(s, sep);
      var tail := SplitOn(s[i + 1..], sep);
      assert s == s[..i + 1] + s[i + 1..];
      [s[..i]] + tail
    else [s]
  }

  /** `parts.join(sep)`. */
  function JoinWith(parts: seq<string>, sep: char): (s: string)
  {
    if |parts| == 0 then []
    else if |parts| == 1 then parts[0]
    else parts[0] + [sep] + JoinWith(parts[1..], sep)
  }

  lemma {:induction false} JoinSplit(s: string, sep: char)
    ensures JoinWith(SplitOn(s, sep), sep) == s
    decreases |s|
  {
    if sep in s {
      var i := FirstIndexOf(s, sep);
      JoinSplit(s[i + 1..], sep);
      assert s == s[..i] + [sep] + s[i + 1..];
    }
  }

  /** Splitting a piece, the separator and a rest gives the piece, then the rest's parts. */
  lemma SplitOnCons(head: string, sep: char, rest: string)
    requires sep !in head
    ensures SplitOn(head + [sep] + rest, sep) == [head] + SplitOn(rest, sep)
  {
    var s := head + [sep] + rest;
    var i := |head|;
    assert s[..i] == head && s[i] == sep && s[i + 1..] == rest;
    FirstIndexOfAt(s, sep, i);
  }

  lemma {:induction false} SplitJoin(parts: seq<string>, sep: char)
    requires |parts| >= 1
    requires forall k :: 0 <= k < |parts| ==> sep !in parts[k]
    ensures SplitOn(JoinWith(parts, sep), sep) == parts
  {
    if |parts| > 1 {
      var tail := parts[1..];
      assert forall k :: 0 <= k < |tail| ==> tail[k] == parts[k + 1];
      SplitJoin(tail, sep);
      SplitOnCons(parts[0], sep, JoinWith(tail, sep));
      assert parts == [parts[0]] + tail;
    }
  }

  // ---------------------------------------------------------------- split(/(\s+)/) and join('')

  /** Length of the longest prefix of `s` free of white space. */
  function WordLength(s: string): (n: nat)
    ensures n <= |s| && NoSpace(s[..n]) && (n < |s| ==> IsSpace(s[n]))
  {
    if |s| == 0 || IsSpace(s[0]) then 0
    else
      var n := 1 + WordLength(s[1..]);
      assert forall k :: 1 <= k < n ==> s[..n][k] == s[1..][..n - 1][k - 1];
      n
  }

  /** Length of the longest prefix of `s` made of white space. */
  function RunLength(s: string): (n: nat)
    ensures n <= |s| && AllSpace(s[..n]) && (n < |s| ==> !IsSpace(s[n]))
  {
    if |s| == 0 || !IsSpace(s[0]) then 0
    else
      var n := 1 + RunLength(s[1..]);
      assert forall k :: 1 <= k < n ==> s[..n][k] == s[1..][..n - 1][k - 1];
      n
  }

  /**
   * The shape `line.split(/(\s+)/)` always has: an odd number of parts, words at even
   * positions (free of white space; empty only at the two ends) and the captured
   * white-space runs at odd positions (never empty).
   */
  predicate WellSplit(parts: seq<string>) {
    && |parts| % 2 == 1
    && (forall k :: 0 <= k < |parts| && k % 2 == 0 ==> NoSpace(parts[k]))
    && (forall k :: 0 <= k < |parts| && k % 2 == 1 ==> parts[k] != [] && AllSpace(parts[k]))
    && (forall k :: 0 < k < |parts| - 1 && k % 2 == 0 ==> parts[k] != [])
  }

  /** `parts.join('')`. */
  function Concat(parts: seq<string>): (s: string)
    ensures |parts| == 0 ==> s == []
  {
    if |parts| == 0 then [] else parts[0] + Concat(parts[1..])
  }

  /** A character occurs in the concatenation exactly when it occurs in one of the parts. */
  lemma {:induction false} ConcatChars(parts: seq<string>, c: char)
    ensures c in Concat(parts) <==> exists k :: 0 <= k < |parts| && c in parts[k]
  {
    if |parts| > 0 {
      ConcatChars(parts[1..], c);
      if c in Concat(parts[1..]) {
        var k :| 0 <= k < |parts| - 1 && c in parts[1..][k];
        assert c in parts[k + 1];
      }
      if k :| 0 <= k < |parts| && c in parts[k] {
        if k > 0 {
          assert c in parts[1..][k - 1];
        }
      }
    }
  }

  /** `line.split(/(\s+)/)`: words and the white-space runs between them, in order. */
  function SplitKeepingSpace(line: string): (parts: seq<string>)
    decreases |line|
  {
    var w := WordLength(line);
    if w == |line| then [line]
    else
      var spaces := line[w..];
      var n := RunLength(spaces);
      [line[..w], spaces[..n]] + SplitKeepingSpace(spaces[n..])
  }

  lemma {:induction false} ConcatSnoc(parts: seq<string>, p: string)
    ensures Concat(parts + [p]) == Concat(parts) + p
  {
    if |parts| > 0 {
      assert (parts + [p])[1..] == parts[1..] + [p];
      ConcatSnoc(parts[1..], p);
    } else {
      assert [] + [p] == [p];
      assert [p][1..] == [];
    }
  }

  lemma ConcatCons(a: string, b: string, tail: seq<string>)
    ensures Concat([a, b] + tail) == a + b + Concat(tail)
  {
    assert ([a, b] + tail)[1..] == [b] + tail;
    assert ([b] + tail)[1..] == tail;
  }

  lemma WellSplitCons(a: string, b: string, tail: seq<string>)
    requires NoSpace(a) && b != [] && AllSpace(b)
    requires WellSplit(tail) && (|tail| > 1 ==> tail[0] != [])
    ensures WellSplit([a, b] + tail)
  {
    var parts := [a, b] + tail;
    forall k | 2 <= k < |parts| ensures parts[k] == tail[k - 2] { }
  }

  lemma WellSplitTail(parts: seq<string>)
    requires WellSplit(parts) && |parts| > 1
    ensures WellSplit(parts[2..]) && parts == [parts[0], parts[1]] + parts[2..]
    ensures |parts[2..]| > 1 ==> parts[2] != []
  {
    var tail := parts[2..];
    forall k | 0 <= k < |tail| ensures tail[k] == parts[k + 2] { }
  }

  /** One step of the split: a word, the run of white space after it, and the rest. */
  lemma SplitHead(line: string) returns (a: string, b: string, rest: string)
    requires WordLength(line) < |line|
    ensures SplitKeepingSpace(line) == [a, b] + SplitKeepingSpace(rest)
    ensures line == a + b + rest && |rest| < |line|
    ensures NoSpace(a) && b != [] && AllSpace(b)
    ensures rest == [] || !IsSpace(rest[0])
  {
    var w := WordLength(line);
    var spaces := line[w..];
    var n := RunLength(spaces);
    a, b, rest := line[..w], spaces[..n], spaces[n..];
    RunLengthPositive(spaces);
    assert rest != [] ==> rest[0] == spaces[n];
    assert line == a + b + rest by {
      assert spaces == b + rest;
    }
  }

  lemma RunLengthPositive(s: string)
    requires |s| > 0 && IsSpace(s[0])
    ensures RunLength(s) > 0
  {
  }

  /** The first part of a split that starts with a non-space character is not empty. */
  lemma SplitHeadWord(rest: string)
    requires rest == [] || !IsSpace(rest[0])
    ensures |SplitKeepingSpace(rest)| > 1 ==> SplitKeepingSpace(rest)[0] != []
  {
  }

  /** The split is well formed and `join('')` gives the line back. */
  lemma {:induction false} SplitKeepingSpaceSound(line: string)
    ensures WellSplit(SplitKeepingSpace(line))
    ensures Concat(SplitKeepingSpace(line)) == line
    decreases |line|
  {
    if WordLength(line) < |line| {
      var a, b, rest := SplitHead(line);
      var tail := SplitKeepingSpace(rest);
      SplitKeepingSpaceSound(rest);
      SplitHeadWord(rest);
      ConcatCons(a, b, tail);
      WellSplitCons(a, b, tail);
    } else {
      assert line[..|line|] == line;
    }
  }

  /** The converse: a well-formed list of parts is what splitting its concatenation gives. */
  lemma {:induction false} SplitKeepingSpaceOfConcat(parts: seq<string>)
    requires WellSplit(parts)
    ensures SplitKeepingSpace(Concat(parts)) == parts
    decreases |parts|
  {
    if |parts| > 1 {
      var tail := parts[2..];
      WellSplitTail(parts);
      SplitKeepingSpaceOfConcat(tail);
      var rest := Concat(tail);
      assert rest == [] || !IsSpace(rest[0]) by {
        if |tail| > 1 { assert rest == tail[0] + Concat(tail[1..]); }
      }
      ConcatCons(parts[0], parts[1], tail);
      SplitOfCons(parts[0], parts[1], rest);
    } else {
      var p := parts[0];
      assert parts == [p] && Concat(parts) == p + Concat(parts[1..]);
      assert Concat(parts) == p;
      assert NoSpace(p);
      assert p[..|p|] == p;
      WordLengthAt(p, |p|);
      assert SplitKeepingSpace(p) == [p];
    }
  }

  /** Splitting a word, a run of white space and a rest that starts with no white space. */
  lemma SplitOfCons(a: string, b: string, rest: string)
    requires NoSpace(a) && b != [] && AllSpace(b) && (rest == [] || !IsSpace(rest[0]))
    ensures SplitKeepingSpace(a + b + rest) == [a, b] + SplitKeepingSpace(rest)
  {
    var line := a + b + rest;
    assert line[..|a|] == a && line[|a|] == b[0];
    WordLengthAt(line, |a|);
    var spaces := line[|a|..];
    assert spaces == b + rest;
    assert spaces[..|b|] == b && spaces[|b|..] == rest;
    assert |b| < |spaces| ==> spaces[|b|] == rest[0];
    RunLengthAt(spaces, |b|);
  }

  lemma {:induction false} WordLengthAt(s: string, n: nat)
    requires n <= |s| && NoSpace(s[..n]) && (n < |s| ==> IsSpace(s[n]))
    ensures WordLength(s) == n
  {
    if n > 0 {
      assert !IsSpace(s[..n][0]);
      assert s[1..][..n - 1] == s[..n][1..];
      WordLengthAt(s[1..], n - 1);
    }
  }

  lemma {:induction false} RunLengthAt(s: string, n: nat)
    requires n <= |s| && AllSpace(s[..n]) && (n < |s| ==> !IsSpace(s[n]))
    ensures RunLength(s) == n
  {
    if n > 0 {
      assert IsSpace(s[..n][0]);
      assert s[1..][..n - 1] == s[..n][1..];
      RunLengthAt(s[1..], n - 1);
    }
  }

  // ---------------------------------------------------------------- indexOf and replace

  predicate OccursAt(s: string, pat: string, j: nat) {
    j + |pat| <= |s| && s[j..j + |pat|] == pat
  }

  function IndexOfFrom(s: string, pat: string, from: nat): (r: Option<nat>)
    ensures r.Some? ==> from <= r.value && OccursAt(s, pat, r.value)
    ensures r.Some? ==> forall j :: from <= j < r.value ==> !OccursAt(s, pat, j)
    ensures r.None? ==> forall j :: from <= j ==> !OccursAt(s, pat, j)
    decreases |s| - from
  {
    if from + |pat| > |s| then None
    else if s[from..from + |pat|] == pat then Some(from)
    else IndexOfFrom(s, pat, from + 1)
  }

  /** `s.indexOf(pat)`: the first position where `pat` occurs, if any. */
  function IndexOf(s: string, pat: string): (r: Option<nat>)
    ensures r.Some? ==> OccursAt(s, pat, r.value) && forall j :: 0 <= j < r.value ==> !OccursAt(s, pat, j)
    ensures r.None? ==> forall j :: 0 <= j ==> !OccursAt(s, pat, j)
  {
    IndexOfFrom(s, pat, 0)
  }

  /**
   * The replacement string of `replace` after its `$` patterns are expanded (GetSubstitution
   * with no capture groups): `$$` is one `$`, `$&` the matched text, `` $` `` the text before
   * the match and `$'` the text after it; any other `$` stands for itself.
   */
  function Substitute(template: string, matched: string, before: string, after: string): (r: string)
    ensures '$' !in template ==> r == template
    ensures forall c :: c in r ==> c in template || c in matched || c in before || c in after
    ensures |template| > 0 && template[0] != '$' ==> |r| > 0 && r[0] == template[0]
    decreases |template|
  {
    if |template| == 0 then []
    else if template[0] == '$' && |template| >= 2 && template[1] in "$&`'" then
      var expansion :=
        if template[1] == '$' then "$"
        else if template[1] == '&' then matched
        else if template[1] == '`' then before
        else after;
      expansion + Substitute(template[2..], matched, before, after)
    else [template[0]] + Substitute(template[1..], matched, before, after)
  }

  /** `$&` at the front of a replacement stands for the matched text. */
  lemma SubstituteMatchedFirst(t: string, matched: string, before: string, after: string)
    ensures Substitute("$&" + t, matched, before, after) == matched + Substitute(t, matched, before, after)
  {
    assert ("$&" + t)[2..] == t;
  }

  /** `$$` at the front of a replacement stands for a single `$`. */
  lemma SubstituteDollarFirst(t: string, matched: string, before: string, after: string)
    ensures Substitute("$$" + t, matched, before, after) == "$" + Substitute(t, matched, before, after)
  {
    assert ("$$" + t)[2..] == t;
  }

  /** A character other than `$` at the front of a replacement stands for itself. */
  lemma SubstitutePlainFirst(c: char, t: string, matched: string, before: string, after: string)
    requires c != '$'
    ensures Substitute([c] + t, matched, before, after) == [c] + Substitute(t, matched, before, after)
  {
    assert ([c] + t)[1..] == t;
  }

  /** `$&` after a `$`-free prefix expands to the matched text. */
  lemma {:induction false} SubstituteDollarAmp(prefix: string, matched: string)
    requires '$' !in prefix
    ensures Substitute(prefix + "$&", matched, [], []) == prefix + matched
  {
    if prefix == [] {
      SubstituteMatchedFirst([], matched, [], []);
      assert [] + "$&" == "$&" + [];
    } else {
      var c, rest := prefix[0], prefix[1..];
      calc {
        Substitute(prefix + "$&", matched, [], []);
        { assert prefix + "$&" == [c] + (rest + "$&"); }
        Substitute([c] + (rest + "$&"), matched, [], []);
        { SubstitutePlainFirst(c, rest + "$&", matched, [], []); }
        [c] + Substitute(rest + "$&", matched, [], []);
        { SubstituteDollarAmp(rest, matched); }
        [c] + (rest + matched);
        { assert prefix == [c] + rest; }
        prefix + matched;
      }
    }
  }

  /** `s.replace(pat, rep)` with a string pattern: the first occurrence only, `$` patterns expanded. */
  function Replace(s: string, pat: string, rep: string): (r: string)
    ensures IndexOf(s, pat).None? ==> r == s
  {
    match IndexOf(s, pat)
    case None => s
    case Some(i) =>
      var before, after := s[..i], s[i + |pat|..];
      before + Substitute(rep, pat, before, after) + after
  }

  /** Replacing a whole string by a `$`-free text gives that text. */
  lemma ReplaceWhole(s: string, rep: string)
    ensures Replace(s, s, rep) == Substitute(rep, s, [], [])
    ensures '$' !in rep ==> Replace(s, s, rep) == rep
  {
    assert IndexOf(s, s) == Some(0) by {
      assert s[0..0 + |s|] == s;
      OccursGivesIndex(s, s, 0);
    }
    assert s[..0] == [] && s[|s|..] == [];
  }

  /** What `s.replace(pat, () => rep)` does: the first occurrence replaced by `rep` verbatim. */
  function ReplaceLiteral(s: string, pat: string, rep: string): (r: string)
    ensures IndexOf(s, pat).None? ==> r == s
  {
    match IndexOf(s, pat)
    case None => s
    case Some(i) => s[..i] + rep + s[i + |pat|..]
  }

  /** Without a `$` in the replacement the two forms of `replace` agree. */
  lemma ReplaceAgrees(s: string, pat: string, rep: string)
    requires '$' !in rep
    ensures Replace(s, pat, rep) == ReplaceLiteral(s, pat, rep)
  {
  }

  /** Replacing a whole string verbatim gives the replacement, whatever it holds. */
  lemma ReplaceLiteralWhole(s: string, rep: string)
    ensures ReplaceLiteral(s, s, rep) == rep
  {
    assert IndexOf(s, s) == Some(0) by {
      assert s[0..0 + |s|] == s;
      OccursGivesIndex(s, s, 0);
    }
    assert s[..0] == [] && s[|s|..] == [];
  }
}
