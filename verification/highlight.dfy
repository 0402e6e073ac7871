/**
 * The chord highlighter of the viewer: a line whose tokens are mostly chords has every chord
 * token wrapped in a highlighting span; other lines are passed through. The produced HTML is
 * modelled as a sequence of glyphs: the characters of the text, and two markers standing for
 * the opening tag `<span class="...">` and the closing tag `</span>` of the highlight.
 */
module Highlight {
  import opened Wrappers
  import opened JsText
  import opened Notes
  import opened Transpose

  datatype Glyph = Char(c: char) | SpanOpen | SpanClose

  type Html = seq<Glyph>

  /** Text as HTML, character for character. */
  function Plain(s: string): (h: Html)
    ensures |h| == |s|
  {
    seq(|s|, k requires 0 <= k < |s| => Char(s[k]))
  }

  /** The text of an HTML fragment: its characters, with the span markers dropped. */
  function Strip(h: Html): string {
    if |h| == 0 then []
    else (match h[0] case Char(c) => [c] case _ => []) + Strip(h[1..])
  }

  /** Number of opening span markers. */
  function CountOpen(h: Html): nat {
    if |h| == 0 then 0 else (if h[0] == SpanOpen then 1 else 0) + CountOpen(h[1..])
  }

  /** Number of closing span markers. */
  function CountClose(h: Html): nat {
    if |h| == 0 then 0 else (if h[0] == SpanClose then 1 else 0) + CountClose(h[1..])
  }

  // ---------------------------------------------------------------- the classification of a line

  /** The tokens counted: parts whose trimmed text is not empty. */
  function CountTokens(parts: seq<string>): nat {
    if |parts| == 0 then 0
    else CountTokens(parts[..|parts| - 1]) + (if Trim(parts[|parts| - 1]) == [] then 0 else 1)
  }

  /** Of those, the ones whose trimmed text starts with a note letter (`/^[A-G][#b]?/`). */
  function CountChords(parts: seq<string>): nat {
    if |parts| == 0 then 0
    else
      var t := Trim(parts[|parts| - 1]);
      CountChords(parts[..|parts| - 1]) + (if t != [] && IsChordCandidate(t) then 1 else 0)
  }

  /**
   * `tokenCount > 0 && chordCount / tokenCount > 0.3`, in integers: more than three chords
   * in ten tokens.
   */
  predicate IsChordLine(parts: seq<string>) {
    CountTokens(parts) > 0 && 10 * CountChords(parts) > 3 * CountTokens(parts)
  }

  // ---------------------------------------------------------------- rendering

  /**
   * One token of a chord line: a chord token is replaced, via `replace`, by the span around
   * its trimmed text. The fixed text of the span holds no `$`, so only the inserted chord
   * text goes through the expansion of `$` patterns.
   */
  function HighlightPart(t: string): Html {
    var trimmed := Trim(t);
    if trimmed != [] && IsChordCandidate(trimmed) then
      match IndexOf(t, trimmed)
      case None => Plain(t)
      case Some(i) =>
        var before, after := t[..i], t[i + |trimmed|..];
        Plain(before) + [SpanOpen] + Plain(Substitute(trimmed, trimmed, before, after)) + [SpanClose]
        + Plain(after)
    else Plain(t)
  }

  /** The `html` accumulated over the first tokens of a chord line. */
  function HighlightParts(parts: seq<string>): Html {
    if |parts| == 0 then []
    else HighlightParts(parts[..|parts| - 1]) + HighlightPart(parts[|parts| - 1])
  }

  /** What one line becomes. */
  function RenderLineSpec(line: string): Html {
    var tokens := SplitKeepingSpace(line);
    if IsChordLine(tokens) then HighlightParts(tokens) else Plain(line)
  }

  /** `out.join('\n')`. */
  function JoinHtml(lines: seq<Html>): Html {
    if |lines| == 0 then []
    else if |lines| == 1 then lines[0]
    else lines[0] + [Char('\n')] + JoinHtml(lines[1..])
  }

  /** Every line passed through `render`, in order. */
  function MapLines(render: string -> Html, lines: seq<string>): seq<Html> {
    if |lines| == 0 then []
    else MapLines(render, lines[..|lines| - 1]) + [render(lines[|lines| - 1])]
  }

  /** `renderedHtml` of a text. */
  function RenderSpec(text: string): Html {
    JoinHtml(MapLines(RenderLineSpec, SplitOn(text, '\n')))
  }

  /** The first loop of `renderedHtml` over a line's tokens: count the tokens and the chords. */
  method CountLine(tokens: seq<string>) returns (chordCount: nat, tokenCount: nat)
    ensures tokenCount == CountTokens(tokens) && chordCount == CountChords(tokens)
  {
    chordCount, tokenCount := 0, 0;
    for i := 0 to |tokens|
      invariant tokenCount == CountTokens(tokens[..i])
      invariant chordCount == CountChords(tokens[..i])
    {
      PrefixCount(tokens, i);
      var trimmed := Trim(tokens[i]);
      if trimmed == [] {
        continue;
      }
      tokenCount := tokenCount + 1;
      if IsChordCandidate(trimmed) {
        chordCount := chordCount + 1;
      }
    }
    assert tokens[..|tokens|] == tokens;
  }

  /** The second loop, on a chord line: every token appended, chord tokens highlighted. */
  method HighlightLine(tokens: seq<string>) returns (html: Html)
    ensures html == HighlightParts(tokens)
  {
    html := [];
    for i := 0 to |tokens|
      invariant html == HighlightParts(tokens[..i])
    {
      PrefixHighlight(tokens, i);
      html := html + HighlightPart(tokens[i]);
    }
    assert tokens[..|tokens|] == tokens;
  }

  /** The body of `renderedHtml` for one line: count, classify, then highlight or pass through. */
  method RenderLine(line: string) returns (html: Html)
    ensures html == RenderLineSpec(line)
  {
    var tokens := SplitKeepingSpace(line);
    var chordCount, tokenCount := CountLine(tokens);
    if tokenCount > 0 && 10 * chordCount > 3 * tokenCount {
      html := HighlightLine(tokens);
    } else {
      html := Plain(line);
    }
  }

  /** What one more token adds to the counts. */
  lemma PrefixCount(parts: seq<string>, i: nat)
    requires i < |parts|
    ensures CountTokens(parts[..i + 1]) == CountTokens(parts[..i]) + (if Trim(parts[i]) == [] then 0 else 1)
    ensures CountChords(parts[..i + 1])
      == CountChords(parts[..i]) + (if Trim(parts[i]) != [] && IsChordCandidate(Trim(parts[i])) then 1 else 0)
  {
    var p := parts[..i + 1];
    assert p[..|p| - 1] == parts[..i] && p[|p| - 1] == parts[i];
  }

  /** What one more token adds to the highlighted text. */
  lemma PrefixHighlight(parts: seq<string>, i: nat)
    requires i < |parts|
    ensures HighlightParts(parts[..i + 1]) == HighlightParts(parts[..i]) + HighlightPart(parts[i])
  {
    var p := parts[..i + 1];
    assert p[..|p| - 1] == parts[..i] && p[|p| - 1] == parts[i];
  }

  /** Rendering one more line extends the rendered prefix by that line. */
  lemma MapLinesStep(render: string -> Html, lines: seq<string>, i: nat)
    requires i < |lines|
    ensures MapLines(render, lines[..i + 1]) == MapLines(render, lines[..i]) + [render(lines[i])]
  {
    var p := lines[..i + 1];
    assert p[..|p| - 1] == lines[..i] && p[|p| - 1] == lines[i];
  }

  lemma {:induction false} MapLinesLength(render: string -> Html, lines: seq<string>)
    ensures |MapLines(render, lines)| == |lines|
  {
    if |lines| > 0 {
      MapLinesLength(render, lines[..|lines| - 1]);
    }
  }

  /** Line `k` of the rendered lines is the rendering of line `k`. */
  lemma {:induction false} MapLinesAt(render: string -> Html, lines: seq<string>, k: nat)
    requires k < |lines|
    ensures |MapLines(render, lines)| == |lines| && MapLines(render, lines)[k] == render(lines[k])
  {
    var front := lines[..|lines| - 1];
    MapLinesLength(render, front);
    if k < |front| {
      MapLinesAt(render, front, k);
      assert front[k] == lines[k];
    }
  }

  /** `renderedHtml`: every line rendered, the results joined with line breaks. */
  method RenderHtml(text: string) returns (html: Html)
    ensures html == RenderSpec(text)
  {
    var lines := SplitOn(text, '\n');
    var out: seq<Html> := [];
    for i := 0 to |lines|
      invariant out == MapLines(RenderLineSpec, lines[..i])
    {
      var h := RenderLine(lines[i]);
      MapLinesStep(RenderLineSpec, lines, i);
      out := out + [h];
    }
    assert lines[..|lines|] == lines;
    html := JoinHtml(out);
  }

  // ---------------------------------------------------------------- markers and text

  lemma {:induction false} StripAppend(a: Html, b: Html)
    ensures Strip(a + b) == Strip(a) + Strip(b)
  {
    if |a| > 0 {
      assert (a + b)[1..] == a[1..] + b;
      StripAppend(a[1..], b);
    } else {
      assert a + b == b;
    }
  }

  lemma {:induction false} CountAppend(a: Html, b: Html)
    ensures CountOpen(a + b) == CountOpen(a) + CountOpen(b)
    ensures CountClose(a + b) == CountClose(a) + CountClose(b)
  {
    if |a| > 0 {
      assert (a + b)[1..] == a[1..] + b;
      CountAppend(a[1..], b);
    } else {
      assert a + b == b;
    }
  }

  /** Plain text has no markers and strips back to itself. */
  lemma {:induction false} PlainFacts(s: string)
    ensures Strip(Plain(s)) == s
    ensures CountOpen(Plain(s)) == 0 && CountClose(Plain(s)) == 0
  {
    if |s| > 0 {
      assert Plain(s)[1..] == Plain(s[1..]);
      PlainFacts(s[1..]);
    }
  }

  /** The two markers. */
  lemma MarkerFacts()
    ensures Strip([SpanOpen]) == [] && Strip([SpanClose]) == []
    ensures CountOpen([SpanOpen]) == 1 && CountClose([SpanOpen]) == 0
    ensures CountOpen([SpanClose]) == 0 && CountClose([SpanClose]) == 1
  {
    assert [SpanOpen][1..] == [];
    assert [SpanClose][1..] == [];
  }

  /** The glyphs of the highlight of a chord token at position `i`. */
  lemma SpanFacts(before: string, inner: string, after: string)
    ensures var h := Plain(before) + [SpanOpen] + Plain(inner) + [SpanClose] + Plain(after);
      Strip(h) == before + inner + after && CountOpen(h) == 1 && CountClose(h) == 1
  {
    PlainFacts(before);
    PlainFacts(inner);
    PlainFacts(after);
    MarkerFacts();
    StripAppend(Plain(before), [SpanOpen]);
    StripAppend(Plain(before) + [SpanOpen], Plain(inner));
    StripAppend(Plain(before) + [SpanOpen] + Plain(inner), [SpanClose]);
    StripAppend(Plain(before) + [SpanOpen] + Plain(inner) + [SpanClose], Plain(after));
    CountAppend(Plain(before), [SpanOpen]);
    CountAppend(Plain(before) + [SpanOpen], Plain(inner));
    CountAppend(Plain(before) + [SpanOpen] + Plain(inner), [SpanClose]);
    CountAppend(Plain(before) + [SpanOpen] + Plain(inner) + [SpanClose], Plain(after));
  }

  /** A token is a chord token when its trimmed text is not empty and starts with a note letter. */
  predicate IsChordToken(t: string) {
    Trim(t) != [] && IsChordCandidate(Trim(t))
  }

  /**
   * The highlight of a chord token: the text before the trimmed chord, the span around the
   * chord text after `$` expansion, and the text after it.
   */
  lemma HighlightPartShape(t: string)
    requires IsChordToken(t)
    ensures var trimmed := Trim(t);
      IndexOf(t, trimmed).Some? &&
      var i := IndexOf(t, trimmed).value;
      var before, after := t[..i], t[i + |trimmed|..];
      t == before + trimmed + after &&
      HighlightPart(t)
      == Plain(before) + [SpanOpen] + Plain(Substitute(trimmed, trimmed, before, after)) + [SpanClose]
         + Plain(after)
  {
    var trimmed := Trim(t);
    TrimOccurs(t);
    OccursSplit(t, trimmed, IndexOf(t, trimmed).value);
  }

  /**
   * A token is wrapped in exactly one span when it is a chord token, and in none otherwise;
   * any other token, `$` or not, is appended as it is.
   */
  lemma HighlightPartCount(t: string)
    ensures CountOpen(HighlightPart(t)) == (if IsChordToken(t) then 1 else 0)
    ensures CountClose(HighlightPart(t)) == CountOpen(HighlightPart(t))
    ensures !IsChordToken(t) ==> HighlightPart(t) == Plain(t) && Strip(HighlightPart(t)) == t
  {
    if IsChordToken(t) {
      HighlightPartShape(t);
      var trimmed := Trim(t);
      var i := IndexOf(t, trimmed).value;
      var before, after := t[..i], t[i + |trimmed|..];
      SpanFacts(before, Substitute(trimmed, trimmed, before, after), after);
    } else {
      PlainFacts(t);
    }
  }

  /** Stripping the markers of a highlighted token gives the token back when it holds no `$`. */
  lemma HighlightPartStrip(t: string)
    requires '$' !in t
    ensures Strip(HighlightPart(t)) == t
  {
    if IsChordToken(t) {
      HighlightPartShape(t);
      var trimmed := Trim(t);
      var i := IndexOf(t, trimmed).value;
      var before, after := t[..i], t[i + |trimmed|..];
      assert '$' !in trimmed;
      SpanFacts(before, trimmed, after);
    } else {
      PlainFacts(t);
    }
  }

  /** A character absent from a token is absent from the text of its highlight. */
  lemma HighlightPartAvoids(t: string, c: char)
    requires c !in t
    ensures c !in Strip(HighlightPart(t))
  {
    if IsChordToken(t) {
      HighlightPartShape(t);
      var trimmed := Trim(t);
      var i := IndexOf(t, trimmed).value;
      var before, after := t[..i], t[i + |trimmed|..];
      SpanFacts(before, Substitute(trimmed, trimmed, before, after), after);
      assert c !in trimmed && c !in before && c !in after;
    } else {
      PlainFacts(t);
    }
  }

  lemma {:induction false} HighlightPartsCount(parts: seq<string>)
    ensures CountOpen(HighlightParts(parts)) == CountChords(parts)
    ensures CountClose(HighlightParts(parts)) == CountChords(parts)
  {
    if |parts| > 0 {
      var front, last := parts[..|parts| - 1], parts[|parts| - 1];
      HighlightPartsCount(front);
      HighlightPartCount(last);
      CountAppend(HighlightParts(front), HighlightPart(last));
    }
  }

  lemma {:induction false} HighlightPartsStrip(parts: seq<string>)
    requires forall k :: 0 <= k < |parts| ==> '$' !in parts[k]
    ensures Strip(HighlightParts(parts)) == Concat(parts)
  {
    if |parts| > 0 {
      var front, last := parts[..|parts| - 1], parts[|parts| - 1];
      calc {
        Strip(HighlightParts(parts));
        Strip(HighlightParts(front) + HighlightPart(last));
        { StripAppend(HighlightParts(front), HighlightPart(last)); }
        Strip(HighlightParts(front)) + Strip(HighlightPart(last));
        { HighlightPartsStrip(front); HighlightPartStrip(last); }
        Concat(front) + last;
        { assert parts == front + [last]; ConcatSnoc(front, last); }
        Concat(parts);
      }
    }
  }

  lemma {:induction false} HighlightPartsAvoid(parts: seq<string>, c: char)
    requires forall k :: 0 <= k < |parts| ==> c !in parts[k]
    ensures c !in Strip(HighlightParts(parts))
  {
    if |parts| > 0 {
      var front, last := parts[..|parts| - 1], parts[|parts| - 1];
      HighlightPartsAvoid(front, c);
      HighlightPartAvoids(last, c);
      StripAppend(HighlightParts(front), HighlightPart(last));
    }
  }

  /**
   * A rendered line: a chord line carries one span per chord token and the other lines none;
   * the markers are balanced; stripping them gives the line back when it holds no `$`; and a
   * line that is not a chord line is emitted as it is, `$` or not.
   */
  lemma RenderLineFacts(line: string)
    ensures var tokens := SplitKeepingSpace(line);
      CountOpen(RenderLineSpec(line)) == (if IsChordLine(tokens) then CountChords(tokens) else 0)
    ensures CountClose(RenderLineSpec(line)) == CountOpen(RenderLineSpec(line))
    ensures '$' !in line ==> Strip(RenderLineSpec(line)) == line
    ensures !IsChordLine(SplitKeepingSpace(line)) ==>
      RenderLineSpec(line) == Plain(line) && Strip(RenderLineSpec(line)) == line
  {
    var tokens := SplitKeepingSpace(line);
    SplitKeepingSpaceSound(line);
    if IsChordLine(tokens) {
      HighlightPartsCount(tokens);
      if '$' !in line {
        forall k | 0 <= k < |tokens| ensures '$' !in tokens[k] {
          ConcatChars(tokens, '$');
        }
        HighlightPartsStrip(tokens);
      }
    } else {
      PlainFacts(line);
    }
  }

  /** The text of a rendered line holds no character the line does not hold. */
  lemma RenderLineAvoids(line: string, c: char)
    requires c !in line
    ensures c !in Strip(RenderLineSpec(line))
  {
    var tokens := SplitKeepingSpace(line);
    SplitKeepingSpaceSound(line);
    if IsChordLine(tokens) {
      forall k | 0 <= k < |tokens| ensures c !in tokens[k] {
        ConcatChars(tokens, c);
      }
      HighlightPartsAvoid(tokens, c);
    } else {
      PlainFacts(line);
    }
  }

  /** The text of each of a list of lines. */
  function StripAll(lines: seq<Html>): (r: seq<string>)
    ensures |r| == |lines|
    ensures forall k :: 0 <= k < |lines| ==> r[k] == Strip(lines[k])
  {
    if |lines| == 0 then [] else [Strip(lines[0])] + StripAll(lines[1..])
  }

  /** Stripping the markers commutes with joining the lines. */
  lemma {:induction false} StripJoin(lines: seq<Html>)
    ensures Strip(JoinHtml(lines)) == JoinWith(StripAll(lines), '\n')
  {
    if |lines| > 1 {
      StripJoin(lines[1..]);
      StripAppend(lines[0], [Char('\n')]);
      StripAppend(lines[0] + [Char('\n')], JoinHtml(lines[1..]));
      assert Strip([Char('\n')]) == "\n" by {
        assert [Char('\n')][1..] == [];
      }
      assert StripAll(lines)[1..] == StripAll(lines[1..]);
    }
  }

  /**
   * The rendered text keeps the lines of the text: stripping the markers and splitting at line
   * breaks gives one stripped line per line of the text.
   */
  lemma RenderKeepsLines(text: string)
    ensures var lines, parts := SplitOn(text, '\n'), SplitOn(Strip(RenderSpec(text)), '\n');
      |parts| == |lines| && forall k :: 0 <= k < |lines| ==> parts[k] == Strip(RenderLineSpec(lines[k]))
  {
    var lines := SplitOn(text, '\n');
    var stripped := RenderedLineTexts(lines);
    StripJoin(MapLines(RenderLineSpec, lines));
    SplitJoin(stripped, '\n');
  }

  /** The texts of the rendered lines, each free of line breaks. */
  lemma RenderedLineTexts(lines: seq<string>) returns (stripped: seq<string>)
    requires |lines| >= 1 && forall k :: 0 <= k < |lines| ==> '\n' !in lines[k]
    ensures stripped == StripAll(MapLines(RenderLineSpec, lines)) && |stripped| == |lines|
    ensures forall k :: 0 <= k < |lines| ==> stripped[k] == Strip(RenderLineSpec(lines[k]))
    ensures forall k :: 0 <= k < |lines| ==> '\n' !in stripped[k]
  {
    MapLinesLength(RenderLineSpec, lines);
    stripped := StripAll(MapLines(RenderLineSpec, lines));
    forall k | 0 <= k < |lines| ensures stripped[k] == Strip(RenderLineSpec(lines[k])) {
      MapLinesAt(RenderLineSpec, lines, k);
    }
    forall k | 0 <= k < |lines| ensures '\n' !in stripped[k] {
      RenderLineAvoids(lines[k], '\n');
    }
  }

  /** A text without `$` comes back unchanged once the markers are stripped. */
  lemma RenderStripsToText(text: string)
    requires '$' !in text
    ensures Strip(RenderSpec(text)) == text
  {
    var lines := SplitOn(text, '\n');
    var stripped := RenderedLineTexts(lines);
    forall k | 0 <= k < |lines| ensures stripped[k] == lines[k] {
      RenderLineFacts(lines[k]);
    }
    assert stripped == lines;
    StripJoin(MapLines(RenderLineSpec, lines));
    JoinSplit(text, '\n');
  }

  // ---------------------------------------------------------------- the intended highlight

  /** The highlight that places the chord text in the span verbatim, with no `$` patterns expanded. */
  function HighlightPartIntended(t: string): Html {
    var trimmed := Trim(t);
    if trimmed != [] && IsChordCandidate(trimmed) then
      match IndexOf(t, trimmed)
      case None => Plain(t)
      case Some(i) =>
        Plain(t[..i]) + [SpanOpen] + Plain(trimmed) + [SpanClose] + Plain(t[i + |trimmed|..])
    else Plain(t)
  }

  function HighlightPartsIntended(parts: seq<string>): Html {
    if |parts| == 0 then []
    else HighlightPartsIntended(parts[..|parts| - 1]) + HighlightPartIntended(parts[|parts| - 1])
  }

  function RenderLineIntended(line: string): Html {
    var tokens := SplitKeepingSpace(line);
    if IsChordLine(tokens) then HighlightPartsIntended(tokens) else Plain(line)
  }

  /** The intended highlight of one token: stripping gives the token back, one span per chord. */
  lemma HighlightPartIntendedFacts(t: string)
    ensures Strip(HighlightPartIntended(t)) == t
    ensures CountOpen(HighlightPartIntended(t)) == (if IsChordToken(t) then 1 else 0)
  {
    if IsChordToken(t) {
      HighlightPartShape(t);
      var trimmed := Trim(t);
      var i := IndexOf(t, trimmed).value;
      SpanFacts(t[..i], trimmed, t[i + |trimmed|..]);
    } else {
      PlainFacts(t);
    }
  }

  lemma {:induction false} HighlightPartsIntendedStrip(parts: seq<string>)
    ensures Strip(HighlightPartsIntended(parts)) == Concat(parts)
    ensures CountOpen(HighlightPartsIntended(parts)) == CountChords(parts)
  {
    HighlightPartsIntendedText(parts);
    HighlightPartsIntendedCount(parts);
  }

  lemma {:induction false} HighlightPartsIntendedText(parts: seq<string>)
    ensures Strip(HighlightPartsIntended(parts)) == Concat(parts)
  {
    if |parts| > 0 {
      var front, last := parts[..|parts| - 1], parts[|parts| - 1];
      calc {
        Strip(HighlightPartsIntended(parts));
        { HighlightPartsIntendedSnoc(parts); }
        Strip(HighlightPartsIntended(front) + HighlightPartIntended(last));
        { StripAppend(HighlightPartsIntended(front), HighlightPartIntended(last)); }
        Strip(HighlightPartsIntended(front)) + Strip(HighlightPartIntended(last));
        { HighlightPartsIntendedText(front); HighlightPartIntendedText(last); }
        Concat(front) + last;
        { assert parts == front + [last]; ConcatSnoc(front, last); }
        Concat(parts);
      }
    }
  }

  lemma HighlightPartsIntendedSnoc(parts: seq<string>)
    requires |parts| > 0
    ensures HighlightPartsIntended(parts)
      == HighlightPartsIntended(parts[..|parts| - 1]) + HighlightPartIntended(parts[|parts| - 1])
  {
  }

  lemma HighlightPartIntendedText(t: string)
    ensures Strip(HighlightPartIntended(t)) == t
  {
    HighlightPartIntendedFacts(t);
  }

  lemma {:induction false} HighlightPartsIntendedCount(parts: seq<string>)
    ensures CountOpen(HighlightPartsIntended(parts)) == CountChords(parts)
  {
    if |parts| > 0 {
      var front, last := parts[..|parts| - 1], parts[|parts| - 1];
      HighlightPartsIntendedCount(front);
      HighlightPartIntendedFacts(last);
      CountAppend(HighlightPartsIntended(front), HighlightPartIntended(last));
    }
  }

  /** With the intended highlight, stripping the markers gives every line back, `$` or not. */
  lemma RenderLineIntendedStrip(line: string)
    ensures Strip(RenderLineIntended(line)) == line
    ensures CountOpen(RenderLineIntended(line))
      == (if IsChordLine(SplitKeepingSpace(line)) then CountChords(SplitKeepingSpace(line)) else 0)
  {
    SplitKeepingSpaceSound(line);
    HighlightPartsIntendedStrip(SplitKeepingSpace(line));
    PlainFacts(line);
  }

  /** On a token without `$` the code and the intended highlight agree. */
  lemma HighlightPartAgrees(t: string)
    requires '$' !in t
    ensures HighlightPart(t) == HighlightPartIntended(t)
  {
    if IsChordToken(t) {
      HighlightPartShape(t);
      assert '$' !in Trim(t);
    }
  }

  lemma {:induction false} HighlightPartsAgree(parts: seq<string>)
    requires forall k :: 0 <= k < |parts| ==> '$' !in parts[k]
    ensures HighlightParts(parts) == HighlightPartsIntended(parts)
  {
    if |parts| > 0 {
      HighlightPartsAgree(parts[..|parts| - 1]);
      HighlightPartAgrees(parts[|parts| - 1]);
    }
  }

  /** On lines without `$` the code and the intended highlight agree. */
  lemma RenderLineIntendedAgrees(line: string)
    requires '$' !in line
    ensures RenderLineSpec(line) == RenderLineIntended(line)
  {
    var tokens := SplitKeepingSpace(line);
    SplitKeepingSpaceSound(line);
    forall k | 0 <= k < |tokens| ensures '$' !in tokens[k] {
      ConcatChars(tokens, '$');
    }
    HighlightPartsAgree(tokens);
  }

  /**
   * The code as written: on a line that is the single word made of a note letter and `$$`,
   * the highlighted text reads the letter and one `$`, so stripping the markers does not give
   * the line back; the intended highlight keeps both.
   */
  lemma DollarInChordCollapses(c: char)
    requires IsRootLetter(c)
    ensures Strip(RenderLineSpec([c] + "$$")) == [c, '$']
    ensures Strip(RenderLineIntended([c] + "$$")) == [c] + "$$"
  {
    var w := [c] + "$$";
    assert NoSpace(w);
    SingleWordLine(w);
    SingleWordLineIntended(w);
    WholeWordHighlight(w);
    DoubleDollarExpands(c, w);
    HighlightPartIntendedFacts(w);
  }

  /** A line that is a single chord word is rendered as the highlight of that word. */
  lemma SingleWordLine(w: string)
    requires NoSpace(w) && IsChordCandidate(w)
    ensures RenderLineSpec(w) == HighlightPart(w)
  {
    SingleWordTokens(w);
    HighlightOneToken(w);
  }

  /** The same for the intended highlight. */
  lemma SingleWordLineIntended(w: string)
    requires NoSpace(w) && IsChordCandidate(w)
    ensures RenderLineIntended(w) == HighlightPartIntended(w)
  {
    SingleWordTokens(w);
    HighlightOneToken(w);
  }

  lemma HighlightOneToken(t: string)
    ensures HighlightParts([t]) == HighlightPart(t)
    ensures HighlightPartsIntended([t]) == HighlightPartIntended(t)
  {
    var none: seq<string> := [];
    assert [t][..0] == none;
  }

  /** `$$` after a note letter expands to one `$`, whatever the matched text. */
  lemma DoubleDollarExpands(c: char, matched: string)
    requires IsRootLetter(c)
    ensures Substitute([c] + "$$", matched, [], []) == [c, '$']
  {
    assert [c] + "$$" == [c] + ("$$" + []);
    SubstitutePlainFirst(c, "$$" + [], matched, [], []);
    SubstituteDollarFirst([], matched, [], []);
  }

  /** A single chord word splits into itself, and the line it forms is a chord line. */
  lemma SingleWordTokens(w: string)
    requires NoSpace(w) && IsChordCandidate(w)
    ensures SplitKeepingSpace(w) == [w] && IsChordLine([w])
  {
    assert SplitKeepingSpace(w) == [w] by {
      WordLengthAt(w, |w|);
    }
    var none: seq<string> := [];
    assert [w][..0] == none;
    assert Trim(w) == w;
  }

  /** The text of the highlight of a whole chord word is the word after `$` expansion. */
  lemma WholeWordHighlight(w: string)
    requires NoSpace(w) && IsChordCandidate(w)
    ensures Strip(HighlightPart(w)) == Substitute(w, w, [], [])
  {
    assert Trim(w) == w;
    HighlightPartShape(w);
    var i := IndexOf(w, w).value;
    assert w[..i] == [] && w[i + |w|..] == [];
    SpanFacts([], Substitute(w, w, [], []), []);
  }
}
