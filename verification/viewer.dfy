/**
 * The chord viewer component: the transposition step it keeps, the three buttons that change
 * it, the text it shows for the current step, the highlighted rendering of that text and the
 * `Tom:` label that reports the step.
 */
module Viewer {
  import opened Wrappers
  import opened JsText
  import opened JsNumbers
  import opened Transpose
  import opened Highlight

  // ---------------------------------------------------------------- the text shown for a step

  /**
   * `transposedText`: at step 0 the text is shown exactly as stored; at any other step every
   * chord is transposed from the stored text.
   */
  function ViewedText(rawText: string, step: int): string {
    if step == 0 then rawText else TransposeText(rawText, step)
  }

  /** Whatever the step, the shown text has as many lines as the stored text. */
  lemma ViewedTextKeepsLines(rawText: string, step: int)
    ensures |SplitOn(ViewedText(rawText, step), '\n')| == |SplitOn(rawText, '\n')|
  {
    if step != 0 {
      TransposeTextLines(rawText, step);
    }
  }

  /**
   * Step 0 is a fast path and not a transposition by 0: the transposition by 0 rewrites a flat
   * root to its sharp spelling (Db reads as C#), which the fast path leaves alone.
   */
  lemma StepZeroIsNotTransposition()
    ensures TransposeChord("Db", 0) == "C#" && ViewedText("Db", 0) == "Db"
  {
    FlatAtStepZero();
  }

  // ---------------------------------------------------------------- the step label

  /** The label next to the buttons: `Tom: `, a `+` for a positive step, then the step. */
  function StepLabel(step: int): string {
    "Tom: " + (if step > 0 then "+" else "") + IntToString(step)
  }

  /** Reads a step back from a label, or nothing when the text is not a step label. */
  function ReadStepLabel(shown: string): Option<int> {
    if (|shown| < 6) || shown[..5] != "Tom: " then None else ReadSigned(shown[5..])
  }

  /** Reads an optionally signed decimal number. */
  function ReadSigned(body: string): Option<int> {
    if body == [] then None
    else if body[0] == '+' || body[0] == '-' then
      var digits := body[1..];
      if digits == [] || !AllDigits(digits) then None
      else if body[0] == '+' then Some(ParseDigits(digits))
      else Some(-(ParseDigits(digits) as int))
    else if AllDigits(body) then Some(ParseDigits(body))
    else None
  }

  /** The label names the step exactly: reading it back gives the step. */
  lemma StepLabelRoundTrip(step: int)
    ensures ReadStepLabel(StepLabel(step)) == Some(step)
  {
    var body := (if step > 0 then "+" else "") + IntToString(step);
    assert StepLabel(step) == "Tom: " + body;
    LabelPrefix(body);
    SignedRoundTrip(step);
  }

  lemma LabelPrefix(body: string)
    requires body != []
    ensures ReadStepLabel("Tom: " + body) == ReadSigned(body)
  {
    var shown := "Tom: " + body;
    assert shown[..5] == "Tom: " && shown[5..] == body;
  }

  lemma SignedRoundTrip(step: int)
    ensures ReadSigned((if step > 0 then "+" else "") + IntToString(step)) == Some(step)
  {
    var body := (if step > 0 then "+" else "") + IntToString(step);
    var n: nat := if step < 0 then -step else step;
    var digits := Decimal(n);
    ParseDecimal(n);
    if step > 0 {
      assert body == "+" + digits;
      assert body[1..] == digits;
    } else if step < 0 {
      assert body == "-" + digits;
      assert body[1..] == digits;
    } else {
      assert body == digits && body[0] == '0';
    }
  }

  /** The sign shown: `+` exactly for a positive step, `-` exactly for a negative one. */
  lemma StepLabelSign(step: int)
    ensures |StepLabel(step)| > 5
    ensures StepLabel(step)[5] == '+' <==> step > 0
    ensures StepLabel(step)[5] == '-' <==> step < 0
    ensures IsDigit(StepLabel(step)[5]) <==> step == 0
  {
    var digits := Decimal(if step < 0 then -step else step);
    if step > 0 {
      assert StepLabel(step) == "Tom: " + ("+" + digits);
    } else if step < 0 {
      assert StepLabel(step) == "Tom: " + ("-" + digits);
    } else {
      assert StepLabel(step) == "Tom: " + digits;
    }
  }

  // ---------------------------------------------------------------- the component

  /** One mounted viewer: the stored text it was given and the step its buttons change. */
  class CifraViewer {
    const rawText: string
    var transposeStep: int

    /** The component mounts with step 0. */
    constructor(rawText: string)
      ensures this.rawText == rawText && transposeStep == 0
      ensures TransposedText() == rawText
    {
      this.rawText := rawText;
      transposeStep := 0;
    }

    function TransposedText(): string
      reads this
    {
      ViewedText(rawText, transposeStep)
    }

    /** The `- Tom` button. */
    method StepDown()
      modifies this
      ensures transposeStep == old(transposeStep) - 1
      ensures TransposedText() == ViewedText(rawText, old(transposeStep) - 1)
    {
      transposeStep := transposeStep - 1;
    }

    /** The `+ Tom` button. */
    method StepUp()
      modifies this
      ensures transposeStep == old(transposeStep) + 1
      ensures TransposedText() == ViewedText(rawText, old(transposeStep) + 1)
    {
      transposeStep := transposeStep + 1;
    }

    /** The `Resetar` button: back to step 0, which shows the stored text unchanged. */
    method Reset()
      modifies this
      ensures transposeStep == 0 && TransposedText() == rawText
    {
      transposeStep := 0;
    }

    /** `renderedHtml` of the text shown for the current step. */
    method RenderedHtml() returns (html: Html)
      ensures html == RenderSpec(TransposedText())
    {
      var text := TransposedText();
      html := RenderHtml(text);
    }

    /** The text of the `Tom:` label. */
    function Label(): string
      reads this
    {
      StepLabel(transposeStep)
    }
  }

  /**
   * Pressing `+ Tom` and then `- Tom` (or the other way round) brings back the text shown
   * before: the text always follows from the stored text and the step alone.
   */
  method UpThenDown(v: CifraViewer)
    modifies v
    ensures v.transposeStep == old(v.transposeStep)
    ensures v.TransposedText() == old(v.TransposedText())
  {
    v.StepUp();
    v.StepDown();
  }
}
