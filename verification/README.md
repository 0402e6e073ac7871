# Chord sheet viewer, setlist editor and user administration — a Dafny model

This project models the logic of a church-music web client. There are three pieces.

- **Chord viewer.** It shows a chord sheet: free text that mixes lyric lines with chord lines.
  - It transposes every chord of the sheet by a number of semitones, chosen with `- Tom`, `+ Tom` and `Resetar` buttons.
  - It highlights the chords of every line it judges to be a chord line.
  - It reports the current step in a `Tom:` label.
- **Setlist editor.** It is the page where a celebration's setlist is put together:
  - add, remove and re-key songs;
  - toggle catalogue categories in the search filter;
  - build the payload that saves the setlist with 1-based orders.
- **User administration page.** An administrator picks a user, changes their role (Admin, Coordenador, Musico) and, for a Coordenador, the church they manage. The page refuses to save a Coordenador without a church.

The modules follow the source:

- `Notes`: the pitch table, flat aliases and `shiftNote`.
- `Transpose`: `transposeChord` and `transposeText`.
- `Highlight`: the `renderedHtml` loops, written as methods with loop invariants and proved against recursive specification functions.
- `Viewer`: the component and its step counter, as a class.
- `Setlist`: the editor page, as pure update functions plus a class whose methods replace its `setlist` and `filterCategorias` fields.
- `Roles` and `AdminUsers`: the role names, the update and its check, and a class holding the `editingUser` state.
- `JsText` and `JsNumbers` model the JavaScript primitives the code relies on:
  - white space as `\s` and `trim` see it;
  - `split` on a character;
  - `split(/(\s+)/)`, which keeps its separators;
  - `indexOf`;
  - `replace` with a string replacement, including its `$&`, `$$`, `` $` `` and `$'` patterns;
  - JavaScript's truncating `%`;
  - `String(n)`;
  - `parseInt`.

Markup is modelled as a sequence of glyphs: a text character, a span opening or a span closing. A line's highlighted form is compared with its text through `Strip`, which drops the markers.

Where the code's evident intent and its behaviour disagree, the model follows the code. Three such places are listed under Findings.

- The viewer pipeline (`TransposeText`, `RenderSpec`) models the code as written.
- The corrected definitions are proved, and lemmas connect them to the as-written ones. Each agreement lemma says where the two coincide:
  - `Notes.ShiftNoteIntendedAgrees`: recognised roots whose computed index is not negative.
  - `Transpose.TransposePartIntendedAgrees`: words without `$`.
  - `Highlight.RenderLineIntendedAgrees`: lines without `$`.

## Model

| member | source | states |
|---|---|---|
| Notes.SharpsDistinct | src/components/CifraViewer.tsx:3 | The pitch table has twelve pairwise distinct spellings. |
| Notes.RootLength | src/components/CifraViewer.tsx:16 | The root match `/^[A-G][#b]?/` is empty exactly when the text does not start with a note letter, and has length 2 exactly when a `#` or `b` follows the letter. |
| Notes.NoteIndex | src/components/CifraViewer.tsx:22 | `SHARPS.indexOf` gives an index whose entry is the name, and fails exactly when the name is not in the table. |
| Notes.RootIndexIsPitch | src/components/CifraViewer.tsx:4-13 | For every root spelling, the index read after flat normalisation is its equal-temperament pitch class. The exceptions are Cb, Fb, E# and B#, which are not recognised. |
| Notes.JsRem12 | src/components/CifraViewer.tsx:25 | JavaScript's `% 12` lies strictly between -12 and 12, is congruent to the dividend, and takes the dividend's sign. |
| Notes.ShiftNoteMovesRoot | src/components/CifraViewer.tsx:15-27 | A recognised root at index i is replaced by `SHARPS[(i+step) mod 12]` while `i+step+12 >= 0`, and the rest of the text is kept. Below that, the result is `undefined` followed by the rest, except at a multiple of 12, where it is `C`. |
| Notes.ShiftNoteKeepsNonRoot | src/components/CifraViewer.tsx:16-17 | Text that does not start with a root letter is returned unchanged, whatever the step. |
| Notes.ShiftNoteKeepsUnknownRoot | src/components/CifraViewer.tsx:21-23 | A root that is not in the table after normalisation leaves the text unchanged. |
| Notes.ShiftNotePeriodic | src/components/CifraViewer.tsx:25 | Steps n and n+12 give the same result whenever `n >= -12-i`. |
| Notes.ShiftNoteRoundTrip | src/components/CifraViewer.tsx:15-27 | Shifting by n and then by -n, for `-12 <= n <= 12`, gives the sharp spelling of the original root followed by the original rest. The text after the root must not begin with `#` or `b`. |
| Notes.NormalizeNote | src/components/CifraViewer.tsx:6-13 | `normalizeNote`: a leading flat from the alias table becomes its sharp. Its behaviour is stated through `Notes.RootIndexIsPitch`. |
| Notes.ShiftNote | src/components/CifraViewer.tsx:15-27 | `shiftNote`. Its behaviour is stated by `Notes.ShiftNoteKeepsNonRoot`, `Notes.ShiftNoteMovesRoot`, `Notes.ShiftNoteKeepsUnknownRoot`, `Notes.ShiftNotePeriodic`, `Notes.ShiftNoteRoundTrip` and `Notes.ShiftNoteChars`. |
| Notes.ShiftNoteIntended | src/components/CifraViewer.tsx:25-26 | The wrap-around shift. Its behaviour is stated by `Notes.ShiftNoteIntendedAgrees`, `Notes.ShiftNoteIntendedPeriodic` and `Notes.ShiftNoteIntendedRoundTrip`. |
| Notes.ShiftNoteChars | src/components/CifraViewer.tsx:26 | Every character of a shifted note comes from the input or from a spelling, and a recognised root still starts the result. |
| Notes.ShiftBelowTableIsUndefined | src/components/CifraViewer.tsx:25-26 | `C` shifted by -13 reads `undefined`. The corrected shift gives `B`. |
| Notes.ShiftNoteIntendedAgrees | src/components/CifraViewer.tsx:25 | The corrected shift equals the code's shift wherever the code's index is not negative. |
| Notes.ShiftNoteIntendedPeriodic | src/components/CifraViewer.tsx:25 | The corrected shift has period 12 for every step. |
| Notes.ShiftNoteIntendedRoundTrip | src/components/CifraViewer.tsx:15-27 | With the corrected shift, shifting by n and then by -n gives the sharp spelling of the root and the rest back, for every n. The text after the root must not begin with `#` or `b`. |
| Transpose.TransposeChord | src/components/CifraViewer.tsx:29-37 | Every character of a transposed chord comes from the chord or from a spelling, and a chord starting with a note letter starts with a spelling afterwards. |
| Transpose.TransposeChordKeepsNonChord | src/components/CifraViewer.tsx:34-35 | A segment without a slash that does not match the chord pattern comes back unchanged, as in the bass of `C/x` or the empty segment of `C/`. |
| Transpose.TransposeChordMovesRoot | src/components/CifraViewer.tsx:34-36 | A chord without a slash has its root moved as `shiftNote` moves it, and its suffix is kept verbatim. |
| Transpose.TransposeChordSlash | src/components/CifraViewer.tsx:30-32 | A slash chord becomes exactly two `/`-separated segments: the transposed first and second segments. Anything after a second slash is dropped. |
| Transpose.TransposeChordRoundTrip | src/components/CifraViewer.tsx:29-37 | Transposing a plain chord by n and back by -n (`abs(n) <= 12`) gives its sharp spelling back. The text after the root must not begin with `#` or `b`. |
| Transpose.FlatAtStepZero | src/components/CifraViewer.tsx:4 | `Db` transposed by 0 is `C#`: the output is always sharp-spelled. |
| Transpose.DownFromC | src/components/CifraViewer.tsx:25-26 | `C` transposed by -1 is `B`. |
| Transpose.TransposePartOfSpace | src/components/CifraViewer.tsx:44-45 | A white-space token comes back unchanged. |
| Transpose.TransposePartOfWord | src/components/CifraViewer.tsx:43-50 | A word starting with a note letter is replaced by its transposition after the `$` patterns are applied. Without `$` it is exactly the transposed chord. Any other word is unchanged. |
| Transpose.TransposePart | src/components/CifraViewer.tsx:43-50 | One part of the split line. Its behaviour is stated by `Transpose.TransposePartOfSpace`, `Transpose.TransposePartOfWord` and `Transpose.TransposedWordShape`. |
| Transpose.TransposeLine | src/components/CifraViewer.tsx:41-52 | One line of `transposeText`. Its behaviour is stated by `Transpose.TransposeLineTokens`. |
| Transpose.TransposeText | src/components/CifraViewer.tsx:39-54 | `transposeText`. Its behaviour is stated by `Transpose.TransposeTextLines` and `Transpose.TransposeTextAvoidsDollar`. |
| Transpose.TransposePartIntended | src/components/CifraViewer.tsx:48 | The token replacement that puts the chord in verbatim. Its behaviour is stated by `Transpose.TransposePartIntendedOfWord` and `Transpose.TransposePartIntendedAgrees`. |
| Transpose.TransposedWordShape | src/components/CifraViewer.tsx:43-50 | A transposed word is still one non-empty word, made of its own characters and spellings. |
| Transpose.TransposeLineTokens | src/components/CifraViewer.tsx:42-51 | Splitting a transposed line on white space gives exactly the transposed tokens of the line. Token count, token order and white-space runs are unchanged. |
| Transpose.TransposeTextLines | src/components/CifraViewer.tsx:39-54 | The lines of a transposed text are the transposed lines of the text, and their number is unchanged. |
| Transpose.TransposeTextAvoidsDollar | src/components/CifraViewer.tsx:39-54 | Transposition never brings a `$` into a text that had none. |
| Transpose.DollarPatternExpands | src/components/CifraViewer.tsx:48 | A token `X$&` is rewritten to the shifted root followed by the whole token. The corrected token rewrite gives the shifted root followed by `$&`. |
| Transpose.TransposePartIntendedOfWord | src/components/CifraViewer.tsx:43-50 | The corrected rewrite replaces a chord word by exactly its transposition, `$` or not. |
| Transpose.TransposePartIntendedAgrees | src/components/CifraViewer.tsx:48 | On words without `$`, the code's rewrite and the corrected one agree. |
| JsText.Trim | src/components/CifraViewer.tsx:44 | `trim` removes exactly the white space at the two ends. The text is its leading white space, then the result, then trailing white space. The result has no white space at either end, white-space-free text is left alone, and the result is empty exactly for all-white-space text. |
| JsText.TrimOccurs | src/components/CifraViewer.tsx:48 | The trimmed token occurs in the token right after its leading white space, so `indexOf` finds it. |
| JsText.SplitOn | src/components/CifraViewer.tsx:40 | `split` gives at least one part, no part holds the separator, and the result is a single part exactly when the separator is absent. |
| JsText.JoinSplit | src/components/CifraViewer.tsx:40-53 | Joining the parts of a split with the separator gives the text back. |
| JsText.SplitJoin | src/components/CifraViewer.tsx:40-53 | Splitting a join of separator-free parts gives the parts back. |
| JsText.SplitKeepingSpaceSound | src/components/CifraViewer.tsx:42 | `split(/(\s+)/)` gives words at even places and non-empty white-space runs at odd places, and concatenating them gives the line. |
| JsText.SplitKeepingSpaceOfConcat | src/components/CifraViewer.tsx:42-51 | Splitting the concatenation of such a shape gives the same parts back. |
| JsText.IndexOf | src/components/CifraViewer.tsx:48 | `indexOf` returns the first place where the pattern occurs, and nothing only when it occurs nowhere. |
| JsText.Substitute | src/components/CifraViewer.tsx:87-89 | A replacement string without `$` is used verbatim, and every character of the expansion comes from the template, the match or its context. |
| JsText.SubstituteDollarAmp | src/components/CifraViewer.tsx:48 | A trailing `$&` expands to the matched text. |
| JsText.Replace | src/components/CifraViewer.tsx:48 | `replace` with a string pattern and a string replacement. Its behaviour is stated by `JsText.ReplaceWhole` and `JsText.ReplaceAgrees`. |
| JsText.ReplaceWhole | src/components/CifraViewer.tsx:48 | Replacing a whole string gives the expanded replacement, and exactly the replacement when it has no `$`. |
| JsText.ReplaceAgrees | src/components/CifraViewer.tsx:87 | Without `$` in the replacement, `replace` is a literal replacement. |
| JsNumbers.Decimal | src/components/CifraViewer.tsx:124 | `String(n)` is a non-empty run of digits with no leading zero. |
| JsNumbers.ParseDecimal | src/components/CifraViewer.tsx:124 | Reading the digits of `String(n)` gives n back. |
| JsNumbers.ParseInt | src/pages/AdminUsersPage.tsx:140 | `parseInt` of a decimal string. Its behaviour is stated by `JsNumbers.ParseIntOfString`, and `AdminUsers.ChurchChoiceChecked` covers the empty option. |
| JsNumbers.ParseIntOfString | src/pages/AdminUsersPage.tsx:140 | `parseInt(String(i))` is i for every integer, so a church option's value reads back as its id. |
| Highlight.CountLine | src/components/CifraViewer.tsx:74-81 | The counting loop yields the number of non-blank tokens and the number of those that start with a note letter. |
| Highlight.HighlightLine | src/components/CifraViewer.tsx:83-93 | The highlighting loop builds exactly the concatenated highlight of every token. |
| Highlight.RenderLine | src/components/CifraViewer.tsx:73-97 | One line renders highlighted when `10*chords > 3*tokens`, and verbatim otherwise. |
| Highlight.RenderHtml | src/components/CifraViewer.tsx:68-99 | The line loop renders every line and joins the results with `\n`. |
| Highlight.HighlightPart | src/components/CifraViewer.tsx:85-92 | The highlight of one token. Its behaviour is stated by `Highlight.HighlightPartShape` (chord tokens), `Highlight.HighlightPartCount` (other tokens are appended as they are, `$` or not) and `Highlight.HighlightPartStrip`. |
| Highlight.RenderLineSpec | src/components/CifraViewer.tsx:73-97 | The rendering of one line. A line that is not a chord line is emitted as it is, `$` or not. Its behaviour is stated by `Highlight.RenderLineFacts` and `Highlight.RenderLineAvoids`, and `Highlight.RenderLine` computes it. |
| Highlight.RenderSpec | src/components/CifraViewer.tsx:68-99 | The rendering of the whole text. Its behaviour is stated by `Highlight.RenderKeepsLines` and `Highlight.RenderStripsToText`, and `Highlight.RenderHtml` computes it. |
| Highlight.RenderLineIntended | src/components/CifraViewer.tsx:73-97 | The line rendering that places chord text verbatim. Its behaviour is stated by `Highlight.RenderLineIntendedStrip` and `Highlight.RenderLineIntendedAgrees`. |
| Highlight.HighlightPartShape | src/components/CifraViewer.tsx:85-89 | A chord token's span wraps the first occurrence of the trimmed token, and the text around it is kept. |
| Highlight.HighlightPartCount | src/components/CifraViewer.tsx:84-92 | A token gets one opening and one closing marker exactly when it is a chord token, and none otherwise. Any other token is appended as it is, even when it holds `$`. |
| Highlight.HighlightPartStrip | src/components/CifraViewer.tsx:84-92 | Dropping the markers from a highlighted token without `$` gives the token back. |
| Highlight.HighlightPartsCount | src/components/CifraViewer.tsx:84-93 | A highlighted line holds one balanced span per chord token. |
| Highlight.HighlightPartsStrip | src/components/CifraViewer.tsx:84-93 | Dropping the markers from a highlighted line without `$` gives the concatenated tokens back. |
| Highlight.RenderLineFacts | src/components/CifraViewer.tsx:73-97 | A chord line carries one span per chord token and any other line carries none. Without `$`, dropping the markers gives the line back. A line that is not a chord line is emitted as it is, even when it holds `$`. |
| Highlight.RenderLineAvoids | src/components/CifraViewer.tsx:73-97 | The visible text of a rendered line holds no character that the line lacks. |
| Highlight.StripJoin | src/components/CifraViewer.tsx:99 | The visible text of joined lines is the join of their visible texts. |
| Highlight.RenderKeepsLines | src/components/CifraViewer.tsx:69-99 | The rendered text has as many lines as the input, and line k shows the rendering of input line k. |
| Highlight.RenderStripsToText | src/components/CifraViewer.tsx:68-99 | For a text without `$`, dropping every marker gives the text back. |
| Highlight.HighlightPartIntendedFacts | src/components/CifraViewer.tsx:87-89 | The corrected highlight gives every token back when its markers are dropped, and has one span per chord token. |
| Highlight.HighlightPartsIntendedStrip | src/components/CifraViewer.tsx:84-93 | Every line highlighted the corrected way gives its tokens back when the markers are dropped, and has one span per chord token. |
| Highlight.RenderLineIntendedStrip | src/components/CifraViewer.tsx:73-97 | A line rendered the corrected way shows exactly the line, `$` or not. |
| Highlight.RenderLineIntendedAgrees | src/components/CifraViewer.tsx:87 | On lines without `$`, the code's and the corrected rendering agree. |
| Highlight.DollarInChordCollapses | src/components/CifraViewer.tsx:87-89 | The line `A$$` renders showing `A$`. The corrected rendering shows `A$$`. |
| Viewer.ViewedText | src/components/CifraViewer.tsx:63-66 | `transposedText`: the stored text at step 0, and its transposition otherwise. Its behaviour is stated by `Viewer.ViewedTextKeepsLines` and `Viewer.StepZeroIsNotTransposition`. |
| Viewer.StepLabel | src/components/CifraViewer.tsx:124 | The `Tom:` label. Its behaviour is stated by `Viewer.StepLabelRoundTrip` and `Viewer.StepLabelSign`. |
| Viewer.ViewedTextKeepsLines | src/components/CifraViewer.tsx:63-66 | At every step, the text shown has as many lines as the stored text. |
| Viewer.StepZeroIsNotTransposition | src/components/CifraViewer.tsx:63-66 | Step 0 shows the stored text itself, whereas transposing by 0 would respell `Db` as `C#`. |
| Viewer.StepLabelRoundTrip | src/components/CifraViewer.tsx:124 | The `Tom:` label reads back as exactly the current step. |
| Viewer.StepLabelSign | src/components/CifraViewer.tsx:124 | The label shows `+` exactly for a positive step and `-` exactly for a negative one. |
| Viewer.CifraViewer.constructor | src/components/CifraViewer.tsx:61 | The viewer mounts at step 0 and shows the stored text. |
| Viewer.CifraViewer.StepDown | src/components/CifraViewer.tsx:106 | `- Tom` lowers the step by one, and the text shown is the stored text transposed to the new step. |
| Viewer.CifraViewer.StepUp | src/components/CifraViewer.tsx:112 | `+ Tom` raises the step by one, and the text shown is the stored text transposed to the new step. |
| Viewer.CifraViewer.Reset | src/components/CifraViewer.tsx:118 | `Resetar` returns to step 0, which shows the stored text. |
| Viewer.CifraViewer.RenderedHtml | src/components/CifraViewer.tsx:68-100 | The markup is the rendering of the text shown for the current step. |
| Viewer.UpThenDown | src/components/CifraViewer.tsx:106-112 | `+ Tom` followed by `- Tom` restores the step and the text shown, because the text is always computed from the stored text. |
| Setlist.Added | src/pages/CelebracaoEditPage.tsx:108-117 | `handleAdd`'s new setlist. Its behaviour is stated by `Setlist.AddedFacts` and `Setlist.RemoveUndoesAdd`. |
| Setlist.Removed | src/pages/CelebracaoEditPage.tsx:118-120 | `handleRemove`'s new setlist. Its behaviour is stated by `Setlist.RemovedMembers`, `Setlist.RemovedConcat`, `Setlist.RemovedAbsent`, `Setlist.RemovedFacts` and `Setlist.RemovedDistinct`. |
| Setlist.WithTom | src/pages/CelebracaoEditPage.tsx:121-127 | `handleTomChange`'s new setlist. Its behaviour is stated by `Setlist.WithTomAt`, `Setlist.WithTomKeepsSongs` and `Setlist.WithTomIdempotent`. |
| Setlist.Toggled | src/pages/CelebracaoEditPage.tsx:128-134 | `handleFilterChange`'s new selection. Its behaviour is stated by `Setlist.ToggledMembers`, `Setlist.ToggleTwiceAbsent` and `Setlist.ToggleTwiceSelection`. |
| Setlist.Payload | src/pages/CelebracaoEditPage.tsx:139-145 | The saved setlist's entries. Its behaviour is stated by `Setlist.PayloadFacts` and `Setlist.PayloadKeepsSongs`. |
| Setlist.CelebracaoEditor.SubmitPayload | src/pages/CelebracaoEditPage.tsx:139-145 | The payload `handleSubmit` posts for the current setlist, which is `Setlist.Payload` of it. |
| Setlist.AddedFacts | src/pages/CelebracaoEditPage.tsx:108-117 | Adding a listed song changes nothing. Adding an unlisted one appends exactly one item after the unchanged earlier items: the song's id, title and artist, in key `G`. The song is listed afterwards, and a setlist without repeats stays without them. |
| Setlist.RemovedMembers | src/pages/CelebracaoEditPage.tsx:118-120 | An item survives the removal exactly when it was there and belongs to another song. |
| Setlist.RemovedConcat | src/pages/CelebracaoEditPage.tsx:118-120 | Removal works stretch by stretch, so the surviving items keep their order. |
| Setlist.RemovedAbsent | src/pages/CelebracaoEditPage.tsx:118-120 | Removing a song that is not listed changes nothing. |
| Setlist.RemovedFacts | src/pages/CelebracaoEditPage.tsx:118-120 | After the removal no item of the song is left, and a setlist without repeats stays without them. |
| Setlist.RemovedDistinct | src/pages/CelebracaoEditPage.tsx:118-120 | Removal keeps the song ids distinct. |
| Setlist.RemoveUndoesAdd | src/pages/CelebracaoEditPage.tsx:108-120 | Adding an unlisted song and then removing it gives the setlist back. |
| Setlist.WithTomAt | src/pages/CelebracaoEditPage.tsx:121-127 | A key change keeps length, order, songs, titles and artists. Only the matching items get the new key. |
| Setlist.WithTomKeepsSongs | src/pages/CelebracaoEditPage.tsx:121-127 | A key change keeps which songs are listed and keeps the ids distinct. |
| Setlist.WithTomIdempotent | src/pages/CelebracaoEditPage.tsx:121-127 | Setting the same key twice is the same as setting it once. |
| Setlist.ToggledMembers | src/pages/CelebracaoEditPage.tsx:128-134 | A toggle selects the category exactly when it was not selected, and leaves every other category as it was. |
| Setlist.ToggleTwiceAbsent | src/pages/CelebracaoEditPage.tsx:128-134 | Toggling an unselected category twice restores the list exactly. |
| Setlist.ToggleTwiceSelection | src/pages/CelebracaoEditPage.tsx:128-134 | Toggling any category twice restores the selection, though not always its order. |
| Setlist.PayloadFacts | src/pages/CelebracaoEditPage.tsx:139-145 | The payload has one entry per item, in setlist order, with that item's song and key and `ordem` = place + 1, so the orders are 1..n and increasing. |
| Setlist.PayloadKeepsSongs | src/pages/CelebracaoEditPage.tsx:139-145 | For every place there is an entry with that order, and every entry with that order carries that place's song and key. |
| Setlist.CelebracaoEditor.constructor | src/pages/CelebracaoEditPage.tsx:39-44 | The page starts with an empty setlist and no category selected. |
| Setlist.CelebracaoEditor.LoadSetlist | src/pages/CelebracaoEditPage.tsx:61-67 | The loaded setlist replaces the state, and the filter is untouched. |
| Setlist.CelebracaoEditor.HandleAdd | src/pages/CelebracaoEditPage.tsx:108-117 | The new setlist is the added one, and it lists the song. Distinct ids stay distinct, and the filter is untouched. |
| Setlist.CelebracaoEditor.HandleRemove | src/pages/CelebracaoEditPage.tsx:118-120 | The new setlist is the filtered one, and it no longer lists the song. Distinct ids stay distinct, and the filter is untouched. |
| Setlist.CelebracaoEditor.HandleTomChange | src/pages/CelebracaoEditPage.tsx:121-127 | The new setlist is the re-keyed one, with the same length. Distinct ids stay distinct, and the filter is untouched. |
| Setlist.CelebracaoEditor.HandleFilterChange | src/pages/CelebracaoEditPage.tsx:128-134 | The filter is toggled, the category's membership flips, and the setlist is untouched. |
| Roles.RoleNames | src/auth/role.definition.ts:2-8 | Each role's name reads back as that role, and a name reads as a role only when it is that role's name. |
| AdminUsers.BuildDto | src/pages/AdminUsersPage.tsx:61-64 | The update body. Its behaviour is stated by `AdminUsers.ChurchField` and `AdminUsers.SaveEditOutcome`. |
| AdminUsers.SaveEdit | src/pages/AdminUsersPage.tsx:58-72 | `handleSaveEdit` up to the request. Its behaviour is stated by `AdminUsers.SaveEditOutcome`, `AdminUsers.ChurchChoiceChecked` and `AdminUsers.OtherRolesPass`. |
| AdminUsers.SaveEditOutcome | src/pages/AdminUsersPage.tsx:58-72 | Saving does nothing exactly when no user is being edited. It stops at the alert exactly when the user is a Coordenador without a church (none, `NaN` or 0). Otherwise it sends the user's id and role, with the church id for a Coordenador and `null` for any other role. |
| AdminUsers.ChurchField | src/pages/AdminUsersPage.tsx:61-66 | For a Coordenador, the update's church field is falsy exactly when the user has no church with a non-zero id. |
| AdminUsers.ChurchChoiceChecked | src/pages/AdminUsersPage.tsx:140 | A Coordenador left on the placeholder option (`parseInt('')` is `NaN`) is refused. One given a church id other than 0 is sent with that id. |
| AdminUsers.OtherRolesPass | src/pages/AdminUsersPage.tsx:61-69 | Every role other than Coordenador passes the check, and its church field is `null`. |
| AdminUsers.AdminUsersPage.constructor | src/pages/AdminUsersPage.tsx:23 | The page starts with no user being edited. |
| AdminUsers.AdminUsersPage.HandlePromote | src/pages/AdminUsersPage.tsx:50-52 | `Gerenciar` makes the chosen user the one being edited. |
| AdminUsers.AdminUsersPage.HandleCancelEdit | src/pages/AdminUsersPage.tsx:54-56 | `Cancelar` clears the user being edited. |
| AdminUsers.AdminUsersPage.HandleRoleChange | src/pages/AdminUsersPage.tsx:127 | The role select changes only the edited user's role. |
| AdminUsers.AdminUsersPage.HandleChurchChange | src/pages/AdminUsersPage.tsx:140 | The church select sets the edited user's church to `parseInt` of the option value. |
| AdminUsers.AdminUsersPage.HandleSaveEdit | src/pages/AdminUsersPage.tsx:58-79 | `Salvar` returns the outcome of the checks. The edit state is cleared only when the update was sent and the server accepted it. |

## Left out

- Fetching and saving over HTTP is not modelled: loading the celebration, the catalogue, users and churches, posting the setlist, and patching a user. The loaded data and the server's verdict on a patch become parameters: `Setlist.CelebracaoEditor.LoadSetlist` and the `patchSucceeded` argument of `AdminUsers.AdminUsersPage.HandleSaveEdit`. Alerts, console output, loading flags and navigation are left out.
- `useDebounce` in src/pages/CelebracaoEditPage.tsx is timer-based and is not modelled.
- The catalogue query built with `URLSearchParams` is not modelled; it is a library call followed by a fetch.
- JSX rendering, `dangerouslySetInnerHTML`, styling and routing are not modelled. The span's class attribute is reduced to an opening marker, and markup is not escaped or interpreted. A `<` in a lyric line therefore stays a character of the model.
- `useMemo` caching is not modelled: the text shown and the markup are recomputed from the state, which is what the cache returns.
- Highlight.RenderLine: `chordCount / tokenCount > 0.3` is a floating-point test; the model uses `10*chords > 3*tokens`, which agrees for every count a line can have.
- Viewer.StepLabel: `String(step)` of a JavaScript number is modelled for integers only. Steps of magnitude 2^53 and more, where numbers lose precision, are out of scope.
- JsNumbers.ParseInt: the `0x` hexadecimal prefix and fractional input are not modelled. The church options' values are decimal strings of ids.
- JsText.IsSpace lists the white-space characters of `\s` and `trim`. No Unicode tables beyond that list are modelled.
- Song, category, user and church ids are modelled as integers. A church id that the select turns into `NaN` is modelled explicitly.
- Which row of the user table is shown in edit mode is rendering only and is not modelled.
- The category toggles of src/pages/CifrasPage.tsx, src/pages/CifraEditPage.tsx and src/pages/CifraCreatePage.tsx are the same code as `handleFilterChange`. They are covered by `Setlist.Toggled` and its lemmas.
- `formatarData`, role-based show/hide checks and token storage are outside the modelled pages.

## Findings

| source | as written | input that shows it | evidently intended | confidence | as-written member | corrected member |
|---|---|---|---|---|---|---|
| src/components/CifraViewer.tsx:25-26 | `(i + step + 12) % 12` uses JavaScript's truncating `%`, so for `i + step + 12 < 0` the index is negative and `SHARPS[ni]` is `undefined` | `C` at step -13 (the `- Tom` button pressed 13 times) | the root wraps around the table for any step; `C` at -13 is `B` | not executed | Notes.ShiftBelowTableIsUndefined | Notes.ShiftNoteIntendedRoundTrip |
| src/components/CifraViewer.tsx:48 | `p.replace(trimmed, trans)` passes the transposed chord as a replacement string, so `$&`, `$$`, `` $` `` and `$'` in it are expanded | the word `C$&` at step 2 becomes `DC$&` | the chord is put in verbatim: `D$&` | not executed | Transpose.DollarPatternExpands | Transpose.TransposePartIntendedOfWord |
| src/components/CifraViewer.tsx:87-89 | the span template holding the token is passed as a replacement string, so `$` patterns in the token are expanded | the line `A$$` is shown as `A$` | the highlighted line shows its own text: `A$$` | not executed | Highlight.DollarInChordCollapses | Highlight.RenderLineIntendedStrip |
