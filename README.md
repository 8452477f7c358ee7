# UI layout auditor — verified model of its scoring and parsing core

The auditor compares a rendered Android screen with its Figma design. A list
of matched design/app element pairs goes in, and out come per-component
verdicts on size, vertical spacing, horizontal padding and style, plus a
summary. The pieces around that comparison are modelled as well:

- the flattening of a Figma node tree into components;
- the cleaning of the vision model's reply into JSON text;
- the cutting of a tall screenshot into 1920-pixel bands, and the
  filtering and re-basing of each band's detected records;
- the cap on the list of expected components put into the prompt;
- the selection rules of the HTML report.

The model has five modules:

- `Basics` (`basics.dfy`): `Option`, the `bounds` dictionary as a map from
  keys `x`/`y`/`w`/`h` to reals, and Python's `round` (ties to even), `abs`
  and `int` on a float.
- `Comparator` (`comparator.dfy`): the four checkers as functions.
  `_check_dimensions` loops over `w` and `h`, so it is also the method
  `CheckDimensions`, proved to return `Dimensions`. `CheckHorizontalPaddings`
  is the straight-line method proved to return `Paddings`. The vertical
  spacing and style checks have no loop and are the functions
  `VerticalSpacing` and `StyleVerdict`. `compare_layouts` is a method,
  proved against `ComponentAt`; the sort is stable and keyed on design y.
- `ImageAnalyzer` (`image_analyzer.dfy`): the reply cleaner, with the two
  regular expressions written out as leftmost-match searches. It also holds
  the band filter, which works in place on an `array` just as the source
  mutates the decoded records; the slice plan; and the prompt cap.
- `FigmaClient` (`figma_client.dfy`): the node tree as a datatype. The
  recursive traversal is a pair of methods that thread the shared
  `components` list. Next to it is a reference reading: pre-order of the
  unpruned nodes, filtered, then converted.
- `ReportGenerator` (`report_generator.dfy`): the status icons, the table
  filters, and the style-detail list, which carries the finding below.

Notes on what the code does:

- The code has no calibration step and no greedy matcher: the pairs arrive
  already matched.
- The code has no relative tolerance. Every check compares
  `abs(round(design*scale) - app) > tolerance` in pixels.
- Negative vertical gaps are not clamped (`Comparator.OverlapIsNotClamped`).
- Width is checked for Text elements too.
- The style check compares the colour, font and background dictionaries;
  any difference is an `audit` and never a `fail`.
- A ghost box is any textless Container, whatever its size.
- A pair without design `y` turns the whole result into an error report;
  it is not moved to an "unmatched" bucket.

## Model

| member | source | states |
|---|---|---|
| Basics.Round | comparator.py:22 | Python `round`: within 0.5 of its argument, an exact tie goes to the even neighbour, integers are fixed |
| Basics.Trunc | figma_client.py:159-161 | `int()` on a float truncates toward zero: magnitude within one below the argument's, same sign |
| Comparator.Dimensions | comparator.py:11-34 | fail iff `w` or `h` present on both sides differs from `round(design*scale)` by more than the tolerance; pass iff the message is OK; each diff names w/h with its expected pixels and exceeds the tolerance; at most two diffs |
| Comparator.CheckDimensions | comparator.py:11-34 | the loop over `['w','h']` skipping keys missing on either side returns exactly `Dimensions` |
| Comparator.Paddings | comparator.py:62-95 | fail iff the left gap or the right gap (`width - (x + w)`) misses its scaled design value by more than the tolerance; the pass message carries the app's left and right gaps |
| Comparator.CheckHorizontalPaddings | comparator.py:62-95 | the imperative check returns exactly `Paddings` |
| Comparator.PaddingsMirrorSymmetric | comparator.py:62-95 | mirroring both screens left-to-right gives the same padding verdict |
| Comparator.VerticalSpacing | comparator.py:98-126 | pass iff the app gap (top minus previous bottom) is within the tolerance of the rounded scaled design gap; that gap is in the pass message, and the expected and actual gaps are in the fail message |
| Comparator.SpacingIgnoresCommonShift | comparator.py:98-126 | moving both app elements down by the same amount leaves the spacing verdict unchanged |
| Comparator.OverlapIsNotClamped | comparator.py:106-117 | a design overlap of 30 against touching app elements fails: negative gaps are compared unclamped |
| Comparator.StylesOf | comparator.py:43-51 | `color`/`font`/`bgColor` are present exactly when the prop is truthy, the font rendered as `FontOf` gives it; the dictionary is empty iff nothing is given |
| Comparator.OneDecimal | comparator.py:45 | the digits of the `:.1f` rendering: the value in tenths, rounded half to even |
| Comparator.FontOf | comparator.py:45 | the `font` entry is the value in tenths together with its sign, so a negative value that rounds to 0 renders as "-0.0dp" |
| Comparator.FontOfSame | comparator.py:45 | two font sizes render alike iff they agree in tenths and both or neither are negative |
| Comparator.SignedZeroFonts | comparator.py:45 | -0.04 and 0.04 both round to 0 tenths, yet render differently |
| Comparator.SignedZeroFontAudits | comparator.py:37-59 | design font -0.04 against app font 0.04 is a style audit |
| Comparator.StyleVerdict | comparator.py:37-59 | never fail; n/a iff neither side gives a style; audit iff the two dictionaries differ; pass iff some style is given and they agree; both dictionaries are returned |
| Comparator.InsertByYPermutes | comparator.py:155-158 | inserting one pair adds exactly that pair to the multiset |
| Comparator.SortByYPermutes | comparator.py:154-158 | the sort returns a permutation of its input |
| Comparator.SortByYSorted | comparator.py:154-158 | the result is ascending in design y |
| Comparator.SortByYStable | comparator.py:154-158 | pairs with equal design y keep their input order, as Python's `sorted` is stable |
| Comparator.SortByYKeepsKeys | comparator.py:154-158 | sorting keeps every pair's design y readable |
| Comparator.InsertByYSorted | comparator.py:154-158 | inserting into an ascending list keeps it ascending |
| Comparator.InsertByYStable | comparator.py:154-158 | insertion places the pair after those with an equal y |
| Comparator.NameOf | comparator.py:170 | a pair with a `name` gets that name; a pair without one gets the placeholder for its index |
| Comparator.LayoutOf | comparator.py:194-197 | the layout verdict is fail iff dimensions, spacing or padding failed, otherwise pass |
| Comparator.SpacingAt | comparator.py:182-186 | the first component gets the n/a "first component" result; the others are checked against their predecessor in sorted order |
| Comparator.ComponentAt | comparator.py:168-217 | each report card carries its pair's raw data; layout fail iff a layout check failed; style audit iff the style dictionaries differ; the style status is the style test's |
| Comparator.PassesAreTheRest | comparator.py:222 | when every layout verdict is pass or fail, passes are the total minus the failures |
| Comparator.ComponentsInDesignOrder | comparator.py:154-203 | the cards come out in ascending design y |
| Comparator.CheckPair | comparator.py:169-217 | the body of the per-pair loop builds exactly `ComponentAt` |
| Comparator.CompareSorted | comparator.py:163-200 | the loop yields one card per pair, `ComponentAt` for each, and counts layout failures and style audits |
| Comparator.CompareLayouts | comparator.py:130-226 | empty input gives the error summary; a missing design y gives the malformed report; otherwise the cards are the sorted pairs' results, errors are the layout failures, successes are the rest and equal the passes, audits are counted, warnings are 0, and the scale is `app_width / figma_width` |
| ImageAnalyzer.Strip | image_analyzer.py:102 | `str.strip`: the result has no surrounding whitespace and is no longer than the input |
| ImageAnalyzer.StripSpans | image_analyzer.py:102 | what `strip` keeps is the slice of the input right after its leading whitespace, and everything after it is whitespace |
| ImageAnalyzer.LeadingSpacesRun | image_analyzer.py:102 | the leading run counted is whitespace and the character after it is not |
| ImageAnalyzer.TrailingSpacesRun | image_analyzer.py:102 | the trailing run counted is whitespace and the character before it is not |
| ImageAnalyzer.StripUnique | image_analyzer.py:102 | stripping whitespace around a stripped core gives back the core |
| ImageAnalyzer.StripIdempotent | image_analyzer.py:102 | stripping twice is stripping once |
| ImageAnalyzer.FirstMatch | image_analyzer.py:101-104 | the leftmost position where the fence pattern matches, or none anywhere |
| ImageAnalyzer.GroupCloses | image_analyzer.py:101 | skipping the whitespace after the opener keeps the closing fence the match needs in reach |
| ImageAnalyzer.FindChar | image_analyzer.py:107 | `str.find`: the first index of the character, or none when it is absent |
| ImageAnalyzer.RFindChar | image_analyzer.py:108 | `str.rfind`: the last index of the character, or none when it is absent |
| ImageAnalyzer.ExtractJson | image_analyzer.py:97-111 | none iff the text is missing or empty; otherwise a stripped string no longer than the text |
| ImageAnalyzer.JsonFenceRoundTrip | image_analyzer.py:100-101 | a reply holding a json fence around backtick-free content, with no backtick before it, yields that content stripped |
| ImageAnalyzer.ExtractByAnyFence | image_analyzer.py:102-103 | when no json fence matches but some fence does, the first such match's group, stripped, is the result |
| ImageAnalyzer.PlainFenceRoundTrip | image_analyzer.py:102-103 | a reply holding an untagged fence around backtick-free content not starting with `json` yields that content stripped |
| ImageAnalyzer.ExtractWhole | image_analyzer.py:106-110 | a reply with no fence and no `[` before a `]` is returned whole, stripped |
| ImageAnalyzer.SliceJson | image_analyzer.py:205-209 | the band has nothing to decode iff the cleaned text is missing or empty; otherwise the cleaned text is decoded |
| ImageAnalyzer.SliceJsonEmpty | image_analyzer.py:205-209 | a non-empty reply leaves nothing to decode iff cleaning reduces it to the empty text |
| ImageAnalyzer.EmptyFenceGivesNothing | image_analyzer.py:205-209 | the reply "```json```" cleans to the empty text and gives the band no records |
| ImageAnalyzer.BareArrayRoundTrip | image_analyzer.py:106-110 | without fences, the outermost `[`…`]` span is returned |
| ImageAnalyzer.ShiftedMovesOnlyY | image_analyzer.py:218 | only `y` moves, by the offset; every other field and key is kept |
| ImageAnalyzer.FirstFault | image_analyzer.py:215-231 | the first record whose `y`, `w` or `h` lookup raises, in visiting order |
| ImageAnalyzer.SliceOutcome | image_analyzer.py:214-238 | a raising record empties the band's result |
| ImageAnalyzer.KeptKeeps | image_analyzer.py:219-233 | every kept record has bounds, is not a ghost box and has positive w and h |
| ImageAnalyzer.SliceOutcomeKeeps | image_analyzer.py:214-238 | every record a band contributes has bounds, is not a ghost box and has positive w and h |
| ImageAnalyzer.FirstFaultOfPrefix | image_analyzer.py:215-231 | a fault at index i empties the result and stops the loop after i+1 records |
| ImageAnalyzer.FilterSlice | image_analyzer.py:214-235 | the loop returns `SliceOutcome`; records up to the one that raised have their y shifted in place, the rest are untouched |
| ImageAnalyzer.KeptMembers | image_analyzer.py:214-233 | a record is in the result iff it is some input record that passes the filter, shifted |
| ImageAnalyzer.SliceOutcomeComposes | image_analyzer.py:214-233 | filtering by offset a then by offset b is filtering by a+b |
| ImageAnalyzer.SliceOutcomeIdempotent | image_analyzer.py:214-233 | re-filtering a band's result at offset 0 changes nothing |
| ImageAnalyzer.SliceCount | image_analyzer.py:259 | `ceil(height / 1920)` |
| ImageAnalyzer.Plan | image_analyzer.py:253-273 | the plan is never empty |
| ImageAnalyzer.PlanShape | image_analyzer.py:258-273 | a tall image gets at least two bands, the first at 0, contiguous, full 1920 except the last; only a last band under 50 px is skipped, and the bands end at the height or within 50 px of it |
| ImageAnalyzer.PlanCovers | image_analyzer.py:262-273 | every row above the last band's bottom lies in some band |
| ImageAnalyzer.GatheredKeeps | image_analyzer.py:253-276 | every collected record passed its band's filter |
| ImageAnalyzer.AnalyzeImage | image_analyzer.py:253-276 | the loop visits exactly the planned bands and gathers their filtered records in order |
| ImageAnalyzer.AnalyzeSlice | image_analyzer.py:214-235 | a band's decoded records are filtered as `SliceOutcome` at the band's top |
| ImageAnalyzer.PromptList | image_analyzer.py:178-196 | no list iff nothing is expected; at most 50 entries, each the component's type, name and text, and a "more" line iff there were over 50 |
| FigmaClient.Lower | figma_client.py:126 | lower-cases letter by letter, keeping the length |
| FigmaClient.KindOf | figma_client.py:133-144 | Text iff TEXT; Icon iff VECTOR or BOOLEAN_OPERATION; Button iff INSTANCE/COMPONENT with "button" in the lower-cased name; otherwise Container |
| FigmaClient.FirstSolid | figma_client.py:152-163 | the first fill that is SOLID and not marked invisible, or none |
| FigmaClient.SolidFill | figma_client.py:152-163 | the fill loop has visuals iff some visible solid fill exists, and takes the colour of the first one |
| FigmaClient.VisibleStroke | figma_client.py:165-169 | the stroke loop has visuals iff some stroke is not marked invisible |
| FigmaClient.ComponentOf | figma_client.py:172-188 | position re-based by the offset, size from the box, the node's name, the mapped kind; the text is the node's characters (empty if none) for TEXT nodes and empty otherwise; a colour iff the first visible solid fill has one, as its hex |
| FigmaClient.TraverseNode | figma_client.py:108-210 | appends exactly `Flatten` of the node to the list it is given |
| FigmaClient.TraverseChildren | figma_client.py:208-210 | appends the children's flattenings in order |
| FigmaClient.ParseFigmaResponse | figma_client.py:75-106 | an empty response or one without `nodes` gives []; otherwise each entry's document children are traversed against that document's box |
| FigmaClient.Selected | figma_client.py:172-204 | every selected node has a box and passes the emission rule |
| FigmaClient.Converted | figma_client.py:172-188 | one component per node, each `ComponentOf` it |
| FigmaClient.FlattenIsSelection | figma_client.py:108-210 | the traversal is the pre-order of nodes not pruned as invisible or system bars, filtered by box and emission rule, then converted |
| FigmaClient.EntryIsSelection | figma_client.py:86-104 | a requested frame yields the selection of its reached descendants, re-based on the frame |
| FigmaClient.RebaseTranslates | figma_client.py:174-175 | changing the offset translates every emitted component by the difference and changes nothing else |
| FigmaClient.FlattenBounded | figma_client.py:108-210 | at most one component per node of the tree |
| ReportGenerator.StatusIcon | report_generator.py:295-299 | each of pass, fail and audit has its own icon; anything else shows N/A |
| ReportGenerator.StatusIconInjective | report_generator.py:295-299 | equal icons mean equal statuses |
| ReportGenerator.AppendPartRows | report_generator.py:400-427 | the inner loop appends the part's selected rows, and reports data iff it added one |
| ReportGenerator.GenerateTableContent | report_generator.py:389-434 | the placeholder row iff no component is selected, else exactly the selected rows part by part |
| ReportGenerator.SelectedRowsMembers | report_generator.py:396-427 | a row is in the table iff its component is matched in that part and passes the filter |
| ReportGenerator.OtherFilterIsEmpty | report_generator.py:406-423 | an unknown filter selects nothing |
| ReportGenerator.ErrorRowsAreFailures | report_generator.py:406-418 | per part, the error, success and style-audit tables have as many rows as there are layout failures, layout passes and style audits |
| ReportGenerator.ErrorTableMatchesSummaries | report_generator.py:389-434 | the layout-error table has as many rows as the compared parts' summaries count errors |
| ReportGenerator.LayoutTablesPartition | report_generator.py:406-418 | with pass/fail layout verdicts, every matched component is in exactly one of the two layout tables |
| ReportGenerator.SortedKeys | report_generator.py:306 | the sorted union of the two dictionaries' keys: membership iff in either, strictly in name order |
| ReportGenerator.Get | report_generator.py:308 | the shown value is N/A iff the key is missing or holds the text N/A, and is the stored value otherwise |
| ReportGenerator.LineFor | report_generator.py:308-320 | the line shows both looked-up values (N/A if missing) and is marked the same iff the shown texts are equal |
| ReportGenerator.StyleLines | report_generator.py:307-320 | one line per key, in key order |
| ReportGenerator.FormatStyleDetailsAsWritten | report_generator.py:302-322 | n/a gives the fixed note; otherwise both values come from the design dictionary, so every line is marked the same |
| ReportGenerator.FormatStyleDetails | report_generator.py:302-322 | n/a gives the fixed note; otherwise one line per key with the design value and the app value |
| ReportGenerator.AllSameIffEqual | report_generator.py:306-320 | when neither dictionary holds the text N/A, all lines are marked the same iff the two dictionaries are equal |
| ReportGenerator.CorrectedDetailsShowAudit | report_generator.py:302-322 | when no colour is the text N/A, a style audit shows a differing line and a passing style shows none |
| ReportGenerator.NotAvailableColourShowsSame | report_generator.py:308-320 | a design colour that is the text N/A against no app colour is an audit, yet its one line shows N/A twice marked the same |
| ReportGenerator.AsWrittenHidesAudit | report_generator.py:308 | black design against white app is an audit, yet the as-written line shows black twice marked the same |

## Left out

- Network and device I/O is not modelled: the Figma HTTP calls, image
  download, adb screenshots, dumps and scrolls, the FastAPI server, cropping
  and image comparison in `run_audit.py`, the debug image, and the HTML
  and base64 embedding.
- The vision model call is a parameter. `ImageAnalyzer.AnalyzeImage`
  takes the decoded reply per band as a function `reply`.
  `ImageAnalyzer.AnalyzeSlice` takes the decoded records.
- `json.loads`, the `isinstance(data, list)` test and non-dict items are
  not modelled; records arrive as values. The step before decoding, which
  gives a band no records when the cleaned text is missing or empty, is
  `ImageAnalyzer.SliceJson`.
- Comparator.NameOf: a `name` key holding JSON null is not modelled. The
  code then uses None as the card's name; the model has no such name and
  treats the key as absent, giving the placeholder.
- ImageAnalyzer.FilterSlice: `bounds` holding JSON null is not modelled.
  The code raises a TypeError on it, and the band gives []; the model
  reads null bounds as absent and skips only that record.
- FigmaClient.LowerName: a node `name` holding JSON null is not modelled. The
  code raises an AttributeError on `.lower()`; the model reads a missing
  or null name as the empty text.
- The text of the prompt line is kept as its parts, and messages are kept
  as tokens; f-string rendering is not modelled.
- Floats are modelled as reals, so there is no rounding error from binary
  floating point.
- `FigmaClient.Lower` lower-cases ASCII letters only, because there is no
  Unicode case mapping. Names differing only in non-ASCII case are
  compared as given.
- `ImageAnalyzer.ExtractJson` matches `json` case-insensitively as Python's
  `re.IGNORECASE` does, including the long s. Other non-ASCII case
  foldings are not modelled.
- `_traverse_node` may see `absoluteBoundingBox` set to null or missing.
  Both are `None`; a box with missing keys is not modelled.
- Paint `color` dictionaries missing `r`, `g` or `b` are not modelled:
  they would raise.
- The unreachable escaping of a `content` style key is not modelled,
  because `_check_styles` never produces that key.
- The `part_index` default of 0 is the caller's choice of
  `Part.partIndex`.
- The merge of per-part summaries in `run_audit.py` is not modelled.
- `Comparator.CompareLayouts` requires its other `KeyError`s not to occur
  (missing `x`, `w`, `y`, `h` on the sides the checks read), because the
  code does not handle them.
- `Comparator.CompareLayouts` also requires a zero `figma_width` not to
  occur, because the division would raise.
- The quota, permission and other exceptions of `analyze_image` are not
  modelled.

## Findings

| source | as written | input that shows it | evidently intended | confidence | as-written member | corrected member |
|---|---|---|---|---|---|---|
| report_generator.py:308 | both `figma_val` and `app_val` are read from `figma_styles`, so every style line shows the design value twice and is marked ✅ | design colour `#000000`, app colour `#FFFFFF`: `_check_styles` says audit, the detail line shows `#000000` twice marked the same | read `app_val` from `app_styles` | high (not executed) | ReportGenerator.FormatStyleDetailsAsWritten, ReportGenerator.AsWrittenHidesAudit | ReportGenerator.FormatStyleDetails, ReportGenerator.CorrectedDetailsShowAudit |
