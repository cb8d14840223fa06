# CLARA-AI canvas and control panel, modelled in Dafny

The front end lets a user type a medical topic, asks an external service for a
mnemonic image, and shows the image with a short explanation. Two components
hold all of its logic, and this project models both:

- **ImageCanvas** (`components/ImageCanvas.tsx`). It parses the explanation
  text into a title and bullet points. It picks one of four panels: loading,
  error, result or welcome. While loading, it rotates a loading message every
  interval step.
- **ControlPanel** (`components/ControlPanel.tsx`). It decides when the text
  inputs and the Generate and Edit buttons are disabled, when the edit section
  exists, and which label each button shows.

Files:

- `wrappers.dfy`: `Option`, standing for a JavaScript `null` or a value.
- `js_string.dfy` (module `JsString`): the string operations the components
  use. `IsWs` is the ECMAScript WhiteSpace and LineTerminator set. `Trim` is
  `String.prototype.trim`. `Split` and `Join` are `split('\n')` and
  `join('\n')`, and lemmas show they are inverse to each other.
- `image_canvas.dfy` (module `ImageCanvas`): the explanation parser
  `ParseExplanation`, the panel choice `SelectPanel`, and the message ticker.
  The ticker is the class `MessageTicker`, whose `index` field is the
  component's `currentMessageIndex` state.
- `image_canvas_examples.dfy` (module `ImageCanvasExamples`): the parser on the
  sample explanation (a title line, two `* ` bullets, two trailing empty
  lines) and on its edge cases.
- `control_panel.dfy` (module `ControlPanel`): `Render` computes every
  disabled flag, the edit section and both labels from the props.

JavaScript's falsy strings are modelled as "absent or empty" (`Truthy`).
`!s.trim()` is modelled as `Trim(s) == []`. `TrimEmptyIffBlank` proves this
holds exactly when every character of `s` is whitespace.

The ticker index starts at 0 when the canvas mounts (`useState(0)`). It is
never reset when a new loading phase begins. `LoadingPhasesShareIndex` shows
a second loading phase picking up where the first one stopped.

## Model

| member | source | states |
|---|---|---|
| JsString.TrimEmptyIffBlank | components/ImageCanvas.tsx:22 | `trim()` returns the empty string exactly when every character is ECMAScript whitespace |
| JsString.TrimSlice | components/ControlPanel.tsx:41 | `trim()` removes a whitespace-only prefix and suffix, and the result neither starts nor ends with whitespace |
| JsString.TrimStartSuffix | components/ControlPanel.tsx:41 | removing leading whitespace leaves a suffix that does not start with whitespace, after a blank prefix |
| JsString.TrimEndPrefix | components/ControlPanel.tsx:66 | removing trailing whitespace leaves a prefix that does not end with whitespace, before a blank suffix |
| JsString.Split | components/ImageCanvas.tsx:22 | `split('\n')` always yields at least one piece, even for the empty string |
| JsString.SplitNoNewlines | components/ImageCanvas.tsx:22 | no piece of `split('\n')` contains a newline |
| JsString.JoinSplit | components/ImageCanvas.tsx:22 | joining the pieces of `split('\n')` with newlines gives back the text |
| JsString.SplitJoin | components/ImageCanvas.tsx:22 | splitting a newline-join of newline-free pieces gives back exactly those pieces |
| JsString.JoinBlank | components/ImageCanvas.tsx:22-23 | a text is whitespace-only exactly when every one of its lines is |
| ImageCanvas.NonBlankLinesAppend | components/ImageCanvas.tsx:22 | the blank-line filter keeps input order: filtering a concatenation concatenates the filtered parts |
| ImageCanvas.NonBlankLinesEmpty | components/ImageCanvas.tsx:22-23 | no line survives the filter exactly when every line is whitespace-only |
| ImageCanvas.NonBlankLinesKept | components/ImageCanvas.tsx:22 | every kept line has a non-whitespace character, and the filter adds no newline |
| ImageCanvas.FirstNonBlankLine | components/ImageCanvas.tsx:22-25 | the filter drops the blank lines before the first non-blank line and keeps that line first |
| ImageCanvas.AllNonBlankKept | components/ImageCanvas.tsx:22 | a list with no whitespace-only line passes the filter unchanged |
| ImageCanvas.StripMarker | components/ImageCanvas.tsx:26 | a line starting with `"* "` is that marker followed by the point; any other line is the point unchanged |
| ImageCanvas.NoNewlinesStripped | components/ImageCanvas.tsx:26 | stripping markers from newline-free lines gives newline-free points |
| ImageCanvas.ParseByLines | components/ImageCanvas.tsx:21-23 | the early return for the empty text agrees with parsing its single blank line |
| ImageCanvas.ParseShape | components/ImageCanvas.tsx:22-26 | a parsed title is never whitespace-only, title and points hold no newline, and there is one point per non-blank line after the title |
| ImageCanvas.ParseNoneIffBlank | components/ImageCanvas.tsx:21-23 | the parser returns nothing exactly for empty or whitespace-only text |
| ImageCanvas.ParseTitleIsFirstNonBlankLine | components/ImageCanvas.tsx:22-26 | the title is the first non-blank line, untrimmed and unstripped; the points come from the later non-blank lines in order |
| ImageCanvas.SplitAppendLine | components/ImageCanvas.tsx:22 | the lines of a text followed by a newline and one more line are its lines plus that line |
| ImageCanvas.ParseAppendLine | components/ImageCanvas.tsx:22-26 | one more non-blank line becomes the last point, or the title if there was none; a blank line changes nothing |
| ImageCanvas.FromLinesAppend | components/ImageCanvas.tsx:25-26 | one more kept line becomes the last point with its marker stripped, or the title if it is the only line |
| ImageCanvas.ParseSingleLine | components/ImageCanvas.tsx:25 | a single line is the title as it stands, with no points, unless it is blank |
| ImageCanvas.ParseBullets | components/ImageCanvas.tsx:22-26 | a title line followed by `"* "` bullet lines parses back to exactly that title and those points |
| ImageCanvas.BulletLines | components/ImageCanvas.tsx:26 | bullet lines are never blank, hold no newline, and lose exactly their marker |
| ImageCanvasExamples.ParseExampleLines | components/ImageCanvas.tsx:22-26 | `"Mnemonic Title\n* point one\n* point two"` gives that title and the points `point one`, `point two` |
| ImageCanvasExamples.ParseExample | components/ImageCanvas.tsx:22-26 | the same text with two trailing empty lines gives the same result |
| ImageCanvasExamples.ParseExampleText | components/ImageCanvas.tsx:20-26 | the literal text `"Mnemonic Title\n* point one\n* point two\n\n"` gives title `Mnemonic Title` and points `point one`, `point two` |
| ImageCanvasExamples.ParseBlankTexts | components/ImageCanvas.tsx:21-23 | `""`, `"\n\n"` and `" \n\t"` give nothing |
| ImageCanvasExamples.ParseWhitespacePoint | components/ImageCanvas.tsx:22-26 | the line `"*  "` survives the blank filter and becomes the point `" "` |
| ImageCanvasExamples.ParseMarkedTitle | components/ImageCanvas.tsx:25 | a title keeps its leading `"* "` |
| ImageCanvasExamples.StripMarkerExamples | components/ImageCanvas.tsx:26 | `"* * a"` loses one marker only; `"  * a"` is unchanged because the marker must start the line |
| ImageCanvas.SelectPanel | components/ImageCanvas.tsx:60-91 | each panel is chosen exactly when its guard in the markup holds; the loading panel shows the current message, the error panel the error, the result panel the image and the parsed explanation if the explanation text is non-empty |
| ImageCanvas.ExactlyOnePanel | components/ImageCanvas.tsx:60-86 | exactly one of the four guards holds for every input; loading beats an error and an error beats an image |
| ImageCanvas.ExplanationShownOnlyWithResult | components/ImageCanvas.tsx:75-82 | an explanation is shown exactly in the result panel with a present, non-whitespace explanation text |
| ImageCanvas.NextMessageIndex | components/ImageCanvas.tsx:52 | the step moves to the next message and wraps from the last one to the first; the result is always a valid index |
| ImageCanvas.IndexAfterTicks | components/ImageCanvas.tsx:47-52 | starting from 0, the index after any number of steps is a valid index into the five messages |
| ImageCanvas.IndexAfterTicksIsMod | components/ImageCanvas.tsx:47-52 | after `k` steps from 0 the index is `k mod 5` |
| ImageCanvas.MessageTicker.constructor | components/ImageCanvas.tsx:47 | at mount the index is 0 |
| ImageCanvas.MessageTicker.Tick | components/ImageCanvas.tsx:49-56 | an interval step advances the index only while loading, keeping it equal to the index after the steps run so far |
| ImageCanvas.MessageTicker.Message | components/ImageCanvas.tsx:64 | the displayed message is in bounds and is message number `ticks mod 5` |
| ImageCanvas.LoadingPhasesShareIndex | components/ImageCanvas.tsx:47-56 | after two steps, an idle period and one more step, the index is 3: it is not reset between loading phases |
| ControlPanel.GenerateLabel | components/ControlPanel.tsx:45 | `'Generating...'` exactly while loading without an image, `'Regenerate Scene'` exactly with an image, `'Generate Scene'` otherwise |
| ControlPanel.EditLabel | components/ControlPanel.tsx:70 | `'Editing...'` exactly while loading, `'Apply Edit'` otherwise |
| ControlPanel.Render | components/ControlPanel.tsx:37-72 | both inputs are disabled exactly while loading; each button is disabled exactly while loading or while its text is whitespace-only; the edit section exists exactly with an image |
| ControlPanel.BlankTextNeverEnables | components/ControlPanel.tsx:41-66 | a button is enabled exactly when not loading and its text has a non-whitespace character; Edit also needs an image |
| ControlPanel.EditNeedsImage | components/ControlPanel.tsx:49-72 | without an image there is no edit section, so Edit cannot be triggered |
| ControlPanel.LoadingWithImageLabel | components/ControlPanel.tsx:45 | while loading with an image, Generate is disabled and still reads `'Regenerate Scene'` |

## Left out

- `components/Header.tsx`: static markup with no logic.
- The markup itself: CSS classes, the `Loader` spinner, the icons and the list keys. These are presentation only.
- React's hook runtime. This covers when `useEffect` runs, the 2500 ms period of `setInterval`, and the cleanup by `clearInterval`. `MessageTicker.Tick` models one interval step; its `isLoading` argument stands for "the interval exists".
- The callbacks `onGenerate`, `onEdit`, `setMedicalText` and `setEditText`. The panel only forwards user events to them; `ControlPanel.CanGenerate` and `ControlPanel.CanEdit` say when a click can reach them.
- The request lifecycle of the owning component (phases, one request at a time, keeping the image after a failed edit) and the image service. None of this code is part of this model.
- Re-parsing rendered output (idempotence): no code asserts it. `ParseBullets` proves the one round trip the parser does support.
- Strings are sequences of Unicode scalar values. JavaScript strings are UTF-16 code units; splitting on `'\n'` and trimming give the same result either way, so this difference is not modelled.
- A `"\r\n"` line ending leaves `'\r'` at the end of a title or point. `Trim` treats `'\r'` as whitespace for the blank-line filter, as JavaScript does.
