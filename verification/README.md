# Face expression detector: detection cycle, overlay and session state

A Dafny model of the pure logic inside the React application `src/App.js`,
which shows a webcam feed, runs a face and expression detector on it every
200 ms, paints a box and a label over every face, and colours the page after
the dominant expression. The detector, the webcam and the canvas are
treated as data: the detector's answer is an input sequence of detections,
the canvas is a list of abstract drawing commands, and text measurement is
an input function.

- `ranking.dfy`, module `Ranking`: the expression ranker. The code sorts a
  face's `[label, score]` entries by decreasing score and keeps the first.
  JavaScript's sort is stable, so the winner is the largest score and, among
  tied scores, the entry first in input order. The model writes the sort as a
  stable insertion sort and proves its head equal to a first-maximum scan.
- `overlay.dfy`, module `Overlay`: the canvas commands of one cycle. The
  canvas is resized, cleared, and painted with a box outline, a filled tag
  and the label text per face. The tag's geometry is proved, and so is the
  font mismatch under "Findings".
- `session.dfy`, module `Session`: the state (`isDetecting`,
  `detectExpressions`, `faceCount`, `expression`, canvas), one detection
  cycle `Step`, the two toggles and the background colour. Traces of events
  from start-up keep "no face counted implies no dominant expression".
- `optional.dfy`, module `Optional`: the `Option` type that stands for the
  code's `null`-or-value.

Behaviour of the code that the model keeps, although a reader might expect otherwise:
- Ties in the ranker go to the earliest entry in the detector's order, not
  to a fixed canonical label order.
- A cycle checks no in-flight flag and no "still active" flag. A cycle that
  completes after detection was switched off still writes its result
  (`Session.CycleIgnoresDetectingFlag`). Switching detection off only flips
  the flag: it neither resets the face count nor clears the canvas.
- Switching expression mode off does not clear the dominant expression. It
  stays, with its background colour, until the next cycle
  (`Session.ModeOffKeepsStaleExpression`). So "mode off implies no dominant
  expression" is not an invariant of the code. "No face implies no dominant
  expression" is (`Session.ReachableConsistent`).
- Expression mode starts on (`useState(true)`), not off.
- The label tag is never clamped to the canvas. A box near the top edge puts
  its tag partly above the canvas.
- A face whose score map is empty makes line 59 throw in the middle of the
  loop over the faces. The face count has already been set, the canvas has
  been cleared, and the faces before it have been painted. The dominant
  expression is left as it was. `Overlay.DrawnCount` and `Session.Step`
  model this path.

## Model

| member | source | states |
|---|---|---|
| Ranking.FirstMaxIndex | src/App.js:59 | the reference winner: an index whose score is at least every score, with every earlier score strictly smaller |
| Ranking.FirstMaxUnique | src/App.js:83 | at most one index has that property, so ranking the same scores always picks the same entry |
| Ranking.Insert | src/App.js:59 | inserting an entry into a list adds exactly that entry (multiset) and lengthens it by one |
| Ranking.InsertKeepsSorted | src/App.js:59 | inserting into a list in non-increasing score order keeps it in that order |
| Ranking.SortByScoreDesc | src/App.js:59 | the sort with comparator `b[1] - a[1]` returns a permutation of the entries in non-increasing score order |
| Ranking.SortHeadIsFirstMax | src/App.js:59 | the first element of the stable descending sort is the first entry with the largest score |
| Ranking.Top | src/App.js:83 | `sort(...)[0]` is an entry of the input, its score is at least every score, and it is the first maximum in input order |
| Ranking.TopOfUniqueMax | src/App.js:59 | a strictly largest score always wins |
| Ranking.TopOfTie | src/App.js:59 | among equal largest scores the one earliest in the input wins, and a later tied entry that differs from it does not |
| Overlay.Label | src/App.js:59-60 | a face's label names one of its entries and carries that entry's score, which no other score exceeds; it is the first such entry in input order |
| Overlay.DrawnCount | src/App.js:56-59 | the loop paints the longest prefix of faces that all have scores and stops at the first face without any |
| Overlay.AllDrawn | src/App.js:56-59 | every face is painted exactly when every face has scores |
| Overlay.Marks | src/App.js:56-80 | the loop emits three commands per painted face |
| Overlay.MarkGeometry | src/App.js:62-79 | one face's commands: outline on its box, a 20 px tag standing on the box's top edge and as wide as the measured label plus 10, text anchored 5 px in from the box's top-left corner and so inside the tag when the width is not negative |
| Overlay.MarksAt | src/App.js:56-80 | the commands for face `i` are at positions `3i` to `3i+2`, and its label is measured in the font the context held before the loop for the first face and in 16px Arial after that |
| Overlay.Paint | src/App.js:52-80 | the canvas is cleared whole first, then holds one box, tag and text triple per face, in order |
| Overlay.Render | src/App.js:47-80 | the canvas takes the video's size, its first command clears the whole canvas, and then comes one box, tag and text per painted face in detection order |
| Overlay.RenderGeometry | src/App.js:62-79 | box outline on the face's box; tag at `(x, y-20)`, 20 high, measured width plus 10 wide, so its bottom edge lies on the box's top edge; text anchored at `(x+5, y-5)`, inside the tag when the width is not negative |
| Overlay.RenderFirstTagFits | src/App.js:70-79 | as written, the first face's text fits its tag exactly when its 16px Arial width exceeds its default-font width by at most 5 |
| Overlay.RenderFirstTagTooNarrow | src/App.js:70-79 | a label 40 px wide in the default font and 64 px wide in 16px Arial overruns its tag by 19 px |
| Overlay.RenderFixed | src/App.js:70-79 | with the font set before measuring, the same layout with every tag sized in 16px Arial |
| Overlay.RenderFixedGeometry | src/App.js:62-79 | with the font set before measuring, each face's outline, tag and text are placed as in the code, the tag sized by the label's 16px Arial width |
| Overlay.RenderFixedTextFits | src/App.js:70-79 | with the font set before measuring, every painted text lies inside its tag with 5 px to spare on each side |
| Session.Step | src/App.js:40-88 | video missing or not ready: nothing changes; otherwise the face count becomes the number of faces and the canvas is cleared and repainted as the code paints it; when all faces have scores, a dominant expression is present exactly when expression mode is on and a face was found, and it is the first face's entry with the largest score, earliest on ties, the same label painted as face 0's text; when a face has no scores, the dominant expression is unchanged |
| Session.CycleForgetsCanvas | src/App.js:47-80 | the canvas after a cycle on a ready video does not depend on the state before it, even when painting stops at a face without scores |
| Session.CycleReplacesOverlay | src/App.js:47-80 | when every face has scores, the canvas after a cycle is one clear plus one box, tag and text triple per face, in order, the first face's tag measured in the default font the resize restores |
| Session.CycleIgnoresDetectingFlag | src/App.js:40-41 | a cycle's effect does not depend on whether detection is still switched on |
| Session.ToggleDetection | src/App.js:90-92 | flips the detection flag and changes nothing else |
| Session.ToggleExpressions | src/App.js:94-96 | flips expression mode and changes nothing else, the dominant expression included |
| Session.TogglesInvolutiveAndCommute | src/App.js:90-96 | pressing a button twice restores the state, and the two buttons commute |
| Session.BackgroundColor | src/App.js:98-111 | total: happy, angry, sad and surprised get their table colour; any other label and the absent expression get white |
| Session.BackgroundDistinguishes | src/App.js:98-111 | white shows exactly when no coloured expression is dominant, and distinct coloured expressions get distinct colours |
| Session.ApplyKeepsConsistent | src/App.js:54-96 | a cycle or a button press never leaves a dominant expression with no face counted |
| Session.RunKeepsConsistent | src/App.js:54-96 | any sequence of such events keeps that |
| Session.ReachableConsistent | src/App.js:8-11 | the start-up state has it, so every reachable state has it |
| Session.ModeOffKeepsStaleExpression | src/App.js:94-96 | after detection is switched on, a happy face is seen and expression mode is switched off, "happy" and its colour are still shown |
| Session.TwoFacesScenario | src/App.js:82-84 | faces scored {happy 0.9, sad 0.1} and {angry 0.8}, wherever their boxes: two faces counted, dominant expression "happy" |

## Left out

- Webcam acquisition (`startVideo`, `getUserMedia`) and model loading (`loadModels`), src/App.js:13-16 and 26-38: browser I/O and network fetches.
- The detector call, src/App.js:43-45: a foreign library. Its result is the `ds` input of `Session.Step`. A rejected detector call throws before any state is written, so it is the absence of an event.
- The `setInterval` / `clearInterval` effect and overlapping asynchronous cycles, src/App.js:18-24: timer and promise concurrency. A trace of `Session.Event`s orders each cycle at the moment its detector call resolves, and `Session.Step` reads expression mode at that moment. The code's interval callback reads the mode it captured when the interval was set up (lines 21 and 24). A cycle still in flight when expression mode is toggled therefore ends like the trace with that cycle ordered before the toggle, not after it. A cycle in flight when detection is switched off ends like the trace with it after the toggle (`Session.CycleIgnoresDetectingFlag`).
- The video element is read twice: for readiness before the detector runs, and for its size after. The model takes the size as separate inputs and does not model the element changing between the two reads.
- `(confidence * 100).toFixed(1)`, src/App.js:60: float-to-string formatting. A label text is kept as its expression and confidence.
- `context.measureText`, src/App.js:71: an input function of the font and the text.
- Context state other than the font (line width, colours) is folded into each command, because the code sets it before every use.
- Ranking.SortByScoreDesc: an insertion sort stands for the engine's sort. This is sound because every stable sort orders a sequence the same way, but that fact is not proved here.
- Scores are reals, so the comparator never sees NaN.
- Box coordinates and measured widths are reals, not JavaScript doubles. The exact alignments that `Overlay.MarkGeometry`, `Overlay.RenderGeometry` and `Overlay.RenderFixedGeometry` state, such as the tag's bottom edge lying on the box's top edge, hold in the code only up to floating-point rounding: with `y = 0.1`, `(y - 20) + 20` is `0.10000000000000142`.
- JSX rendering and CSS, src/App.js:113-140: presentation only.

## Findings

| source | as written | input that shows it | evidently intended | confidence | as-written member | corrected member |
|---|---|---|---|---|---|---|
| src/App.js:70-79 | Setting `canvas.width` (line 48) resets the context font to the default `10px sans-serif`. The first face's label is measured at line 71, before `16px Arial` is set at line 78, but its text is drawn in 16px Arial. Its tag is sized for smaller text. | one face whose label is 40 px wide in the default font and 64 px in 16px Arial: the text ends 19 px past the tag | measure the label in the font it is drawn in: set `context.font` before `measureText` | high; not executed | Overlay.RenderFirstTagTooNarrow | Overlay.RenderFixedTextFits |

`Session.Step` paints with `Overlay.Render`, as the code does. `Overlay.RenderFixed` is the corrected painting. Both are `Overlay.Paint` over the same faces and differ only in the font the first face's label is measured in.
