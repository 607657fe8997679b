# AR object detection: activity heuristic and per-frame bookkeeping, in Dafny

This project models the two pieces of sequential logic in the browser
application that overlays object detections on a webcam feed:

- **the activity heuristic** (`ActivityDetection.js`): a total classifier that
  maps a person's bounding box `[x, y, w, h]` and the previous person's box to
  `"unknown"`, `"walking"`, `"sitting"`, `"close & talking"` or `"standing"`,
  using the movement of the top-left corner and the fixed thresholds 20, 5,
  280 and 300, checked in a fixed priority order;
- **the per-frame bookkeeping of the video panel** (`VideoPanel.js`): once the
  external detector has returned its predictions, one cycle keeps the
  detections whose class is on the five-class allow-list (in order), gives
  every person an activity estimated against a single "last person" cell that
  each person overwrites, stores the frame for the click handler, and
  prepends a history record to a log capped at 21 entries when the frame
  kept anything. The same file provides the click hit test and the overlay
  label text.

Modules:

- `Wrappers` (`wrappers.dfy`): `Option`.
- `Text` (`text.dfy`): the two JavaScript string conversions the label uses,
  upper-casing and the decimal rendering of an integer, each with its partner
  (idempotence; a digit-string reader with round trips in both directions).
- `ActivityDetection` (`activity_detection.dfy`): `Box`, `Activity`, the
  squared corner movement and `EstimateActivity`, with the decision table and
  the independence properties as lemmas.
- `VideoPanel` (`video_panel.dfy`): the allow-list filter, the annotation
  pass as a function (`Annotate`) with an independent right-to-left
  description of the cell (`LastPerson`), the history prepend, the hit test,
  the label, and the class `FramePanel`, whose fields are `lastPersonRef`,
  `detectionsRef` and the history list. Its methods `Cycle`, `MarkPersons`
  and `Click` are proved against those functions.

Movement is compared squared: `movement > 20` becomes `d² > 400` and
`movement < 5` becomes `d² < 25`. `MovementAgrees` proves the two forms decide
alike for the non-negative square root of `d²`.

## Model

| member | source | states |
|---|---|---|
| `ActivityDetection.MovementSq` | ActivityDetection.js:7-12 | the movement (squared) is never negative and is 0 when there is no previous box |
| `ActivityDetection.MovementSymmetric` | ActivityDetection.js:7-12 | movement is symmetric in the current and the previous corner |
| `ActivityDetection.MovementAgrees` | ActivityDetection.js:11 | for m = sqrt(d), `m > 20` iff `d > 400` and `m < 5` iff `d < 25`, so the squared comparisons decide every rule exactly as the distance does |
| `ActivityDetection.Name` | ActivityDetection.js:17-29 | every label text is non-empty, so a set `obj.activity` is always truthy |
| `ActivityDetection.NameInjective` | ActivityDetection.js:17-29 | distinct labels have distinct texts |
| `ActivityDetection.Moving` | ActivityDetection.js:25 | rule 1 (walking): it can hold only when there is a previous box |
| `ActivityDetection.LowAndStill` | ActivityDetection.js:23-26 | rule 2 (sitting): it excludes rule 1, and without a previous box it holds exactly when the box is below the 280-pixel line |
| `ActivityDetection.Close` | ActivityDetection.js:22-27 | rule 3 (close & talking): a box taller than 300 pixels, so one with positive height |
| `ActivityDetection.EstimateActivity` | ActivityDetection.js:16-30 | the result is "unknown" exactly when the box is missing |
| `ActivityDetection.MissingBoxUnknown` | ActivityDetection.js:17 | a missing box gives "unknown" whatever the previous observation |
| `ActivityDetection.NoPreviousNeverWalking` | ActivityDetection.js:8 | with no previous box the result is never "walking"; it is "sitting" when low, else "close & talking" when tall, else "standing" |
| `ActivityDetection.Decision` | ActivityDetection.js:22-29 | the decision table: "walking" iff moved > 20; "sitting" iff not walking and low and still; "close & talking" iff neither and tall; "standing" iff none of the three |
| `ActivityDetection.LowButMovingFallsThrough` | ActivityDetection.js:25-27 | a low box that moved between 5 and 20 is not "sitting": it falls through to the height rule |
| `ActivityDetection.OnlyCornersAndHeightMatter` | ActivityDetection.js:9-11 | boxes that agree on corner and height, with previous boxes that agree on corner, get the same label: the current width and the previous width and height are never read |
| `ActivityDetection.Examples` | ActivityDetection.js:16-30 | the worked examples: (100,300,50,60) after (101,301,…) is "sitting"; (100,50,50,320) alone is "close & talking"; (100,50,50,100) alone is "standing"; a 50-pixel move is "walking" |
| `Text.ToUpper` | VideoPanel.js:157 | upper-casing keeps the length, leaves no lower-case letter, shifts each lower-case letter by 32 and keeps every other character |
| `Text.ToUpperIdempotent` | VideoPanel.js:157 | upper-casing twice equals upper-casing once |
| `Text.Decimal` | VideoPanel.js:157 | the rendering of a natural number is a non-empty digit string without a leading zero |
| `Text.DecimalRoundTrip` | VideoPanel.js:157 | reading back the rendered digits gives the number |
| `Text.DecimalOfValue` | VideoPanel.js:157 | rendering the value of a canonical digit string gives the string back |
| `Text.IntToString` | VideoPanel.js:157 | a non-negative integer renders as a canonical digit string that reads back as the integer; a negative one as "-" followed by a canonical digit string that reads back as its magnitude |
| `VideoPanel.Filter` | VideoPanel.js:110 | the filtered list is never longer than the predictions |
| `VideoPanel.FilterAppend` | VideoPanel.js:110 | filtering distributes over concatenation, so order is kept |
| `VideoPanel.FilterSingle` | VideoPanel.js:16 | one detection is kept exactly when its class is on the allow-list |
| `VideoPanel.FilterOnlyAllowed` | VideoPanel.js:110 | everything kept comes from the predictions and has an allowed class |
| `VideoPanel.FilterKeepsAllowed` | VideoPanel.js:110 | every prediction with an allowed class is kept |
| `VideoPanel.FilterIdentity` | VideoPanel.js:110 | the filter returns its input unchanged exactly when all classes are allowed |
| `VideoPanel.FilterIdempotent` | VideoPanel.js:110 | filtering twice is filtering once |
| `VideoPanel.FilterExample` | VideoPanel.js:110 | person, dog, bottle filters to person, bottle |
| `VideoPanel.Mark` | VideoPanel.js:115-117 | one detection of the pass keeps class, score and box; a non-person is untouched; a person gets an activity other than "unknown" |
| `VideoPanel.Carry` | VideoPanel.js:118 | the cell after one detection is the independent `LastPerson` of that one-element frame |
| `VideoPanel.Annotate` | VideoPanel.js:114-120 | the annotation pass keeps the number of detections |
| `VideoPanel.LastPersonNone` | VideoPanel.js:118 | with no person in the frame the cell keeps its earlier value |
| `VideoPanel.LastPersonIs` | VideoPanel.js:118 | when k is the last person of the frame the cell holds its box |
| `VideoPanel.AnnotateAppend` | VideoPanel.js:114-120 | annotating a concatenation annotates the first part, then the second from the cell the first left |
| `VideoPanel.AnnotateStep` | VideoPanel.js:114-120 | one more detection extends the pass by that detection marked against the current cell, and the cell moves on only for a person |
| `VideoPanel.AnnotateLast` | VideoPanel.js:118 | after the pass the cell is the box of the frame's last person, or unchanged when the frame has none |
| `VideoPanel.AnnotateAt` | VideoPanel.js:114-118 | detection i is marked against the box of the person just before it in this frame, or the earlier frames' cell when none precedes it |
| `VideoPanel.AnnotateMarksPersons` | VideoPanel.js:114-120 | every detection keeps class, score and box; non-persons are untouched; every person gets an activity other than "unknown" |
| `VideoPanel.FirstPersonUsesEarlierFrame` | VideoPanel.js:116 | the first person of a frame is compared against the last person of an earlier frame, or none |
| `VideoPanel.Prepend` | VideoPanel.js:130 | the new log has the record at its head, then the older entries in order, and length min(old length + 1, 21) |
| `VideoPanel.PrependAllKeepsNewest` | VideoPanel.js:125-131 | after any number of frames the log is the newest records first, then the older log, cut to 21 |
| `VideoPanel.TwentyFiveFrames` | VideoPanel.js:130 | 25 frames with detections leave exactly the 21 most recent, newest first |
| `VideoPanel.Inside` | VideoPanel.js:194 | a point can lie inside a box only when the box has non-negative width and height |
| `VideoPanel.FirstHit` | VideoPanel.js:192-195 | the index found holds a box containing the point, edges included, and no earlier box does; nothing is found only when no box contains it |
| `VideoPanel.Icon` | VideoPanel.js:19-25 | a class has a non-empty icon exactly when it is on the allow-list |
| `VideoPanel.Confidence` | VideoPanel.js:154 | the confidence is the integer nearest to score × 100, halves up, and lies in 0..100 for a score in [0, 1] |
| `VideoPanel.Label` | VideoPanel.js:155-161 | the label is longer than the icon and its space and always ends with "%" |
| `VideoPanel.LabelStartsWithIcon` | VideoPanel.js:155-157 | every label begins with the class icon and a space; a class without an icon gives a label starting with the space |
| `VideoPanel.LabelEndsWithConfidence` | VideoPanel.js:157-160 | every label ends with " • ", the confidence digits and "%", and those digits read back as the confidence |
| `VideoPanel.PersonUpper` | VideoPanel.js:157-160 | "person" upper-cases to "PERSON", so both label forms of a person share the head |
| `VideoPanel.PersonLabelShowsActivity` | VideoPanel.js:157-161 | a person with an activity gets the generic label with " • " and the activity text inserted after "PERSON" |
| `VideoPanel.FrameReady` | VideoPanel.js:99-104 | a frame is processed only when the video element exists, and then its frame has a non-zero area |
| `VideoPanel.FrameWellFormed` | VideoPanel.js:110-120 | a filtered, annotated frame holds only allowed classes and every person in it has an activity |
| `VideoPanel.PrependKeepsLog` | VideoPanel.js:125-131 | prepending a non-empty well-formed record keeps the log capped and well-formed |
| `VideoPanel.FramePanel.constructor` | VideoPanel.js:35-36 | a new panel has no last person, no detections and an empty history |
| `VideoPanel.FramePanel.MarkPersons` | VideoPanel.js:114-120 | the in-place loop leaves exactly `Annotate` of the old detections and the old cell |
| `VideoPanel.FramePanel.Cycle` | VideoPanel.js:94-131 | when the frame is not ready nothing changes; otherwise the detections and the cell are the annotation of the filtered predictions, and the history gains a record of them at its head only when the frame kept something; the panel invariant is kept |
| `VideoPanel.FramePanel.Click` | VideoPanel.js:184-198 | the click returns the first current detection whose box contains the point, and nothing exactly when no box does, an empty list included |

## Left out

- Camera start and stop, `getUserMedia` and the `alert` notifications: browser I/O.
- Model loading and `model.detect`: the pretrained detector is external; its predictions are the `predictions` parameter of `Cycle`.
- `requestAnimationFrame` scheduling, cancellation and the suspension at the detector call: event-loop plumbing. Because of this the model does not capture that an effect clean-up during an in-flight detector call can leave a second loop running.
- The `detecting` and `model` guard at VideoPanel.js:90 runs once when the loop starts, not per cycle, and is left with the scheduling.
- Canvas drawing (`clearRect`, `strokeRect`, `measureText`, `fillRect`, shadows, text placement) and the `showAR` early return: foreign drawing calls and font measurement. The label string is modelled.
- `toLocaleTimeString()`: the record's time is an opaque `now` string passed to `Cycle`.
- Floating point: boxes and scores are exact reals. `Math.sqrt` is replaced by squared comparisons, and `Math.round(score * 100)` is computed on exact reals, not doubles. NaN from a malformed box is not modelled.
- Text.IntToString: renders every integer as plain digits. JavaScript switches to exponent notation from 10^21 on, which a confidence of 0..100 never reaches.
- VideoPanel.Icon: a class that names an inherited `Object.prototype` member (`constructor`, `toString`, `__proto__`, …) gets the empty icon here, where `ICONS[obj.class]` returns that truthy member. Only filtered detections, whose classes are all `ICONS` keys, are ever labelled, so the panel never reaches this case.
- VideoPanel.LabelStartsWithIcon: its second clause (no icon for a class off the allow-list) inherits the same `Object.prototype` gap as `VideoPanel.Icon`.
- Text.ToUpper: covers ASCII letters only, which is all the allow-listed class names contain, not the full Unicode case mapping of `toUpperCase`.
- A detection's box is always present (the detector always supplies one). A missing box reaches only `EstimateActivity`, where it gives "unknown"; in the loop, copying a missing box at VideoPanel.js:118 would throw, and that path is not modelled.
- The `prev` argument `{ bbox }` is modelled as the optional box itself.
- The history list lives in the parent component's state and is updated through a callback. Here it is a field of `FramePanel`.
- ThreeModel.js, InfoPanel.js, HistoryPanel.js, Sidebar.js, App.js and app.py are view components and a file-writing endpoint; they are not part of this model.
