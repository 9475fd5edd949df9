# simpleCrop core, modelled in Dafny

simpleCrop is a macOS menu-bar tool. It grabs a snapshot of the main screen
and lays a full-screen overlay over it. The user drags out a rectangle, and
the crop is sent as a PNG to the SimpleTex OCR service. The recognised
LaTeX/Markdown is shown in an editor, next to a preview that follows the text
through a 100 ms debounce. Every result is also kept in a history window.

This project models that core and proves properties of it:

- **Selection** (`selection.dfy`): the rectangle two pointer positions span
  (`currentSelectionRect`). It is normalised, at least 2 points on each axis,
  and is the bounding box of the two points.
- **Imaging** (`imaging.dfy`): the crop of the reference snapshot into a new
  image of the selection's size. It is specified as a function, and the
  method fills a two-dimensional buffer in place.
- **Overlay** (`overlay.dfy`):
  - the `ScreenCaptureView` class: its pointer state machine (mouse
    down/dragged/moved/up, Escape) and every call of its completion handler;
  - the coordinate label's text and placement;
  - the order of the draw commands in one frame.
- **CaptureController** (`capture_controller.dfy`): the
  `ScreenCaptureController` class, with its completion slot and overlay-window
  slot, `beginCapture`, `finish`, and the overlay's completion closure that
  forwards each report to `finish`.
- **OcrResponse** (`ocr_response.dfy`):
  - the reply envelope as a JSON value and the Decodable rules the Swift types
    rely on, including the probe that reads `info` as an object, then as a
    string, then as empty text;
  - an encoder that is the decoder's round-trip partner;
  - the mapping from a reply to the displayed text, confidence and request id;
  - the data task's completion, including the case that calls nothing.
- **Multipart** (`multipart.dfy`): the `multipart/form-data` request body
  (section 4 of RFC 7578, delimiter lines from section 5.1.1 of RFC 2046). It
  is built by a loop of byte appends, and proved equal to the encoded prefix
  text, the PNG bytes verbatim, and the close delimiter. The request carries
  the endpoint, POST, the content type naming the boundary, and the token
  header.
- **Token** (`token.dfy`): `currentToken`, which trims white space and line
  breaks and treats an empty result as no token.
- **Debounce** (`debounce.dfy`):
  - a reference meaning of "debounce 0.1 s" over a log of timed writes;
  - Combine's `removeDuplicates`;
  - a timer class proved to deliver exactly what the reference meaning says;
  - the `resultText → debouncedResultText` pipeline of the view model.
- **ViewModel** (`ocr_view_model.dfy`): the `OCRViewModel` class, covering:
  - `startFromMenu` and its token guard;
  - the capture handler: PNG conversion, the silent return when the token
    has gone blank, and the request;
  - the reply handler: loading off, the text or error shown, and one history
    record per success.
- **History** (`history.dfy`):
  - the 30-character row title;
  - the first-match lookup that picks the detail pane;
  - the `HistoryDetailView` state: init, the reset when it is handed a record
    whose text differs from the editor's, and the equality-gated debounce into
    the preview.

Main-queue hops (`DispatchQueue.main.async`) are taken to have run by the
time a modelled method returns. Calls of completion handlers,
`onCaptureFinished`, requests handed to the network and records handed to
the history store are recorded in order in sequence fields. Platform results
(the main screen, the snapshot, the PNG conversion, the boundary's UUID, the
transport's error and data, whether an image file can be read) are
parameters.

## Model

| member | source | states |
|---|---|---|
| Selection.SelectionRect | simpleCrop/ScreenCaptureView.swift:83-103 | a rectangle exists only with both points known and a live or just-ended drag; it is at least 2 by 2, with the two points on opposite corners |
| Selection.SelectionLiveIff | simpleCrop/ScreenCaptureView.swift:83-100 | a selection exists exactly when both points are known, the drag is live or ended drags are allowed, and both extents are at least 2 |
| Selection.ClickSelectsNothing | simpleCrop/ScreenCaptureView.swift:93-100 | a press and release at the same point never yields a rectangle |
| Selection.SelectionSymmetric | simpleCrop/ScreenCaptureView.swift:93-96 | swapping the press point and the current point gives the same rectangle |
| Selection.SelectionIsBoundingBox | simpleCrop/ScreenCaptureView.swift:93-102 | the rectangle contains both points and is enclosed by every rectangle that contains both |
| Imaging.Cropped | simpleCrop/ScreenCaptureView.swift:216-227 | the crop has the rectangle's size, and its pixel (j, i) is the source pixel at the rectangle's origin plus (j, i), or transparent outside the source |
| Imaging.CroppedPixels | simpleCrop/ScreenCaptureView.swift:219-224 | reading the crop at (x, y) reads the source at the rectangle origin plus (x, y) |
| Imaging.CropWholeIsIdentity | simpleCrop/ScreenCaptureView.swift:216-227 | cropping the whole image returns the image |
| Imaging.CropOfCrop | simpleCrop/ScreenCaptureView.swift:216-227 | cropping a crop equals one crop of the source at the summed offset |
| Imaging.Crop | simpleCrop/ScreenCaptureView.swift:216-227 | the buffer-filling crop produces exactly `Cropped` |
| Overlay.DigitChar | simpleCrop/ScreenCaptureView.swift:142 | a digit value prints as a character '0'..'9' |
| Overlay.Digits | simpleCrop/ScreenCaptureView.swift:142 | a natural number prints as a non-empty run of decimal digits without a leading zero |
| Overlay.DigitsRoundTrip | simpleCrop/ScreenCaptureView.swift:142 | reading back the printed digits gives the number |
| Overlay.IntText | simpleCrop/ScreenCaptureView.swift:142 | an integer prints with a minus sign exactly when negative, followed by the digits of its absolute value |
| Overlay.IntTextInjective | simpleCrop/ScreenCaptureView.swift:142 | two integers that print alike are equal |
| Overlay.LabelText | simpleCrop/ScreenCaptureView.swift:142 | the label is "(", the printed x, ", ", the printed y, ")" |
| Overlay.LabelPartsDetermined | simpleCrop/ScreenCaptureView.swift:142 | in "(a, b)" with no comma in a, both a and b are fixed by the text |
| Overlay.LabelTextInjective | simpleCrop/ScreenCaptureView.swift:142 | the label identifies the pointer position: equal labels mean equal positions |
| Overlay.LabelOrigin | simpleCrop/ScreenCaptureView.swift:152-156 | the label sits 10 right and 25 below the cursor, or flips left of the cursor (5 points gap) when it would pass the right edge, and above it (10 points) when it would start below the bottom edge; it never covers the cursor's column |
| Overlay.LabelIsNotClampedLeft | simpleCrop/ScreenCaptureView.swift:155 | a label flipped left can start outside the left edge: only the right and bottom edges are checked |
| Overlay.Crosshair | simpleCrop/ScreenCaptureView.swift:124-138 | a vertical line at the cursor's x across the full height of the bounds and a horizontal one at its y across the full width; inside the bounds both pass through the cursor |
| Overlay.Scene | simpleCrop/ScreenCaptureView.swift:59-81 | a frame draws snapshot, then mask, then the unmasked selection and its border when a live rectangle exists, then crosshair and label when the cursor is known |
| Overlay.ScreenCaptureView.constructor | simpleCrop/ScreenCaptureView.swift:22-27 | a new overlay has no points, no drag and no handler calls; its bounds start at the origin with the frame's size |
| Overlay.ScreenCaptureView.CurrentSelectionRect | simpleCrop/ScreenCaptureView.swift:83-103 | a rectangle exists only with both points known and a live drag (or an ended one when allowed); the two points are on opposite corners and it is at least 2 by 2 |
| Overlay.ScreenCaptureView.Frame | simpleCrop/ScreenCaptureView.swift:59-81 | a frame starts with the snapshot and the mask, adds two selection commands only for a live rectangle and two pointer commands only for a known cursor; after a release no selection is drawn |
| Overlay.ScreenCaptureView.MouseDown | simpleCrop/ScreenCaptureView.swift:163-169 | press: start = current = p, dragging, redraw requested, no handler call |
| Overlay.ScreenCaptureView.MouseDragged | simpleCrop/ScreenCaptureView.swift:171-175 | drag: only the current point moves |
| Overlay.ScreenCaptureView.MouseMoved | simpleCrop/ScreenCaptureView.swift:178-186 | hover moves the current point only when no drag is live and never sets the start point |
| Overlay.ScreenCaptureView.MouseUp | simpleCrop/ScreenCaptureView.swift:188-201 | release ends the drag at p; the handler is called once, with the crop of the ended rectangle, exactly when that rectangle exists, and otherwise not at all |
| Overlay.ScreenCaptureView.KeyDown | simpleCrop/ScreenCaptureView.swift:205-212 | key code 53 calls the handler with nothing whatever the drag state; any other key calls nothing and changes nothing |
| CaptureController.ScreenCaptureController.constructor | simpleCrop/ScreenCaptureController.swift:22-26 | both slots start empty |
| CaptureController.ScreenCaptureController.BeginCapture | simpleCrop/ScreenCaptureController.swift:28-93 | the handler is stored first, replacing any earlier one; without a screen or snapshot it is called once with nothing and no window is kept; otherwise a fresh overlay over the screen frame with the snapshot is created and its window stored |
| CaptureController.ScreenCaptureController.Finish | simpleCrop/ScreenCaptureController.swift:95-104 | the stored window is taken off screen, both slots are emptied, and the stored handler, if any, is called once with the image: its call count grows by one and every other handler's stays |
| CaptureController.ScreenCaptureController.Relay | simpleCrop/ScreenCaptureController.swift:78-83 | the overlay's completion closure forwards each report to finish; only the first report reaches the stored handler and closes the window, later ones call nothing |
| CaptureController.FinishTwice | simpleCrop/ScreenCaptureController.swift:95-104 | two finishes in a row add at most one handler call in all, and at most one for any handler |
| OcrResponse.DecodeInfoObject | simpleCrop/OCRViewModel.swift:50-52 | the info object decodes exactly when it is a keyed object whose markdown is absent, null or a string; the markdown is that string or nothing |
| OcrResponse.DecodeInfo | simpleCrop/OCRViewModel.swift:34-41 | `info` is the object reading when that decodes, else the string reading, else empty text; it never fails |
| OcrResponse.InfoFallback | simpleCrop/OCRViewModel.swift:39-41 | a missing, null, non-string and non-object `info` (or an object with non-string markdown) reads as empty text |
| OcrResponse.DecodeRes | simpleCrop/OCRViewModel.swift:19-42 | `res` decodes exactly when it is an object whose `type` is a string and whose `conf` is absent, null or a number; the result carries that type, that confidence and the probed `info`; null and a missing `type` give their own errors |
| OcrResponse.DecodeResponse | simpleCrop/OCRViewModel.swift:13-17 | the envelope decodes exactly when it is an object with a boolean `status`, a `res` that is absent, null or decodable, and a `request_id` that is absent, null or a string; the result carries those values; a non-object and a missing `status` give their own errors |
| OcrResponse.InfoRoundTrip | simpleCrop/OCRViewModel.swift:29-52 | every `info` the service can send decodes back to itself |
| OcrResponse.ResRoundTrip | simpleCrop/OCRViewModel.swift:19-42 | every `res` object decodes back to itself |
| OcrResponse.ResponseRoundTrip | simpleCrop/OCRViewModel.swift:13-17 | every reply envelope decodes back to itself |
| OcrResponse.FinalText | simpleCrop/OCRViewModel.swift:210-216 | a plain string with type "formula" is shown as `$$`, newline, the string, newline, `$$`; any other plain string as is; an object shows its markdown, or the "structure unknown" notice |
| OcrResponse.FormulaFenceRoundTrip | simpleCrop/OCRViewModel.swift:213 | a formula is shown as `$$`, newline, source, newline, `$$`, and removing that fence gives the source back |
| OcrResponse.Describe | simpleCrop/OCRViewModel.swift:162-165 | the error text kept for a failure: the transport's own description, "API status false", or the decoding-failure message |
| OcrResponse.Interpret | simpleCrop/OCRViewModel.swift:201-224 | success exactly when the reply decodes with status true and `res` present; the request id defaults to "unknown" and the confidence to 0; a decoding error and a false status are failures |
| OcrResponse.TaskCompletion | simpleCrop/OCRViewModel.swift:197-224 | a transport error fails at once; neither error nor data calls nothing; unparsable bytes are a decoding failure; a JSON reply is decoded and interpreted |
| OcrResponse.StatusFalseFails | simpleCrop/OCRViewModel.swift:205-208 | a reply with status false fails whatever else it carries |
| OcrResponse.FormulaExample | simpleCrop/OCRViewModel.swift:203-221 | a formula reply without conf and request_id yields the fenced text, 0.0 and "unknown" |
| OcrResponse.MarkdownExample | simpleCrop/OCRViewModel.swift:214-221 | a markdown object yields its markdown with its confidence and request id |
| OcrResponse.EmptyObjectExample | simpleCrop/OCRViewModel.swift:214-218 | an object without markdown yields the "structure unknown" notice |
| Multipart.Utf8Char | simpleCrop/OCRViewModel.swift:185 | a scalar encodes as 1 to 4 bytes, and as its own single byte exactly when it is ASCII |
| Multipart.Utf8OneBytePerCharIffAscii | simpleCrop/OCRViewModel.swift:185 | text encodes to one byte per character exactly when it is ASCII |
| Multipart.Utf8Append | simpleCrop/OCRViewModel.swift:185-194 | appending encoded pieces encodes the joined text |
| Multipart.Utf8OfAscii | simpleCrop/OCRViewModel.swift:189-191 | ASCII header text encodes one byte per character, byte equal to character |
| Multipart.Utf8Append3 | simpleCrop/OCRViewModel.swift:185-187 | three appended encodings encode the joined text |
| Multipart.FieldPartBytes | simpleCrop/OCRViewModel.swift:185-187 | the three appends for one field encode that field's part text |
| Multipart.FieldBytesAreFieldsText | simpleCrop/OCRViewModel.swift:184-188 | the bytes the field loop appends are the encoding of all field parts in order |
| Multipart.Body | simpleCrop/OCRViewModel.swift:182-194 | the body is the encoded text of the field parts and the file part's headers, then the PNG bytes untouched, then the encoded line break and close delimiter |
| Multipart.ImageIsEmbedded | simpleCrop/OCRViewModel.swift:191-192 | the PNG bytes appear verbatim right after the file part's headers |
| Multipart.BodyEndsWithCloseDelimiter | simpleCrop/OCRViewModel.swift:194 | the body ends with the close-delimiter line |
| Multipart.FieldsTextStartsWithDelimiter | simpleCrop/OCRViewModel.swift:184-185 | with at least one field, the fields' text starts with the delimiter line |
| Multipart.PrefixStartsWithDelimiter | simpleCrop/OCRViewModel.swift:184-189 | the text before the image starts with the delimiter line whatever the fields |
| Multipart.EncodedPrefixStartsWithDelimiter | simpleCrop/OCRViewModel.swift:182-189 | the encoded text before the image, and so the body, starts with the encoded delimiter line |
| Multipart.BuildBody | simpleCrop/OCRViewModel.swift:182-194 | the append loop builds exactly the specified body |
| Multipart.BoundaryFor | simpleCrop/OCRViewModel.swift:178 | the boundary is "Boundary-" followed by the UUID, which it determines |
| Multipart.BuildRequest | simpleCrop/OCRViewModel.swift:176-195 | the request goes to the endpoint by POST, with a content type naming the boundary, the token header, and the body laid out as above |
| Token.TrimStart | simpleCrop/OCRViewModel.swift:91 | dropping leading white space leaves a suffix, preceded only by white space, that starts with a non-space |
| Token.TrimEnd | simpleCrop/OCRViewModel.swift:91 | dropping trailing white space leaves a prefix, followed only by white space, that ends with a non-space |
| Token.TrimIsInnerRun | simpleCrop/OCRViewModel.swift:91 | the trimmed text is a contiguous run of the original with only white space cut on each side |
| Token.CurrentToken | simpleCrop/OCRViewModel.swift:90-93 | there is no token exactly when the stored token is all white space; otherwise the token is the non-empty trimmed stored token |
| Token.TrimmedEndsAreNotSpace | simpleCrop/OCRViewModel.swift:91 | what trimming keeps has no white space at either end |
| Token.TrimmedEmptyIffAllSpace | simpleCrop/OCRViewModel.swift:91-92 | trimming leaves nothing exactly when every character is white space |
| Token.TrimStartOfAllSpace | simpleCrop/OCRViewModel.swift:91 | trimming the start of an all-white-space text leaves nothing |
| Token.TrimStartReachesNonSpace | simpleCrop/OCRViewModel.swift:91 | a non-space character survives trimming at the start |
| Token.TrimEndKeepsNonSpaceStart | simpleCrop/OCRViewModel.swift:91 | a text starting with a non-space survives trimming at the end |
| Token.TrimIdempotent | simpleCrop/OCRViewModel.swift:91 | trimming again changes nothing |
| Debounce.ClosedIffSettled | simpleCrop/OCRViewModel.swift:84 | a value is delivered before the newest write exactly when some write of it was followed by the next write at least 0.1 s later |
| Debounce.FiredIffSettled | simpleCrop/OCRViewModel.swift:84 | a value is delivered by time t exactly when some write of it went 0.1 s without a newer write |
| Debounce.FiredAfterWrite | simpleCrop/OCRViewModel.swift:84 | a new write delivers nothing by itself at its own time |
| Debounce.TypingBurst | simpleCrop/OCRViewModel.swift:84 | writes at 0, 30 and 50 ms deliver only the last value, at 150 ms and not before |
| Debounce.Dedup | simpleCrop/OCRViewModel.swift:85 | removeDuplicates keeps the last value and the same set of values, and no two neighbours are equal |
| Debounce.DedupSnoc | simpleCrop/OCRViewModel.swift:85 | one more value passes removeDuplicates exactly when it differs from the previous one |
| Debounce.SinkStep | simpleCrop/OCRViewModel.swift:85-86 | a delivered value is assigned to the property exactly when it differs from the last delivered value |
| Debounce.DebounceTimer.constructor | simpleCrop/OCRViewModel.swift:84 | a new timer has no writes and nothing pending |
| Debounce.DebounceTimer.Advance | simpleCrop/OCRViewModel.swift:84 | advancing the clock delivers the pending value exactly when its 0.1 s deadline has come, and the delivery log stays the reference meaning |
| Debounce.DebounceTimer.Schedule | simpleCrop/OCRViewModel.swift:84 | a write replaces the pending value and restarts the interval |
| Debounce.ResultPipeline.constructor | simpleCrop/OCRViewModel.swift:77-88 | both properties start with the initial text, which enters the debounce as its first write |
| Debounce.ResultPipeline.Deliver | simpleCrop/OCRViewModel.swift:85-86 | a delivered value changes the shown text only when it differs from the previous delivery |
| Debounce.ResultPipeline.Tick | simpleCrop/OCRViewModel.swift:83-87 | advancing the clock keeps the pipeline consistent and the raw text and writes unchanged |
| Debounce.ResultPipeline.Set | simpleCrop/OCRViewModel.swift:83-87 | a write to resultText sets it and appends one timed write to the debounce log |
| Debounce.PipelineShowsOnlySettledText | simpleCrop/OCRViewModel.swift:83-87 | the preview shows the initial text or a value that stood 0.1 s without a newer write, and never gets the same value twice in a row |
| Debounce.QuietShowsLatest | simpleCrop/OCRViewModel.swift:83-87 | once the newest text has stood 0.1 s, the preview shows exactly that text |
| ViewModel.OcrViewModel.constructor | simpleCrop/OCRViewModel.swift:73-88 | the saved token, no loading, no error, and the instructions shown raw and in the preview |
| ViewModel.OcrViewModel.StartFromMenu | simpleCrop/OCRViewModel.swift:95-112 | without a token: the error and notice texts, no capture, onCaptureFinished once; with one: the error cleared and a capture begun for the handler, which runs at once with nothing, stopping loading and calling onCaptureFinished, exactly when no overlay can open |
| ViewModel.OcrViewModel.Refuse | simpleCrop/OCRViewModel.swift:97-105 | loading off, the missing-token error, the notice as resultText, onCaptureFinished once |
| ViewModel.OcrViewModel.Begin | simpleCrop/OCRViewModel.swift:107-126 | loading off, error cleared, capture begun for the handler; onCaptureFinished runs once when the capture cannot start (through the handler's no-image path) and not yet when the overlay opens |
| ViewModel.OcrViewModel.CaptureEnded | simpleCrop/OCRViewModel.swift:120-180 | no image: loading off; conversion failure: loading off and the conversion error; blank token: loading stays on and nothing is sent; else loading on and one request for the trimmed token and the PNG |
| ViewModel.OcrViewModel.ResponseArrived | simpleCrop/OCRViewModel.swift:147-167 | with neither error nor data nothing changes; otherwise loading off and either the text shown and one history record added, or the description kept as error and shown after "Error: " |
| ViewModel.OcrViewModel.Succeed | simpleCrop/OCRViewModel.swift:148-160 | loading off, the text shown, one record with the image, text, confidence and request id |
| ViewModel.OcrViewModel.Fail | simpleCrop/OCRViewModel.swift:162-165 | loading off, the description as error, "Error: " plus it shown, no record |
| History.RowTitle | simpleCrop/HistoryView.swift:59 | a text of at most 30 characters is its own title; a longer one shows its first 30 characters then "..." |
| History.RowTitleIdempotent | simpleCrop/HistoryView.swift:59 | the title of a title is the title |
| History.FirstIndex | simpleCrop/HistoryView.swift:35 | the position of the first record with the id, or none exactly when no record has it |
| History.DetailPane | simpleCrop/HistoryView.swift:35-41 | the placeholder exactly when nothing is selected or no record has the selected id; otherwise the first record with that id |
| History.DetailPaneIgnoresLaterRecords | simpleCrop/HistoryView.swift:35 | once a record with the id exists, records after it do not change the pane |
| History.HistoryDetailView.constructor | simpleCrop/HistoryView.swift:84-88 | editor and preview both start with the record's text; no image is loaded until the appearance hook calls LoadImage |
| History.HistoryDetailView.LoadImage | simpleCrop/HistoryView.swift:178-185 | the image is the record's file when readable and nothing otherwise |
| History.HistoryDetailView.Receive | simpleCrop/HistoryView.swift:157-164 | only when the editor's text differs from the record's are editor and preview reset to it and the image reloaded; otherwise nothing but the record changes |
| History.HistoryDetailView.Tick | simpleCrop/HistoryView.swift:171-175 | a settled text reaches the preview, and redraws it only when it differs from what it shows |
| History.HistoryDetailView.Edit | simpleCrop/HistoryView.swift:167-169 | an edit sends the new text to the debounce, replacing whatever was pending |

## Left out

- The app delegate, the settings/editor layout, the NSTextView wrapper and
  the MathJax preview are UI wiring and web rendering; none is part of this model.
- The history store is not part of this model. Records handed to it are
  logged as values; its persistence and image files are not modelled. A
  record's id stands for its UUID.
- Token persistence in UserDefaults is not modelled: the saved token is a
  constructor parameter.
- Screen lookup, the CoreGraphics snapshot, window levels and activation,
  tracking areas and first-responder handling are platform calls. Their
  results are parameters.
- Pixel rendering (mask alpha, stroke colours, fonts) is not modelled: a
  frame is an ordered list of draw commands. Text measurement is a parameter.
- Coordinates are whole numbers. CGFloat fractions, Retina scaling and the
  truncation of `Int(point.x)` in the label are not modelled.
- The image outside the snapshot reads as transparent, which is the
  allocated buffer's content. How AppKit samples a rectangle that
  extends past the source is not modelled.
- The TIFF-to-PNG conversion is an input: the PNG bytes, or nothing when it
  fails.
- URLSession is not modelled. The transport's error and data are parameters,
  and JSON text parsing is taken as done: a reply arrives as a JSON value or as
  "unparsable".
- Foundation's error messages are not modelled word for word: a decoding
  failure is described by one fixed sentence.
- The boundary's random UUID is a parameter.
- Dictionary iteration order in the body loop is not modelled. The
  one-field dictionary is a one-element sequence.
- Strings are sequences of Unicode scalars, so the 30-character row title
  counts scalars where Swift counts grapheme clusters.
- Swift compares strings by canonical equivalence; the model compares
  scalar sequences. This affects `removeDuplicates` in the result pipeline,
  the history view's text comparisons and the `type == "formula"` test:
  canonically equal but differently encoded strings count as different here.
- The view's `onAppear` hook is not a modelled event: a caller that shows a
  history detail view calls LoadImage itself.
- `[weak self]` captures are not modelled: the objects are assumed alive.
  SwiftUI's re-evaluation of view bodies is reduced to one send of the
  editor text per change.
- Main-queue ordering is not modelled: each async block is taken to have run
  before the modelled method returns.
- The date formatting and the "Conf: %.2f" text of a history row, and
  the copy-to-pasteboard button, are Foundation/AppKit formatting and
  I/O and are not modelled.
- ViewModel.OcrViewModel.CaptureEnded: does not advance the debounce clock,
  because no text is written on that path.
- Debounce.ResultPipeline.Tick: states only the timing and the raw text, because what the
  preview then shows is stated by Debounce.PipelineShowsOnlySettledText and
  Debounce.QuietShowsLatest over the pipeline's invariant.
- Debounce.ResultPipeline.Set: same as Tick. Stating the delivered values
  in its contract is left to those two lemmas.
