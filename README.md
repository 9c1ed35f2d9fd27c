# Photo editor session — a Dafny model

This project models the editing session of the photo editor component
(`PhotoFilters`) of a browser photo-editing app. The session state has three parts:

- **The filter parameter set.** Seven integers: brightness, contrast, blur, invert,
  hue rotation, saturation and opacity. They start at 100, 100, 0, 0, 0, 100 and 100.
  The toolbar buttons change them, and each button press applies a pure update rule:
  - brightness, contrast and saturate step by 10 within [0, 200];
  - blur steps by 1 within [0, 10];
  - opacity steps by 10 within [0, 100];
  - hue rotation steps by 10 and wraps modulo 360, using JavaScript's truncating `%`;
  - invert has no button.

  A reset can restore one parameter, chosen by its state name, or all seven at once.
- **The crop gesture.** A `cropping` flag with an optional start point and an optional end point. The crop button arms the gesture. Pointer-down, pointer-move and pointer-up on the drawing surface then move it along. A release that has the flag and both points commits, unless the selection has zero width or zero height. A commit sets the surface size to end minus start and clears the gesture.
- **The filter expression.** Before a redraw, the component assigns a text to the drawing context's filter. The text lists seven CSS filter functions in a fixed order, and each one carries the current value of its parameter with its unit: `brightness(..%)`, `contrast(..%)`, `blur(..px)`, `invert(..%)`, `hue-rotate(..deg)`, `saturate(..%)` and `opacity(..%)`. Each function sits on its own indented line.

Layout:

| file | module | contents |
|---|---|---|
| `wrappers.dfy` | `Wrappers` | `Option`, for the nullable points |
| `filters.dfy` | `Filters` | parameter set, button update rules, reset by name, reset all, their properties |
| `crop.dfy` | `Crop` | gesture value, the four transitions, runs of pointer events, their properties |
| `decimal.dfy` | `Decimal` | the decimal text of an integer, as template interpolation writes it, and reading it back |
| `filter_expression.dfy` | `FilterExpression` | the seven terms, the exact filter text, a parser, and the round trip |
| `editor_session.dfy` | `Session` | class `EditorSession`, whose fields the toolbar and pointer handlers update in place |

The class methods are specified by the pure functions of `Filters` and `Crop`, and
they all preserve `EditorSession.Valid()`. That invariant says three things: every
parameter is in its range, invert is still 0, and the gesture is well formed (an end
point needs a start point, and a start point needs the flag).

In four places the editor's behaviour differs from what one might expect, and the model follows the code:

- A press and release with no drag does not commit a zero-area crop. The code commits only when `cropEnd` is set, and only pointer-move sets it (`Crop.ClickWithoutDragCommitsNothing`).
- The component itself does not guard the crop size. A drag up or to the left commits a negative size. A selection of zero width or height makes the host's image-data read throw an "IndexSizeError" (HTML Standard, `getImageData()`), which ends the handler before it resizes the surface or clears the gesture, so such a release changes nothing (`Crop.Committed`, `Crop.DegenerateSizes`, `Crop.FlatDragCommitsNothing`).
- A committed crop does not become the image that later redraws start from. Only the image effect (line 33) stores `originalPhoto`, and the next parameter change redraws from it at its full size (lines 43-45 and 61-63), which undoes the crop on the surface.
- Uploading a new image does not reset the filters or the gesture. The image effect only stores the original photo.

## Model

| member | source | states |
|---|---|---|
| `Filters.Step` | app/components/PhotoFilters.tsx:196-259 | A button's update keeps a value that starts in its parameter's range inside that range. |
| `Filters.ClampedStepFollowsPolicy` | app/components/PhotoFilters.tsx:196-259 | Brightness, contrast, saturate, blur and opacity add or subtract their step (10, or 1 for blur) and clamp at 0 and at their maximum (200, 10 or 100). |
| `Filters.ClampedPresses` | app/components/PhotoFilters.tsx:196-223 | After n presses of a clamped button the value is min(v + n·step, max) going up and max(v − n·step, 0) going down. |
| `Filters.ClampedUpDownNotInverse` | app/components/PhotoFilters.tsx:196-199 | Clamping loses information: brightness at 200, raised and then lowered, is 190. |
| `Filters.JsRem360` | app/components/PhotoFilters.tsx:232-235 | JavaScript's `% 360`: the result is congruent to the dividend modulo 360. A non-negative dividend gives a result in [0, 360), a negative one a result in (−360, 0], and a dividend already strictly between −360 and 360 is unchanged. |
| `Filters.HueStepIsModular` | app/components/PhotoFilters.tsx:232-235 | On [0, 360), hue-up is (v + 10) mod 360 and hue-down is (v + 350) mod 360. |
| `Filters.HueWraps` | app/components/PhotoFilters.tsx:232-235 | Raising 350 gives 0, and lowering 0 gives 350. |
| `Filters.HueUpDownInverse` | app/components/PhotoFilters.tsx:232-235 | On [0, 360), hue-up then hue-down gives back the original value, and so does the reverse order. |
| `Filters.HuePresses` | app/components/PhotoFilters.tsx:232-234 | n presses of hue-up rotate by 10·n degrees modulo 360. |
| `Filters.HueFullTurn` | app/components/PhotoFilters.tsx:232-234 | 36 presses of hue-up bring the value back to where it started. |
| `Filters.Press` | app/components/PhotoFilters.tsx:196-259 | A button press gives the pressed parameter the value of that button's update rule applied to its old value, keeps all seven parameters in range, and leaves the other six parameters unchanged. |
| `Filters.WithValue` | app/components/PhotoFilters.tsx:16-22 | Setting one parameter gives it the new value and leaves the other six unchanged. |
| `Filters.Named` | app/components/PhotoFilters.tsx:134-160 | A name selects the parameter whose state key equals it. A name equal to no key selects nothing (the `default` case). |
| `Filters.NamedKey` | app/components/PhotoFilters.tsx:134-160 | Each parameter's key selects that parameter. |
| `Filters.ResetOne` | app/components/PhotoFilters.tsx:134-160 | Resetting by name sets exactly the named parameter to its neutral value: 100 for brightness, contrast, saturate and opacity, 0 for blur, invert and hueRotate. The other six keep their values, and an unknown name changes nothing. |
| `Filters.ResetAll` | app/components/PhotoFilters.tsx:162-170 | Reset-all sets every parameter to its neutral value. |
| `Filters.InitialIsNeutral` | app/components/PhotoFilters.tsx:16-22 | The initial values are the neutral values and lie in range, and reset-all always gives the initial parameter set. |
| `Filters.ResetAllIdempotent` | app/components/PhotoFilters.tsx:162-170 | Two reset-alls equal one. |
| `Filters.ResetAllIsEveryReset` | app/components/PhotoFilters.tsx:134-170 | Reset-all equals resetting the seven parameters one after another by name. |
| `Crop.Selection` | app/components/PhotoFilters.tsx:113-121 | For a well-formed gesture, a release selects a rectangle (end minus start) exactly when an end point is recorded. |
| `Crop.Committed` | app/components/PhotoFilters.tsx:113-131 | For a well-formed gesture, a release commits exactly when an end point is recorded that differs from the start point in both coordinates, and what it commits is the selection. |
| `Crop.Next` | app/components/PhotoFilters.tsx:65-131 | Each of the four gesture transitions keeps the gesture well formed. |
| `Crop.ReleaseClears` | app/components/PhotoFilters.tsx:113-131 | A committing release leaves the gesture idle (no flag, no points). A second release then commits nothing and changes nothing. |
| `Crop.RunPreservesWellFormed` | app/components/PhotoFilters.tsx:65-131 | Every gesture reachable by a run of events is well formed. |
| `Crop.UnarmedPointerIgnored` | app/components/PhotoFilters.tsx:69-132 | Without the crop button, any run of pointer-down, pointer-move and pointer-up events changes nothing and commits nothing. |
| `Crop.MovesTrackLastPoint` | app/components/PhotoFilters.tsx:81-88 | While armed and started, a run of moves commits nothing and only replaces the end point, with the last point of the run. |
| `Crop.DragCommits` | app/components/PhotoFilters.tsx:65-131 | The sequence crop button, press at a, drag through points, release, when the last point differs from a in both coordinates, commits exactly one size (last point minus a) and ends idle, from any prior state. |
| `Crop.FlatDragCommitsNothing` | app/components/PhotoFilters.tsx:65-131 | The same sequence, when the last point shares a coordinate with a, commits nothing and leaves the gesture armed from a to the last point. |
| `Crop.DragReleases` | app/components/PhotoFilters.tsx:65-131 | Crop button, press at a and a drag through points bring any gesture to the armed gesture from a to the last point, so the release then does what pointer-up does to that gesture. |
| `Crop.ClickWithoutDragCommitsNothing` | app/components/PhotoFilters.tsx:69-132 | A press and release with no move commits nothing, and the gesture stays armed with its start point. |
| `Crop.DragScenario` | app/components/PhotoFilters.tsx:113-124 | Dragging from (10,10) to (60,40) commits a 50 × 30 surface. |
| `Crop.DegenerateSizes` | app/components/PhotoFilters.tsx:113-131 | A drag up and to the left commits a negative size. A straight vertical drag selects zero width, commits nothing, and leaves the gesture unchanged. |
| `Decimal.IntText` | app/components/PhotoFilters.tsx:46-54 | An interpolated integer is non-empty and ends in a digit. It starts with `-` exactly when the integer is negative, it starts with `0` only for zero, and a negative one has a non-zero digit after its sign (no leading zero), and it contains no `(` and no line break. |
| `Decimal.IntTextRoundTrip` | app/components/PhotoFilters.tsx:46-54 | Reading back the text of any integer gives that integer. |
| `FilterExpression.Terms` | app/components/PhotoFilters.tsx:46-54 | The expression has seven terms in the order brightness, contrast, blur, invert, hue-rotate, saturate, opacity. Each carries its parameter's current value and its unit (%, %, px, %, deg, %, %). |
| `FilterExpression.TermRoundTrip` | app/components/PhotoFilters.tsx:46-54 | A term's text `name(amount unit)` is read back as the same name, amount and unit. |
| `FilterExpression.FilterTextRoundTrip` | app/components/PhotoFilters.tsx:46-54 | The full template text, at any indentation, is read back as exactly the parameter set it was built from. |
| `FilterExpression.FilterTextInjective` | app/components/PhotoFilters.tsx:46-54 | Two parameter sets with the same filter text are equal. |
| `Session.EditorSession.constructor` | app/components/PhotoFilters.tsx:13-22 | A new session has the initial parameters and an idle gesture, and it is valid. |
| `Session.EditorSession.IncreaseBrightness` | app/components/PhotoFilters.tsx:196 | The parameters become the brightness-up press of the old ones, and validity is kept. |
| `Session.EditorSession.DecreaseBrightness` | app/components/PhotoFilters.tsx:199 | The parameters become the brightness-down press of the old ones, and validity is kept. |
| `Session.EditorSession.IncreaseContrast` | app/components/PhotoFilters.tsx:208 | The parameters become the contrast-up press of the old ones, and validity is kept. |
| `Session.EditorSession.DecreaseContrast` | app/components/PhotoFilters.tsx:211 | The parameters become the contrast-down press of the old ones, and validity is kept. |
| `Session.EditorSession.IncreaseBlur` | app/components/PhotoFilters.tsx:220 | The parameters become the blur-up press of the old ones, and validity is kept. |
| `Session.EditorSession.DecreaseBlur` | app/components/PhotoFilters.tsx:223 | The parameters become the blur-down press of the old ones, and validity is kept. |
| `Session.EditorSession.IncreaseHueRotate` | app/components/PhotoFilters.tsx:232 | The parameters become the hue-up press of the old ones, and validity is kept. |
| `Session.EditorSession.DecreaseHueRotate` | app/components/PhotoFilters.tsx:235 | The parameters become the hue-down press of the old ones, and validity is kept. |
| `Session.EditorSession.IncreaseSaturate` | app/components/PhotoFilters.tsx:244 | The parameters become the saturate-up press of the old ones, and validity is kept. |
| `Session.EditorSession.DecreaseSaturate` | app/components/PhotoFilters.tsx:247 | The parameters become the saturate-down press of the old ones, and validity is kept. |
| `Session.EditorSession.IncreaseOpacity` | app/components/PhotoFilters.tsx:256 | The parameters become the opacity-up press of the old ones, and validity is kept. |
| `Session.EditorSession.DecreaseOpacity` | app/components/PhotoFilters.tsx:259 | The parameters become the opacity-down press of the old ones, and validity is kept. |
| `Session.EditorSession.ResetFilter` | app/components/PhotoFilters.tsx:134-160 | The parameters become the reset-by-name of the old ones, and validity is kept. |
| `Session.EditorSession.ResetAllFilters` | app/components/PhotoFilters.tsx:162-170 | The parameters become the initial set, and validity is kept. |
| `Session.EditorSession.ContextFilter` | app/components/PhotoFilters.tsx:39-54 | Returns the filter text for the current parameters, which reads back as exactly those parameters. |
| `Session.EditorSession.StartCropping` | app/components/PhotoFilters.tsx:65-67 | Arms the gesture and leaves the points alone, keeping validity. |
| `Session.EditorSession.HandleMouseDown` | app/components/PhotoFilters.tsx:69-79 | When armed, records the start point and clears the end point. Otherwise nothing changes. Validity is kept. |
| `Session.EditorSession.HandleMouseMove` | app/components/PhotoFilters.tsx:81-88 | When armed and started, records the end point. Otherwise nothing changes. Validity is kept. |
| `Session.EditorSession.HandleMouseUp` | app/components/PhotoFilters.tsx:113-132 | When the flag and both points are present and the selection has non-zero width and height, the surface becomes end minus start and the gesture is cleared. Otherwise nothing changes, including for a zero-area selection, whose image-data read throws. Validity is kept. |

The gesture transitions `Crop.Arm`, `Crop.PointerDown`, `Crop.PointerMove` and `Crop.PointerUp` (lines 65-67, 69-79, 81-88 and 113-131) and the template text `FilterExpression.FilterText` (lines 46-54) are described by the rows of the session methods that they specify (`StartCropping`, `HandleMouseDown`, `HandleMouseMove`, `HandleMouseUp`, `ContextFilter`) and by `Crop.Next`, `Crop.Committed` and `FilterExpression.FilterTextRoundTrip`.

## Left out

- Pixel work on the drawing surface is not modelled: drawing and clearing the image, stroking the selection rectangle, reading and writing image data, and exporting it as a data URL (lines 26-32, 55-56, 91-108, 122-126). The model keeps only the surface's width and height. What the host's filter functions do to pixels is not modelled either, and that includes the claim that the neutral set reproduces the original image.
- The surface size is kept as the integer difference end minus start. The model leaves out how the host converts a negative size when it is assigned to the surface's width and height. For a zero-area selection the model captures only the effect of the thrown exception (nothing changes), not the exception itself or its report on the console.
- `Session.EditorSession.HandleMouseUp`: `width` and `height` are the surface size right after the last commit. The next parameter change redraws the stored original image and restores its size (lines 43-45 and 61-63); that redraw is not modelled, so the model does not capture the size being restored.
- The drag preview (lines 91-108) assigns the context filter after drawing the image, so that callback draws the image with whatever filter the context already holds: normally the same text, set by `applyFilters` or by the previous preview, and none only after a resize of the surface (lines 30-31 or 123-124) with no parameter change since. That drawing is pixel work and is not modelled. Its filter text is `FilterExpression.FilterText(p, 10)`.
- Asynchronous image decoding (`loadImage(...).then`, lines 29, 43 and 93) is not modelled. Neither are the order in which decodes complete and the stored `originalPhoto`: a decode is a suspension point of the host.
- The effect that re-runs `applyFilters` whenever a parameter changes (lines 61-63) is not modelled. So is the `onFilterApplied` callback to the root view. `ContextFilter` gives the expression that such a redraw assigns.
- Pointer coordinates come from the DOM (`getBoundingClientRect` and `clientX`/`clientY`, lines 71-73 and 83-85). Those are floating-point numbers. In the model, points are integer inputs of the handlers.
- The guards for a missing canvas or 2D context (lines 42, 92 and 117) are not modelled. The handlers only run on the mounted canvas, which always has its 2D context, so the model treats the context as present.
- Parameter values are unbounded integers, while the source uses JavaScript numbers. Every reachable value is a small integer, so the two agree. The exponent notation JavaScript uses for very large numbers is not modelled.
- `downloadImage` (lines 172-180), `downloadPhoto` in `app/page.tsx` and all of `app/components/UploadPhoto.tsx` are not modelled: they are file input and output through the browser.
- The mode switch in `app/page.tsx` is not modelled: it only stores callback values.
- The JSX layout and CSS (lines 182-339) are not modelled.
