# Image widget with positioned overlays: a Dafny model

The `WidgetImage` custom element (`widget-overlay`) shows one picture and
draws overlay markers on top of it. Markers are progress bars, text labels
or plain switch/HTML items, and are placed at positions relative to the
picture. This project models the logic behind that, and proves what it
promises. The logic has five parts:

- **Image-source classification (`transform`).** The `image` string is
  trimmed. It then goes through a first-match cascade: inline `<svg>` markup
  (the first `<svg` up to the nearest following `</svg>`, in any letter
  case), an SVG or raster data URL, a long bare base64 payload (wrapped as a
  data URL), an absolute URL, or a relative path. The result sets at most
  one of the element's `inlineSvg` and `previewUrl` fields.
- **Contain fit (`getModifier`).** The picture's intrinsic size is scaled
  into the base layer's box without distortion. The visible area is then
  centred in the parent container. The result is stored as the element's
  Modifier `{scaler, xOffset, yOffset, visibleWidth, visibleHeight}`, but
  only when every measurement is available.
- **Positioning (`getOverlayItemPosition`).** An affine map from an item's
  relative coordinates, through the Modifier, to pixels. It does not clamp.
- **Value classification.** The section colour is found with
  `findIndex(v <= limit)` and the rule "index `i >= 1` gives `colors[i-1]`,
  otherwise `#333`". The progress fraction normalises the value between
  the minimum and maximum limit and clamps the result to [0,1].
- **Layer dispatch (`renderLayer`).** Without a Modifier a layer shows
  nothing. Otherwise each item is passed, in order, to the handler its
  `layerType` selects. The model gives each handler's output as an abstract
  marker record: position, colour, fraction, and sizes after scaling. When
  the source code throws, the model returns that exception as a value.

Modules:

- `Wrappers`: Option and Result.
- `Text`: ECMAScript `trim`, BOM removal, and ASCII case-insensitive search.
- `ImageSource`: the classification as a pure function `Resolve`, with the
  regular-expression lemmas.
- `JsMath`: `Math.min` and `Math.max`.
- `Geometry`: intrinsic size, fit and positioning.
- `Sections`: colour lookup and progress fraction.
- `Render`: handlers and layer dispatch.
- `Widget`: the element as a class whose methods `Transform`, `GetModifier`
  and `InputDataChanged` update its fields. Each method is proved against
  the functions above.

Foreign operations are parameters:

- `isAbsoluteUrl(s)` stands for "`new URL(s)` does not throw".
- `num(s)` stands for `Number(s)`. It returns `None` for `NaN`.
- The DOM readings are the fields of `Geometry.BaseLayer`: the two bounding
  boxes, `naturalWidth`/`naturalHeight`, the inner `<svg>`'s view box, and
  the width/height attributes.

Behaviour of the code that the model keeps as written:

- **Handlers can throw.** A handler throws in four cases; the model
  returns each as `Render.Thrown`:
  - a progress layer without `sections` (`.map` on `undefined`, line 272);
  - a text layer without `textStyle` (line 234);
  - a numeric label whose precision is at least 101, that is, whose
    precision truncated to an integer exceeds 100 (`toFixed` throws a
    `RangeError`);
  - a `layerType` that has no handler.
  Such an exception is not caught anywhere: it escapes `render`; the
  model returns only that exception (`Render.RenderAll`).
- **`NaN` is not 0 in the progress fraction.** `Math.max(0, NaN)` is
  `NaN`, so a value that is not a number yields a `NaN` fraction; the model
  returns `None`. There is one exception: when every limit is equal, the
  code yields 0 even for `NaN`.
- **Colour from the unformatted number.** A text label's colour is looked
  up with the unformatted number, not the formatted string, and only when
  the precision is at least 0.
- **The BOM strip is a no-op.** The code strips a leading byte-order mark
  from text it has already trimmed. `trim` already removes U+FEFF, so that
  step changes nothing (`Text.BomStripRedundant`).
- **The width/height fallback reads the wrapper.** For inline SVG without a
  view box, `getModifier` reads the wrapper div's attributes, which the
  template never sets (see "## Findings"). `Widget.WidgetImage.GetModifier`
  keeps that reading (`Geometry.IntrinsicSizeAsWritten`,
  `Geometry.Measurable`, `Geometry.LayerModifier`); the reading of the
  `<svg>` element's own attributes is `Geometry.IntrinsicSize`, with
  `Geometry.MeasurableCorrected` and `Geometry.LayerModifierCorrected`.

## Model

| member | source | states |
|---|---|---|
| Text.Trim | src/widget-overlay.ts:102 | `String.prototype.trim`: the result is no longer than the input and neither starts nor ends with ECMAScript white space (U+FEFF included) |
| Text.BomStripRedundant | src/widget-overlay.ts:102-110 | after `trim`, removing a leading U+FEFF and trimming the start again leaves the string unchanged, because `trim` already removes U+FEFF |
| Text.FindCi | src/widget-overlay.ts:113 | the `/i` search: finds the first index at or after `from` where the pattern occurs ignoring ASCII case; `None` exactly when there is no such index |
| ImageSource.SvgMatch | src/widget-overlay.ts:113 | the lazy `<svg[\s\S]*?<\/svg>` match is the first `<svg` and the nearest `</svg>` that starts at least four characters after it; returns `None` exactly when no `<svg` is followed by a `</svg>` |
| ImageSource.NoSvgWithoutAngle | src/widget-overlay.ts:113-115 | text without `<` holds no SVG block |
| ImageSource.RasterDataUrlMatchesPattern | src/widget-overlay.ts:127 | the raster check accepts exactly what `/^data:image\/[a-zA-Z.+-]+;base64,/` matches, whichever subtype split the regex tries |
| ImageSource.BareBase64MatchesPattern | src/widget-overlay.ts:133 | the bare-base64 check accepts exactly what `/^[A-Za-z0-9+/]+=*$/` matches |
| ImageSource.ResolveWithoutImage | src/widget-overlay.ts:97-101 | an absent or empty `image` clears both `inlineSvg` and `previewUrl` |
| ImageSource.ResolveBlankImage | src/widget-overlay.ts:102-152 | an image made only of white space shows nothing, as long as `new URL("")` throws |
| ImageSource.ResolveInlineSvgPrecedence | src/widget-overlay.ts:110-119 | when the search text has a `<svg` with a later `</svg>`, the result is inline markup and `previewUrl` is cleared, whatever else the string would match |
| ImageSource.ResolveInlineSvgBlock | src/widget-overlay.ts:110-119 | the inline markup is exactly the slice from the first `<svg` to the end of the nearest following `</svg>`; the final `trim` leaves it unchanged |
| ImageSource.SvgMatchIsFirstToNearest | src/widget-overlay.ts:113 | the first `<svg` together with the nearest following `</svg>` is the match |
| ImageSource.SvgBlockIsTrimmed | src/widget-overlay.ts:116 | a matched block starts with `<` and ends with `>`, so `trim` keeps it whole |
| ImageSource.ResolveReferenceCascade | src/widget-overlay.ts:121-152 | with no SVG block, the result follows the cascade in source order: SVG data URL, raster data URL, bare base64 longer than 100 characters (prefixed with `data:image/*;base64,`), absolute URL, path starting with `.` or `/`, otherwise nothing; each test is given by its regular expression's own reading |
| ImageSource.ResolveNonEmpty | src/widget-overlay.ts:96-153 | a source that is set is never the empty string, so line 390's `!!inlineSvg \|\| !!previewUrl` holds exactly when a source is set |
| ImageSource.ResolveReferenceAgain | src/widget-overlay.ts:121-152 | resolving an address again: one kept verbatim resolves to itself; a synthesised base64 data URL fails every data-URL test and survives only if the URL parser accepts it |
| ImageSource.SynthesisedUrlResolution | src/widget-overlay.ts:133-136 | `data:image/*;base64,` followed by a payload needs no trimming, has no SVG block, and fails the data-URL, base64 and path tests |
| ImageSource.ClassifyReferenceNonEmpty | src/widget-overlay.ts:121-152 | a reference the cascade keeps is never the empty string, as long as `new URL("")` throws |
| ImageSource.SvgBlockLength | src/widget-overlay.ts:113-116 | a matched SVG block is at least as long as `<svg` and `</svg>` together |
| ImageSource.SynthesisedUrlFailsPatterns | src/widget-overlay.ts:122-145 | a string starting with `data:image/*;base64,` fails the SVG data-URL, raster data-URL, bare-base64 and path tests |
| ImageSource.SpanExact | src/widget-overlay.ts:127 | a run of exactly `n` class characters, followed by a character outside the class, has a maximal run of `n` |
| ImageSource.ClassifyReference | src/widget-overlay.ts:121-152 | never inline markup; a kept reference is the trimmed string itself, or `data:image/*;base64,` before a bare base64 payload longer than 100 characters; nothing is shown exactly when every test of the cascade fails |
| ImageSource.Resolve | src/widget-overlay.ts:96-153 | an absent or empty image shows nothing; inline markup is the SVG block of the trimmed text; a reference is given only when there is no SVG block, and is then the cascade's classification of the trimmed text |
| JsMath.MathMin | src/widget-overlay.ts:197 | `Math.min` of two numbers is one of them and no larger than either |
| JsMath.MathMax | src/widget-overlay.ts:275 | `Math.max` of two numbers is one of them and no smaller than either |
| Geometry.IntrinsicSizeAsWritten | src/widget-overlay.ts:166-190 | a raster image's size is its natural size; a vector layer has a size only with an inner `<svg>`; without a usable view box the size is the wrapper div's width/height attributes, as the code reads them |
| Geometry.IntrinsicSize | src/widget-overlay.ts:166-190 | the corrected reading: as above, but without a usable view box the size is the inner `<svg>` element's own width/height attributes |
| Geometry.Measurable | src/widget-overlay.ts:156-192 | the guards of `getModifier`: the base layer, its box and its parent's box exist, and neither intrinsic dimension as written is missing, `NaN` or 0 |
| Geometry.MeasurableCorrected | src/widget-overlay.ts:156-192 | the same guards over the corrected intrinsic size |
| Geometry.Fit | src/widget-overlay.ts:195-205 | the Modifier of an intrinsic size fitted into a box and centred in a container (its properties are `Geometry.FitIsContain`) |
| Geometry.LayerModifier | src/widget-overlay.ts:195-205 | the Modifier `getModifier` stores for a measurable base layer: the fit of the intrinsic size as written |
| Geometry.LayerModifierCorrected | src/widget-overlay.ts:195-205 | the fit of the corrected intrinsic size |
| Geometry.Position | src/widget-overlay.ts:208-213 | the pixel position of relative coordinates through a Modifier (its properties are the `Position` lemmas below) |
| Geometry.FitIsContain | src/widget-overlay.ts:195-205 | for a positive intrinsic size, the scale is the smaller of the two axis ratios; the visible area fits the base layer's box and touches it on one axis; the aspect ratio is kept; the area is centred in the container box |
| Geometry.FitScaleIsLargest | src/widget-overlay.ts:195-197 | no larger uniform scale fits the image into the base layer's box |
| Geometry.FitDependsOnAspectOnly | src/widget-overlay.ts:195-205 | multiplying the intrinsic size by `k` divides the scale by `k` and leaves the visible area and the offsets unchanged |
| Geometry.IntrinsicSizeVersionsAgree | src/widget-overlay.ts:166-190 | the code as written and the corrected reading agree for raster images, for a missing `<svg>`, and for a usable view box |
| Geometry.FallbackReadsWrapper | src/widget-overlay.ts:180-192 | an `<svg>` without a view box but with width/height attributes, in the wrapper the template renders, gets no intrinsic size as written, so `getModifier` returns at line 192; reading the `<svg>` gives its size, and the layer is measurable |
| Geometry.CorrectionKeepsOtherReadings | src/widget-overlay.ts:166-190 | for raster images, a missing `<svg>` or a usable view box, both readings accept the same base layers and give the same Modifier |
| Geometry.CorrectedFallbackReadsSvg | src/widget-overlay.ts:180-186 | the corrected fallback gives the `<svg>` element's own width/height, whatever the wrapper div carries |
| Geometry.PositionCorners | src/widget-overlay.ts:208-213 | (0,0) maps to the offsets and (1,1) to the offsets plus the visible size |
| Geometry.PositionIsAffine | src/widget-overlay.ts:208-213 | a change in relative coordinates moves the point by that change times the visible size |
| Geometry.PositionRoundTrip | src/widget-overlay.ts:208-213 | relative coordinates are recovered from the position when the visible area is not degenerate |
| Geometry.PositionInsideVisibleArea | src/widget-overlay.ts:208-213 | there is no clamping: a marker lies inside the visible area exactly when both relative coordinates are in [0,1] |
| Sections.FindIndex | src/widget-overlay.ts:227-228 | `findIndex(v <= limit)` returns the first index whose limit is at least `v`, and -1 exactly when every limit is below `v` |
| Sections.SectionColor | src/widget-overlay.ts:227-229 | the colour is `#333` or one of the configured colours, and `#333` for `NaN`; the same lookup serves progress bars (lines 254-258) |
| Sections.SectionColorByBucket | src/widget-overlay.ts:227-229 | for ascending limits, a value at or below the first limit gets `#333`, as does a value above every limit; a value in `(limits[k-1], limits[k]]` gets `colors[k-1]`, or `#333` when that colour is missing |
| Sections.SectionColorExamples | src/widget-overlay.ts:254-258 | with limits [10,20,30] and colours [A,B,C]: 5 gives `#333`, 15 gives A, 25 gives B, 35 gives `#333`; `NaN` and absent sections give `#333` |
| Sections.SeqMin | src/widget-overlay.ts:272 | `Math.min(...limits)` is one of the limits and no larger than any |
| Sections.SeqMax | src/widget-overlay.ts:273 | `Math.max(...limits)` is one of the limits and no smaller than any |
| Sections.Fraction | src/widget-overlay.ts:270-275 | the fraction is `NaN` exactly when the limits are empty, or when the value is `NaN` and the limits are not all equal |
| Sections.FractionInUnitInterval | src/widget-overlay.ts:270-275 | the fraction, when it is a number, is in [0,1]; it is `NaN` exactly when the limits are empty, or when the value is `NaN` and the range is not degenerate |
| Sections.FractionOfDegenerateRange | src/widget-overlay.ts:274 | when all limits are equal the fraction is 0, even for `NaN` |
| Sections.FractionShape | src/widget-overlay.ts:270-275 | on a proper range the fraction is 0 at or below the minimum, 1 at or above the maximum, and `(v-min)/(max-min)` in between |
| Sections.FractionPermutationInvariant | src/widget-overlay.ts:272-273 | reordering the limits does not change the fraction |
| Sections.FractionMonotone | src/widget-overlay.ts:270-275 | for non-empty limits, a numeric value always gives a fraction, and the fraction never decreases as the value grows |
| Sections.FractionExamples | src/widget-overlay.ts:270-275 | limits [0,100] give 0.5 for 50, 0 for -10 and 1 for 150; limits [5,5] give 0; empty limits give `NaN` |
| Render.RenderText | src/widget-overlay.ts:215-247 | a label that renders is a text marker with the item's title at the item's position; it shows a formatted number exactly when the value is a number and the precision is at least 0 |
| Render.RenderProgress | src/widget-overlay.ts:249-278 | a bar renders exactly when the overlay has sections, as a progress marker at the item's position |
| Render.RenderItem | src/widget-overlay.ts:44-49 | `renderMap` dispatch (line 295): the marker's kind matches the layer type; a type without a handler throws a TypeError |
| Render.RenderItems | src/widget-overlay.ts:291-297 | the layer succeeds exactly when every item's handler does; marker `i` is then item `i`'s marker, in input order; otherwise the first failing item's exception is the result |
| Render.RenderItemsAppend | src/widget-overlay.ts:291-297 | rendering a concatenation of item lists renders the first list, then the second, and stops at the first exception |
| Render.RenderLayer | src/widget-overlay.ts:288-297 | nothing without a Modifier; a layer that yields markers yields exactly one per item |
| Render.RenderAll | src/widget-overlay.ts:416-424 | the overlays render in order; the render succeeds exactly when no overlay's layer throws, with output `i` the layer of overlay `i`; otherwise the result is only the exception of the first throwing overlay in input order |
| Render.RenderAllWithoutModifier | src/widget-overlay.ts:416-424 | before the base layer is measured every overlay renders nothing and the render never fails |
| Render.RenderLayerNeedsModifier | src/widget-overlay.ts:289-290 | without a Modifier every layer renders nothing |
| Render.ProgressLayerMarkers | src/widget-overlay.ts:249-278 | a progress layer that has sections gives one progress marker per item, in order, each at the item's position with its section colour and its value's fraction |
| Render.StyleDefaults | src/widget-overlay.ts:234-264 | with no progress style, a bar is `10*scaler` by `100*scaler` pixels, unrotated, on `#fff`, at the item's position; with no font size, a label's font is `14*scaler` pixels |
| Render.ProgressLayerWithoutSections | src/widget-overlay.ts:270-272 | a progress layer without sections throws a TypeError once it has an item, and renders no markers otherwise |
| Render.TextThrowsExactly | src/widget-overlay.ts:220-234 | a label throws exactly when `textStyle` is missing (TypeError) or a number must be formatted at a precision of at least 101 (RangeError, and only then) |
| Render.TextUnformattedKeepsDefaultColor | src/widget-overlay.ts:220-231 | a label whose value is not a number, or whose precision is negative, shows the raw data in `#333` at the item's position |
| Render.TextFormattedNumber | src/widget-overlay.ts:224-229 | a numeric label with a precision from 0 to 100 shows the number to `floor(precision)` digits, coloured by the section of the unformatted number |
| Render.PlainLayerMarkers | src/widget-overlay.ts:280-286 | switch and HTML layers never throw and give one title/data marker per item, in order |
| Render.UnknownLayerThrows | src/widget-overlay.ts:44-49 | a `layerType` with no entry in `renderMap` throws a TypeError once the layer has an item |
| Render.LayerThrowsExactly | src/widget-overlay.ts:288-297 | a layer throws exactly when one of its items does, and then with the first such item's exception |
| Widget.WidgetImage.constructor | src/widget-overlay.ts:22-39 | a new element holds the input data and has no source and no Modifier |
| Widget.WidgetImage.Transform | src/widget-overlay.ts:96-153 | sets `inlineSvg` and `previewUrl` to what the classification of `inputData.image` yields, never both, and changes no other field |
| Widget.WidgetImage.GetModifier | src/widget-overlay.ts:155-206 | when every guard passes, with the intrinsic size read as the code is written, stores the contain fit of the base layer; otherwise leaves `modifier` as it was |
| Widget.WidgetImage.InputDataChanged | src/widget-overlay.ts:53-56 | re-classifies the image, and measures the base layer (with the intrinsic size as written) only while no Modifier is known |
| Widget.WidgetImage.RenderedLayers | src/widget-overlay.ts:416-424 | the overlays render with the current Modifier; a failed render carries an exception one overlay's layer throws, a successful one has one output per overlay; while no Modifier is known the render succeeds with nothing for every overlay |
| Widget.MeasuredMarkersInsideImage | src/widget-overlay.ts:195-213 | for a positive picture in a box of positive size, the stored visible area fits the box, and a marker lies inside it exactly when its relative position is in [0,1] |
| Widget.TankIsPath | src/widget-overlay.ts:141-146 | `./tank.png` has no SVG block and is kept as a relative path |
| Widget.TankFit | src/widget-overlay.ts:195-205 | a 100×100 picture in a 200×100 box measures to scale 1, offsets (50, 0) and visible size 100×100 |
| Widget.TankLayer | src/widget-overlay.ts:249-278 | a progress item at (0.5, 0.5) whose value is "50", with limits [0,100] and colour red, renders half full, red, 10×100 pixels, on `#fff`, at (100, 50) |

## Left out

- DOM measurement is not modelled: `getBoundingClientRect`, `parentElement`, `instanceof HTMLImageElement`, `querySelector('svg')`, `viewBox.baseVal`, `getAttribute` and `parseFloat`. Their results are the fields of `Geometry.BaseLayer`. An attribute that is missing or empty, or that `parseFloat` reads as `NaN`, is `None`. The `console.log(viewBox)` call at line 176 is logging only and is dropped.
- The lifecycle is not modelled: `firstUpdated`, the `ResizeObserver`, the `@load` hook, and the `theme` branch of `update`. They only decide when `getModifier` runs. The model keeps the `inputData` branch of `update` (`Widget.WidgetImage.InputDataChanged`).
- Render.RenderAll: the model does not capture the markers that overlays committed before the throwing one have already put on the page during a re-render, nor the earlier markers that later overlays keep showing. "First" means first in input order. That is the order in which `repeat` commits the overlays only while their layer names keep the order of the previous render.
- `getModifier` is `async`, but its body never awaits. The model runs it synchronously.
- `new URL(raw)` is a foreign parser. It is the parameter `isAbsoluteUrl`.
- `Number()` coercion is a foreign call. It is the parameter `num`, with `None` for `NaN`.
- Geometry.FitIsContain: the fit and position arithmetic is exact `real` arithmetic, while the code computes with IEEE doubles; the equalities of this lemma (touching one side, keeping the aspect ratio, centring), and those of the other `Fit` and `Position` lemmas, hold in the code only up to rounding.
- `toFixed` is a floating-point operation, so numbers are `real`. A formatted value is the symbolic `Render.FixedPoint(value, digits)` rather than a digit string.
- Infinite limits and infinite values are not modelled, for the same reason. Empty limits, where `Math.min()` and `Math.max()` are infinite, are modelled by their result: `NaN`.
- A `layerType` that names an inherited member of `Object.prototype` (such as `toString`) is treated like any other unknown name. The model ignores that such a property exists.
- The unreachable `if (!pos) return nothing` branches are dropped: the position object is always defined.
- `handleFileChange` is not modelled. It handles object-URL creation and revocation and dispatches an event; it is browser I/O, and the template never binds it.
- The dynamic `import('./linear-progress.js')` is not modelled. It has no effect on the element's state.
- `registerTheme` (`getComputedStyle`) is not modelled, nor are the theme colour fields. Both are browser styling.
- The lit template is not modelled: `html`, `styleMap`, `unsafeSVG`, CSS, and the title, subtitle and "No Image" markup. `repeat`'s keyed diffing by title and by layer name preserves output order, which the model keeps; its DOM reuse is not modelled.
- Sizes that are fixed in the template are not modelled: border radius, padding, transform origin and the −50% translation. They do not depend on an item's data.
- `src/widget-image.ts` is not part of this model. It is a templating-only element.
- `src/linear-progress.ts` is not part of this model. It only presents the bar.
- `vite.config.ts` is not part of this model. It is build configuration.
- `src/definition-schema.d.ts` is used only for the shape of the Modifier and of `sections`. Its overlay types are older than the code; the overlay and item datatypes follow how `src/widget-overlay.ts` uses them.
- There is no class invariant "never both sources". That holds after `Transform`, but `handleFileChange`, which is outside the model, can set `previewUrl` without clearing `inlineSvg`.

## Findings

| source | as written | input that shows it | evidently intended | confidence | as-written member | corrected member |
|---|---|---|---|---|---|---|
| src/widget-overlay.ts:182-183 | the width/height fallback reads `this.baseLayer.getAttribute(...)`, but for inline SVG `baseLayer` is the wrapper div (line 407), which never has those attributes | inline `<svg width="100" height="50">` with no `viewBox`: no intrinsic size is found, so no Modifier is computed and no overlay is ever shown | read the attributes of `innerSvg`, as the comment on line 181 says | not executed | Geometry.IntrinsicSizeAsWritten, Geometry.FallbackReadsWrapper | Geometry.IntrinsicSize, Geometry.CorrectedFallbackReadsSvg |
