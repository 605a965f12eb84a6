/** The coordinate transform: the base layer's intrinsic size, the
    "contain" fit of that size into the base layer's box (the Modifier),
    and the mapping of relative overlay coordinates through it. Numbers
    are reals; DOM readings are values supplied by the caller. */
module Geometry {
  import opened Wrappers
  import opened JsMath

  /** The width and height of a `getBoundingClientRect()` box. */
  datatype Rect = Rect(width: real, height: real)

  /** The derived transform: uniform scale, top-left of the visible image
      area relative to the container, and the visible size. */
  datatype Modifier = Modifier(scaler: real, xOffset: real, yOffset: real, visibleWidth: real, visibleHeight: real)

  /** Pixel coordinates of a marker relative to the container. */
  datatype Point = Point(left: real, top: real)

  /** `viewBox.baseVal` of an `<svg>` element. */
  datatype ViewBox = ViewBox(width: real, height: real)

  /** The `<svg>` element inside the vector base layer. An attribute is
      `None` when it is absent or empty, or when `parseFloat` reads it as
      `NaN`; otherwise its value is what `parseFloat` gives. */
  datatype SvgElement = SvgElement(viewBox: Option<ViewBox>, widthAttr: Option<real>, heightAttr: Option<real>)

  /** What `#base-layer` is: an `<img>` with its natural size, or the
      `<div class="svg-wrapper">` holding the inline markup, with the
      div's own `width`/`height` attributes and its first `<svg>`. */
  datatype LayerContent =
    | RasterImage(naturalWidth: real, naturalHeight: real)
    | VectorWrapper(widthAttr: Option<real>, heightAttr: Option<real>, innerSvg: Option<SvgElement>)

  /** The base layer's box, its parent's box, and its content; a missing
      box is `None`. */
  datatype BaseLayer = BaseLayer(rect: Option<Rect>, parentRect: Option<Rect>, content: LayerContent)

  /** The view box, when both of its dimensions are positive. */
  function UsableViewBox(svg: SvgElement): Option<(real, real)> {
    match svg.viewBox
    case Some(vb) => if vb.width > 0.0 && vb.height > 0.0 then Some((vb.width, vb.height)) else None
    case None => None
  }

  /** The intrinsic size read by lines 166-190 as written: the width/height
      fallback reads the wrapper div's attributes. */
  function IntrinsicSizeAsWritten(c: LayerContent): (r: Option<(real, real)>)
    ensures c.RasterImage? ==> r == Some((c.naturalWidth, c.naturalHeight))
    ensures c.VectorWrapper? && r.Some? ==> c.innerSvg.Some?
    ensures c.VectorWrapper? && r.Some? && UsableViewBox(c.innerSvg.value).None? ==>
              c.widthAttr.Some? && c.heightAttr.Some? && r == Some((c.widthAttr.value, c.heightAttr.value))
  {
    match c
    case RasterImage(w, h) => Some((w, h))
    case VectorWrapper(wa, ha, svg) =>
      if svg.None? then None
      else if UsableViewBox(svg.value).Some? then UsableViewBox(svg.value)
      else if wa.Some? && ha.Some? then Some((wa.value, ha.value))
      else None
  }

  /** The intrinsic size with the fallback reading the `<svg>` element's
      own `width`/`height`, as the code's comment describes. */
  function IntrinsicSize(c: LayerContent): (r: Option<(real, real)>)
    ensures c.RasterImage? ==> r == Some((c.naturalWidth, c.naturalHeight))
    ensures c.VectorWrapper? && r.Some? ==> c.innerSvg.Some?
    ensures c.VectorWrapper? && r.Some? && UsableViewBox(c.innerSvg.value).None? ==>
              var svg := c.innerSvg.value;
              svg.widthAttr.Some? && svg.heightAttr.Some? && r == Some((svg.widthAttr.value, svg.heightAttr.value))
  {
    match c
    case RasterImage(w, h) => Some((w, h))
    case VectorWrapper(_, _, svg) =>
      if svg.None? then None
      else if UsableViewBox(svg.value).Some? then UsableViewBox(svg.value)
      else if svg.value.widthAttr.Some? && svg.value.heightAttr.Some? then
        Some((svg.value.widthAttr.value, svg.value.heightAttr.value))
      else None
  }

  /** A size both of whose dimensions are present and non-zero. */
  predicate UsableSize(size: Option<(real, real)>) {
    size.Some? && size.value.0 != 0.0 && size.value.1 != 0.0
  }

  /** Every guard of `getModifier` as written passes: the base layer, its
      box and its parent's box exist, and neither intrinsic dimension read
      by lines 166-190 is zero or missing. */
  predicate Measurable(b: Option<BaseLayer>) {
    && b.Some? && b.value.rect.Some? && b.value.parentRect.Some?
    && UsableSize(IntrinsicSizeAsWritten(b.value.content))
  }

  /** The same guards with the corrected fallback of `IntrinsicSize`. */
  predicate MeasurableCorrected(b: Option<BaseLayer>) {
    && b.Some? && b.value.rect.Some? && b.value.parentRect.Some?
    && UsableSize(IntrinsicSize(b.value.content))
  }

  /** The contain fit of an `iw` by `ih` image: the scale comes from the
      base layer's box `rect`, the centring from the container `container`. */
  function Fit(iw: real, ih: real, rect: Rect, container: Rect): Modifier
    requires iw != 0.0 && ih != 0.0
  {
    var scale := MathMin(rect.width / iw, rect.height / ih);
    var visibleWidth := iw * scale;
    var visibleHeight := ih * scale;
    Modifier(scale, (container.width - visibleWidth) / 2.0, (container.height - visibleHeight) / 2.0,
             visibleWidth, visibleHeight)
  }

  /** The Modifier `getModifier` as written stores for a measurable base
      layer. */
  function LayerModifier(b: BaseLayer): Modifier
    requires Measurable(Some(b))
  {
    var size := IntrinsicSizeAsWritten(b.content).value;
    Fit(size.0, size.1, b.rect.value, b.parentRect.value)
  }

  /** The Modifier with the corrected fallback of `IntrinsicSize`. */
  function LayerModifierCorrected(b: BaseLayer): Modifier
    requires MeasurableCorrected(Some(b))
  {
    var size := IntrinsicSize(b.content).value;
    Fit(size.0, size.1, b.rect.value, b.parentRect.value)
  }

  /** `getOverlayItemPosition`: an affine map, not clamped. */
  function Position(relX: real, relY: real, m: Modifier): Point {
    Point(m.xOffset + relX * m.visibleWidth, m.yOffset + relY * m.visibleHeight)
  }

  /** The inverse of `Position`: the relative coordinates of a point. */
  function RelativePosition(p: Point, m: Modifier): (real, real)
    requires m.visibleWidth != 0.0 && m.visibleHeight != 0.0
  {
    ((p.left - m.xOffset) / m.visibleWidth, (p.top - m.yOffset) / m.visibleHeight)
  }

  /** The fit is a contain fit: the visible area lies within the base
      layer's box and touches it on one axis, keeps the aspect ratio, uses
      the smaller of the two axis scales and is centred in the container. */
  lemma FitIsContain(iw: real, ih: real, rect: Rect, container: Rect)
    requires iw > 0.0 && ih > 0.0 && rect.width >= 0.0 && rect.height >= 0.0
    ensures var m := Fit(iw, ih, rect, container);
      && m.scaler == MathMin(rect.width / iw, rect.height / ih) && m.scaler >= 0.0
      && m.visibleWidth <= rect.width && m.visibleHeight <= rect.height
      && (m.visibleWidth == rect.width || m.visibleHeight == rect.height)
      && m.visibleWidth * ih == m.visibleHeight * iw
      && m.xOffset + m.visibleWidth / 2.0 == container.width / 2.0
      && m.yOffset + m.visibleHeight / 2.0 == container.height / 2.0
  {
    var sx, sy := rect.width / iw, rect.height / ih;
    var m := Fit(iw, ih, rect, container);
    assert iw * sx == rect.width && ih * sy == rect.height;
    if sx <= sy {
      assert m.scaler == sx;
      assert ih * sx <= ih * sy by { MulMonotone(ih, sx, sy); }
    } else {
      assert m.scaler == sy;
      assert iw * sy <= iw * sx by { MulMonotone(iw, sy, sx); }
    }
    assert m.visibleWidth * ih == m.visibleHeight * iw by {
      assert m.visibleWidth * ih == iw * m.scaler * ih;
      assert m.visibleHeight * iw == ih * m.scaler * iw;
    }
  }

  /** No larger uniform scale fits the image into the base layer's box. */
  lemma FitScaleIsLargest(iw: real, ih: real, rect: Rect, container: Rect, s: real)
    requires iw > 0.0 && ih > 0.0
    requires iw * s <= rect.width && ih * s <= rect.height
    ensures s <= Fit(iw, ih, rect, container).scaler
  {
    DivBound(s, iw, rect.width);
    DivBound(s, ih, rect.height);
  }

  /** Only the aspect ratio of the intrinsic size matters: scaling it by `k`
      divides the scale by `k` and leaves the visible area where it was. */
  lemma FitDependsOnAspectOnly(iw: real, ih: real, k: real, rect: Rect, container: Rect)
    requires iw != 0.0 && ih != 0.0 && k > 0.0
    ensures var m, m' := Fit(iw, ih, rect, container), Fit(k * iw, k * ih, rect, container);
      && m'.scaler == m.scaler / k
      && m'.visibleWidth == m.visibleWidth && m'.visibleHeight == m.visibleHeight
      && m'.xOffset == m.xOffset && m'.yOffset == m.yOffset
  {
    var sx, sy := rect.width / iw, rect.height / ih;
    assert rect.width / (k * iw) == sx / k;
    assert rect.height / (k * ih) == sy / k;
    var s := MathMin(sx, sy);
    assert MathMin(sx / k, sy / k) == s / k by {
      if sx <= sy { DivMonotone(sx, sy, k); } else { DivMonotone(sy, sx, k); }
    }
    assert k * iw * (s / k) == iw * s;
    assert k * ih * (s / k) == ih * s;
  }

  /** The raster and view-box readings are the same in both versions; they
      differ only in where the width/height fallback looks. */
  lemma IntrinsicSizeVersionsAgree(c: LayerContent)
    requires c.RasterImage? || c.innerSvg.None? || UsableViewBox(c.innerSvg.value).Some?
    ensures IntrinsicSizeAsWritten(c) == IntrinsicSize(c)
  {
  }

  /** Only the width/height fallback is affected by the correction: for
      a raster image, a missing `<svg>` or a usable view box, both versions
      accept the same base layers and store the same Modifier. */
  lemma CorrectionKeepsOtherReadings(b: BaseLayer)
    requires b.content.RasterImage? || b.content.innerSvg.None? || UsableViewBox(b.content.innerSvg.value).Some?
    ensures Measurable(Some(b)) <==> MeasurableCorrected(Some(b))
    ensures Measurable(Some(b)) ==> LayerModifier(b) == LayerModifierCorrected(b)
  {
    IntrinsicSizeVersionsAgree(b.content);
  }

  /** The corrected fallback reads the `<svg>` element's own attributes,
      whatever the wrapper div carries: an `<svg>` without a usable view box
      but with both attributes has exactly that size. */
  lemma CorrectedFallbackReadsSvg(wa: Option<real>, ha: Option<real>, svg: SvgElement)
    requires UsableViewBox(svg).None? && svg.widthAttr.Some? && svg.heightAttr.Some?
    ensures IntrinsicSize(VectorWrapper(wa, ha, Some(svg))) == Some((svg.widthAttr.value, svg.heightAttr.value))
    ensures IntrinsicSize(VectorWrapper(wa, ha, Some(svg))) == IntrinsicSize(VectorWrapper(None, None, Some(svg)))
  {
  }

  /** An inline SVG without a view box but with `width="100" height="50"`,
      inside the wrapper div the template renders (which carries no such
      attributes): as written there is no intrinsic size, so the guards
      fail and no Modifier is ever computed; reading the `<svg>` element
      gives 100 by 50 and a measurable base layer. */
  lemma FallbackReadsWrapper()
    ensures var c := VectorWrapper(None, None, Some(SvgElement(None, Some(100.0), Some(50.0))));
      var b := BaseLayer(Some(Rect(200.0, 100.0)), Some(Rect(200.0, 100.0)), c);
      && IntrinsicSizeAsWritten(c) == None
      && IntrinsicSize(c) == Some((100.0, 50.0))
      && !Measurable(Some(b))
      && MeasurableCorrected(Some(b))
  {
  }

  /** The corners of the visible area: (0,0) is at the offsets and (1,1) at
      the offsets plus the visible size. */
  lemma PositionCorners(m: Modifier)
    ensures Position(0.0, 0.0, m) == Point(m.xOffset, m.yOffset)
    ensures Position(1.0, 1.0, m) == Point(m.xOffset + m.visibleWidth, m.yOffset + m.visibleHeight)
  {
  }

  /** Positioning is affine: a move in relative coordinates is that move
      times the visible size, wherever it starts. */
  lemma PositionIsAffine(m: Modifier, x1: real, y1: real, x2: real, y2: real)
    ensures Position(x2, y2, m).left - Position(x1, y1, m).left == (x2 - x1) * m.visibleWidth
    ensures Position(x2, y2, m).top - Position(x1, y1, m).top == (y2 - y1) * m.visibleHeight
  {
    assert x2 * m.visibleWidth - x1 * m.visibleWidth == (x2 - x1) * m.visibleWidth;
    assert y2 * m.visibleHeight - y1 * m.visibleHeight == (y2 - y1) * m.visibleHeight;
  }

  /** Relative coordinates are recovered from a position. */
  lemma PositionRoundTrip(relX: real, relY: real, m: Modifier)
    requires m.visibleWidth != 0.0 && m.visibleHeight != 0.0
    ensures RelativePosition(Position(relX, relY, m), m) == (relX, relY)
  {
    var p := Position(relX, relY, m);
    assert (p.left - m.xOffset) / m.visibleWidth == relX;
    assert (p.top - m.yOffset) / m.visibleHeight == relY;
  }

  /** No clamping: a marker lies inside the visible area exactly when its
      relative coordinates are in [0,1]. */
  lemma PositionInsideVisibleArea(relX: real, relY: real, m: Modifier)
    requires m.visibleWidth > 0.0 && m.visibleHeight > 0.0
    ensures var p := Position(relX, relY, m);
      (m.xOffset <= p.left <= m.xOffset + m.visibleWidth && m.yOffset <= p.top <= m.yOffset + m.visibleHeight)
      <==> (0.0 <= relX <= 1.0 && 0.0 <= relY <= 1.0)
  {
    var p := Position(relX, relY, m);
    assert p.left == m.xOffset + relX * m.visibleWidth && p.top == m.yOffset + relY * m.visibleHeight;
    AxisInside(m.xOffset, relX, m.visibleWidth);
    AxisInside(m.yOffset, relY, m.visibleHeight);
  }

  /** One axis of `PositionInsideVisibleArea`. */
  lemma AxisInside(offset: real, t: real, w: real)
    requires w > 0.0
    ensures (offset <= offset + t * w <= offset + w) <==> (0.0 <= t <= 1.0)
  {
    if t < 0.0 {
      assert t * w < 0.0;
    } else if t > 1.0 {
      assert (t - 1.0) * w > 0.0;
    } else {
      assert (1.0 - t) * w >= 0.0;
    }
  }

  lemma MulMonotone(c: real, a: real, b: real)
    requires c >= 0.0 && a <= b
    ensures c * a <= c * b
  {
  }

  lemma DivMonotone(a: real, b: real, k: real)
    requires k > 0.0 && a <= b
    ensures a / k <= b / k
  {
  }

  lemma DivBound(s: real, d: real, w: real)
    requires d > 0.0 && d * s <= w
    ensures s <= w / d
  {
    assert s == (d * s) / d;
  }
}
