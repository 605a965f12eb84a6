/** The `WidgetImage` element: the state `transform` and `getModifier`
    update, and the layers it renders from that state. */
module Widget {
  import opened Wrappers
  import opened Text
  import opened ImageSource
  import opened Geometry
  import opened Sections
  import opened Render
  import opened JsMath

  /** The element's `inputData`. */
  datatype InputData = InputData(title: Option<string>, subTitle: Option<string>, image: Option<string>,
                                 overlays: Option<seq<Overlay>>)

  class WidgetImage {
    var inputData: Option<InputData>
    var previewUrl: Option<string>
    var inlineSvg: Option<string>
    var modifier: Option<Modifier>

    /** A new element: nothing resolved, nothing measured. */
    constructor (data: Option<InputData>)
      ensures inputData == data && previewUrl == None && inlineSvg == None && modifier == None
    {
      inputData := data;
      previewUrl := None;
      inlineSvg := None;
      modifier := None;
    }

    /** `this.inputData?.image`. */
    function Image(): Option<string>
      reads this
    {
      if inputData.Some? then inputData.value.image else None
    }

    /** At most one of the two display fields holds something. */
    predicate ShowsAtMostOneSource()
      reads this
    {
      inlineSvg == None || previewUrl == None
    }

    /** `transform`: classifies `inputData.image` and sets `inlineSvg` and
        `previewUrl`, first match wins. `isAbsoluteUrl(s)` stands for
        "`new URL(s)` does not throw". */
    method Transform(isAbsoluteUrl: string -> bool)
      modifies this`inlineSvg, this`previewUrl
      ensures inlineSvg == Resolve(Image(), isAbsoluteUrl).InlineMarkup()
      ensures previewUrl == Resolve(Image(), isAbsoluteUrl).PreviewUrl()
      ensures ShowsAtMostOneSource()
    {
      inlineSvg := None;
      var image := Image();
      if image.None? || image.value == "" {
        previewUrl := None;
        return;
      }
      var raw := Trim(image.value);
      var trimmed := TrimStart(StripBom(raw));
      var svgBlockMatch := SvgMatch(trimmed);
      if svgBlockMatch.Some? {
        inlineSvg := Some(Trim(trimmed[svgBlockMatch.value.0..svgBlockMatch.value.1]));
        previewUrl := None;
        return;
      }
      if IsSvgDataUrl(raw) {
        previewUrl := Some(raw);
        return;
      }
      if IsRasterDataUrl(raw) {
        previewUrl := Some(raw);
        return;
      }
      if IsBareBase64(raw) && |raw| > 100 {
        previewUrl := Some(GenericImagePrefix + raw);
        return;
      }
      if isAbsoluteUrl(raw) {
        previewUrl := Some(raw);
        return;
      }
      if IsPathLike(raw) {
        previewUrl := Some(raw);
        return;
      }
      previewUrl := None;
    }

    /** `getModifier`: measures the rendered base layer and stores the
        contain fit of the image in it; any failed guard leaves the
        previous Modifier in place. */
    method GetModifier(baseLayer: Option<BaseLayer>)
      modifies this`modifier
      ensures Measurable(baseLayer) ==> modifier == Some(LayerModifier(baseLayer.value))
      ensures !Measurable(baseLayer) ==> modifier == old(modifier)
    {
      if baseLayer.None? { return; }
      var layer := baseLayer.value;
      if layer.rect.None? { return; }
      var rect := layer.rect.value;
      if layer.parentRect.None? { return; }
      var containerRect := layer.parentRect.value;

      // lines 166-190: the image's natural size, or the inner <svg>'s view box,
      // or else the wrapper div's width/height attributes
      var intrinsic := IntrinsicSizeAsWritten(layer.content);
      if intrinsic.None? || intrinsic.value.0 == 0.0 || intrinsic.value.1 == 0.0 {
        return;
      }
      var iw, ih := intrinsic.value.0, intrinsic.value.1;

      var scaleX := rect.width / iw;
      var scaleY := rect.height / ih;
      var scale := MathMin(scaleX, scaleY);
      var visibleWidth := iw * scale;
      var visibleHeight := ih * scale;
      var xOffset := (containerRect.width - visibleWidth) / 2.0;
      var yOffset := (containerRect.height - visibleHeight) / 2.0;
      assert Measurable(baseLayer);
      assert Modifier(scale, xOffset, yOffset, visibleWidth, visibleHeight) == Fit(iw, ih, rect, containerRect);
      modifier := Some(Modifier(scale, xOffset, yOffset, visibleWidth, visibleHeight));
    }

    /** The `inputData` branch of `update`: the image is classified again,
        and the base layer is measured only while no Modifier is known. */
    method InputDataChanged(isAbsoluteUrl: string -> bool, baseLayer: Option<BaseLayer>)
      modifies this`inlineSvg, this`previewUrl, this`modifier
      ensures inlineSvg == Resolve(Image(), isAbsoluteUrl).InlineMarkup()
      ensures previewUrl == Resolve(Image(), isAbsoluteUrl).PreviewUrl()
      ensures modifier == if old(modifier) == None && Measurable(baseLayer) then Some(LayerModifier(baseLayer.value))
                          else old(modifier)
    {
      Transform(isAbsoluteUrl);
      if modifier == None {
        GetModifier(baseLayer);
      }
    }

    /** `this.inputData?.overlays ?? []`. */
    function Overlays(): seq<Overlay>
      reads this
    {
      if inputData.Some? then inputData.value.overlays.GetOr([]) else []
    }

    /** The overlay part of `render`: `renderLayer` of every overlay, in
        order, with the current Modifier; the first exception aborts it. */
    function RenderedLayers(num: string -> Option<real>): (r: Result<seq<LayerOutput>, JsError>)
      reads this
      ensures r.Success? ==> |r.value| == |Overlays()|
      ensures r.Failure? ==> exists i :: 0 <= i < |Overlays()| && RenderLayer(Overlays()[i], modifier, num) == Thrown(r.error)
      ensures modifier == None ==> r == Success(seq(|Overlays()|, i => Nothing))
    {
      RenderAllWithoutModifier(Overlays(), num);
      RenderAll(Overlays(), modifier, num)
    }
  }

  /** For a positive image in a box of positive size, a marker stored with
      the measured Modifier lands inside the visible image area exactly
      when its relative position is in [0,1], and that area fits the box. */
  lemma MeasuredMarkersInsideImage(b: BaseLayer, relX: real, relY: real)
    requires Measurable(Some(b))
    requires b.rect.value.width > 0.0 && b.rect.value.height > 0.0
    requires IntrinsicSizeAsWritten(b.content).value.0 > 0.0 && IntrinsicSizeAsWritten(b.content).value.1 > 0.0
    ensures var m, p := LayerModifier(b), Position(relX, relY, LayerModifier(b));
      && m.visibleWidth <= b.rect.value.width && m.visibleHeight <= b.rect.value.height
      && ((m.xOffset <= p.left <= m.xOffset + m.visibleWidth && m.yOffset <= p.top <= m.yOffset + m.visibleHeight)
          <==> (0.0 <= relX <= 1.0 && 0.0 <= relY <= 1.0))
  {
    var size := IntrinsicSizeAsWritten(b.content).value;
    var m := LayerModifier(b);
    FitIsContain(size.0, size.1, b.rect.value, b.parentRect.value);
    assert m.scaler > 0.0 by {
      assert b.rect.value.width / size.0 > 0.0 && b.rect.value.height / size.1 > 0.0;
    }
    assert m.visibleWidth > 0.0 && m.visibleHeight > 0.0 by {
      assert m.visibleWidth == size.0 * m.scaler && m.visibleHeight == size.1 * m.scaler;
    }
    PositionInsideVisibleArea(relX, relY, m);
  }

  /** A worked scene: a 100 by 100 image referenced by a
      relative path, shown in a 200 by 100 box, with one progress item at
      the centre holding "50" and limits [0,100]. */
  const TankImage: string := "./tank.png"
  const TankBase: BaseLayer := BaseLayer(Some(Rect(200.0, 100.0)), Some(Rect(200.0, 100.0)), RasterImage(100.0, 100.0))
  const TankFill: Modifier := Modifier(1.0, 50.0, 0.0, 100.0, 100.0)
  const TankOverlay: Overlay := Overlay("level", Progress, Some([OverlayItem("fill", 0.5, 0.5, "50")]), None, None,
                                        Some(Sections([0.0, 100.0], ["red"])))
  const TankMarker: Marker := ProgressMarker(Some(0.5), "red", 10.0, 100.0, 0.0, "#fff", Point(100.0, 50.0))

  /** `./tank.png` has no SVG block and is a path. */
  lemma TankIsPath(isAbsoluteUrl: string -> bool)
    ensures Resolve(Some(TankImage), isAbsoluteUrl) == Reference(TankImage)
  {
    var s := TankImage;
    TrimOfSolidEnds(s);
    assert SvgSearchText(s) == s by {
      assert StripBom(s) == s;
      assert TrimStart(s) == s;
    }
    NoSvgWithoutAngle(s);
    assert SvgBlock(s) == None;
    ResolveOfBlock(s, isAbsoluteUrl);
    assert !IsSvgDataUrl(s) && !IsRasterDataUrl(s) && IsPathLike(s);
  }

  /** The scene's base layer measures to a unit scale, centred
      horizontally. */
  lemma TankFit()
    ensures Measurable(Some(TankBase)) && LayerModifier(TankBase) == TankFill
  {
  }

  /** The scene's progress item: half full, red, at the centre. */
  lemma TankLayer(num: string -> Option<real>)
    requires num("50") == Some(50.0)
    ensures RenderLayer(TankOverlay, Some(TankFill), num) == Markers([TankMarker])
  {
    assert SeqMin([0.0, 100.0]) == 0.0;
    assert SeqMax([0.0, 100.0]) == 100.0;
    assert FindIndex([0.0, 100.0], 50.0) == 1;
  }

}
