/** Layer dispatch: each overlay item, in input order, becomes an abstract
    marker record through the handler its layer type selects (`renderMap`),
    carrying the position, colour, fraction and scaled sizes the template
    would render. An exception a handler raises is a result of its own. */
module Render {
  import opened Wrappers
  import opened Geometry
  import opened Sections

  /** `layerType`; any other string finds no handler in `renderMap`. */
  datatype LayerType = Progress | Text | Switch | Html | Unknown(name: string)

  datatype OverlayItem = OverlayItem(title: string, relXPos: real, relYPos: real, data: string)

  datatype TextStyle = TextStyle(fontSize: Option<real>, fontWeight: Option<real>, precision: Option<real>,
                                 backgroundColor: Option<string>)

  datatype ProgressStyle = ProgressStyle(width: Option<real>, height: Option<real>, rotate: Option<real>,
                                         backgroundColor: Option<string>)

  datatype Overlay = Overlay(layerName: string, layerType: LayerType, items: Option<seq<OverlayItem>>,
                             textStyle: Option<TextStyle>, progressStyle: Option<ProgressStyle>,
                             sections: Option<Sections>)

  /** The exceptions a handler can raise. */
  datatype JsError = TypeError | RangeError

  /** The value text of a label: the raw data, or the number formatted by
      `toFixed(digits)`. */
  datatype ShownValue = RawData(data: string) | FixedPoint(value: real, digits: nat)

  /** What a handler renders for one item. Sizes are in pixels, already
      multiplied by the Modifier's `scaler`; `fraction` `None` is `NaN`. */
  datatype Marker =
    | TextMarker(title: string, shown: ShownValue, color: string, fontSize: real,
                 fontWeight: Option<real>, labelBackground: Option<string>, at: Point)
    | ProgressMarker(fraction: Option<real>, color: string, width: real, height: real,
                     rotate: real, trackBackground: string, at: Point)
    | PlainMarker(title: string, data: string)

  /** What `renderLayer` produces: `nothing`, the markers of the items, or an
      exception. */
  datatype LayerOutput = Nothing | Markers(markers: seq<Marker>) | Thrown(error: JsError)

  const DefaultPrecision: real := 1.0
  const DefaultFontSize: real := 14.0
  const DefaultProgressWidth: real := 10.0
  const DefaultProgressHeight: real := 100.0
  const DefaultRotation: real := 0.0
  const DefaultProgressBackground: string := "#fff"
  /** `toFixed` refuses more fraction digits than this. */
  const MaxFixedDigits: real := 100.0

  /** `overlay.textStyle?.precision ?? 1`. */
  function Precision(o: Overlay): real {
    if o.textStyle.Some? then o.textStyle.value.precision.GetOr(DefaultPrecision) else DefaultPrecision
  }

  /** `renderText`: `num` is `Number`, with `None` for `NaN`. A number is
      formatted, and only then coloured by the sections, when the precision
      is at least 0; `toFixed` throws for a precision of at least 101 (it
      drops the fraction part first and accepts at most 100 digits), and a
      missing `textStyle` throws when the font size is read. */
  function RenderText(o: Overlay, item: OverlayItem, m: Modifier, num: string -> Option<real>): (r: Result<Marker, JsError>)
    ensures r.Success? ==> r.value.TextMarker? && r.value.title == item.title
    ensures r.Success? ==> r.value.at == Position(item.relXPos, item.relYPos, m)
    ensures r.Success? ==> (r.value.shown.FixedPoint? <==> num(item.data).Some? && Precision(o) >= 0.0)
  {
    var n := num(item.data);
    var precision := Precision(o);
    if n.Some? && precision >= MaxFixedDigits + 1.0 then Failure(RangeError)
    else if o.textStyle.None? then Failure(TypeError)
    else
      var formats := n.Some? && precision >= 0.0;
      var shown := if formats then FixedPoint(n.value, precision.Floor as nat) else RawData(item.data);
      var color := if formats then SectionColor(o.sections, n) else DefaultColor;
      var style := o.textStyle.value;
      Success(TextMarker(item.title, shown, color, style.fontSize.GetOr(DefaultFontSize) * m.scaler,
                         style.fontWeight, style.backgroundColor, Position(item.relXPos, item.relYPos, m)))
  }

  /** `renderProgress`: the section colour and the fraction of the value;
      an absent `sections` throws when its limits are read. */
  function RenderProgress(o: Overlay, item: OverlayItem, m: Modifier, num: string -> Option<real>): (r: Result<Marker, JsError>)
    ensures r.Success? <==> o.sections.Some?
    ensures r.Success? ==> r.value.ProgressMarker? && r.value.at == Position(item.relXPos, item.relYPos, m)
  {
    var n := num(item.data);
    if o.sections.None? then Failure(TypeError)
    else
      var style := o.progressStyle.GetOr(ProgressStyle(None, None, None, None));
      Success(ProgressMarker(Fraction(o.sections.value.sectionLimits, n), SectionColor(o.sections, n),
                             style.width.GetOr(DefaultProgressWidth) * m.scaler,
                             style.height.GetOr(DefaultProgressHeight) * m.scaler,
                             style.rotate.GetOr(DefaultRotation),
                             style.backgroundColor.GetOr(DefaultProgressBackground),
                             Position(item.relXPos, item.relYPos, m)))
  }

  /** `this.renderMap[overlay.layerType](overlay, item, modifier)`. */
  function RenderItem(o: Overlay, item: OverlayItem, m: Modifier, num: string -> Option<real>): (r: Result<Marker, JsError>)
    ensures r.Success? ==> (r.value.ProgressMarker? <==> o.layerType.Progress?)
    ensures r.Success? ==> (r.value.TextMarker? <==> o.layerType.Text?)
    ensures r.Success? ==> (r.value.PlainMarker? <==> o.layerType.Switch? || o.layerType.Html?)
    ensures o.layerType.Unknown? ==> r == Failure(TypeError)
  {
    match o.layerType
    case Progress => RenderProgress(o, item, m, num)
    case Text => RenderText(o, item, m, num)
    case Switch => Success(PlainMarker(item.title, item.data))
    case Html => Success(PlainMarker(item.title, item.data))
    case Unknown(_) => Failure(TypeError)
  }

  /** Item `i` is the first one whose handler throws. */
  predicate FirstFailure(o: Overlay, items: seq<OverlayItem>, m: Modifier, num: string -> Option<real>, i: int) {
    && 0 <= i < |items| && RenderItem(o, items[i], m, num).Failure?
    && forall j :: 0 <= j < i ==> RenderItem(o, items[j], m, num).Success?
  }

  /** The handler applied to every item in order; the first exception stops it. */
  function RenderItems(o: Overlay, items: seq<OverlayItem>, m: Modifier, num: string -> Option<real>): (r: Result<seq<Marker>, JsError>)
    ensures r.Success? <==> forall i :: 0 <= i < |items| ==> RenderItem(o, items[i], m, num).Success?
    ensures r.Success? ==> |r.value| == |items|
    ensures r.Success? ==> forall i :: 0 <= i < |items| ==> r.value[i] == RenderItem(o, items[i], m, num).value
    ensures r.Failure? ==> exists i :: FirstFailure(o, items, m, num, i) && r.error == RenderItem(o, items[i], m, num).error
  {
    if items == [] then Success([])
    else
      match RenderItem(o, items[0], m, num)
      case Failure(e) =>
        assert FirstFailure(o, items, m, num, 0);
        Failure(e)
      case Success(first) =>
        match RenderItems(o, items[1..], m, num)
        case Failure(e) =>
          var i :| FirstFailure(o, items[1..], m, num, i) && e == RenderItem(o, items[1..][i], m, num).error;
          assert FirstFailure(o, items, m, num, i + 1);
          Failure(e)
        case Success(rest) => Success([first] + rest)
  }

  /** `renderLayer`: nothing without a Modifier, otherwise the items (none
      when `items` is absent) through the layer's handler. */
  function RenderLayer(o: Overlay, modifier: Option<Modifier>, num: string -> Option<real>): (r: LayerOutput)
    ensures modifier.None? ==> r == Nothing
    ensures r.Markers? ==> |r.markers| == |o.items.GetOr([])|
  {
    if modifier.None? then Nothing
    else
      match RenderItems(o, o.items.GetOr([]), modifier.value, num)
      case Success(ms) => Markers(ms)
      case Failure(e) => Thrown(e)
  }

  /** Overlay `i` is the first of `os` whose layer throws. */
  predicate FirstThrow(os: seq<Overlay>, modifier: Option<Modifier>, num: string -> Option<real>, i: int) {
    && 0 <= i < |os| && RenderLayer(os[i], modifier, num).Thrown?
    && forall j :: 0 <= j < i ==> !RenderLayer(os[j], modifier, num).Thrown?
  }

  /** The overlay part of `render`: every overlay's layer in order; an
      exception thrown while rendering one overlay escapes `render`, and
      the result is then only the first such error in input order. */
  function RenderAll(os: seq<Overlay>, modifier: Option<Modifier>, num: string -> Option<real>): (r: Result<seq<LayerOutput>, JsError>)
    ensures r.Success? <==> forall i :: 0 <= i < |os| ==> !RenderLayer(os[i], modifier, num).Thrown?
    ensures r.Success? ==> |r.value| == |os|
    ensures r.Success? ==> forall i :: 0 <= i < |os| ==> r.value[i] == RenderLayer(os[i], modifier, num)
    ensures r.Failure? ==> exists i :: FirstThrow(os, modifier, num, i) && Thrown(r.error) == RenderLayer(os[i], modifier, num)
  {
    if os == [] then Success([])
    else
      var first := RenderLayer(os[0], modifier, num);
      if first.Thrown? then
        assert FirstThrow(os, modifier, num, 0);
        Failure(first.error)
      else
        match RenderAll(os[1..], modifier, num)
        case Failure(e) =>
          var i :| FirstThrow(os[1..], modifier, num, i) && Thrown(e) == RenderLayer(os[1..][i], modifier, num);
          assert FirstThrow(os, modifier, num, i + 1);
          Failure(e)
        case Success(rest) => Success([first] + rest)
  }

  /** Before the base layer is measured every overlay renders nothing, so
      the render never fails. */
  lemma {:induction false} RenderAllWithoutModifier(os: seq<Overlay>, num: string -> Option<real>)
    ensures RenderAll(os, None, num) == Success(seq(|os|, i => Nothing))
  {
    if os != [] {
      RenderAllWithoutModifier(os[1..], num);
      assert RenderLayer(os[0], None, num) == Nothing;
      assert RenderAll(os, None, num) == Success([Nothing] + seq(|os| - 1, i => Nothing));
      assert seq(|os|, i => Nothing) == [Nothing] + seq(|os| - 1, i => Nothing);
    } else {
      assert seq(|os|, i => Nothing) == [];
    }
  }

  /** Rendering a concatenation renders the parts one after the other. */
  lemma {:induction false} RenderItemsAppend(o: Overlay, a: seq<OverlayItem>, b: seq<OverlayItem>, m: Modifier,
                                             num: string -> Option<real>)
    ensures RenderItems(o, a + b, m, num) ==
      match RenderItems(o, a, m, num)
      case Failure(e) => Failure(e)
      case Success(x) =>
        match RenderItems(o, b, m, num)
        case Failure(e) => Failure(e)
        case Success(y) => Success(x + y)
  {
    if a != [] {
      assert (a + b)[0] == a[0];
      assert (a + b)[1..] == a[1..] + b;
      RenderItemsAppend(o, a[1..], b, m, num);
      match RenderItems(o, a[1..], m, num)
      case Failure(_) =>
      case Success(x) =>
        match RenderItems(o, b, m, num)
        case Failure(_) =>
        case Success(y) =>
          match RenderItem(o, a[0], m, num)
          case Failure(_) =>
          case Success(f) => assert [f] + (x + y) == ([f] + x) + y;
    } else {
      assert a + b == b;
      match RenderItems(o, b, m, num)
      case Failure(_) =>
      case Success(y) => assert [] + y == y;
    }
  }

  /** Without a Modifier no layer shows anything. */
  lemma RenderLayerNeedsModifier(o: Overlay, num: string -> Option<real>)
    ensures RenderLayer(o, None, num) == Nothing
  {
  }

  /** A progress layer with sections renders one marker per item, in input
      order, at the item's position, with the section colour and the
      fraction of the item's value. */
  lemma ProgressLayerMarkers(o: Overlay, m: Modifier, num: string -> Option<real>)
    requires o.layerType == Progress && o.sections.Some?
    ensures var items := o.items.GetOr([]);
      && RenderLayer(o, Some(m), num).Markers?
      && |RenderLayer(o, Some(m), num).markers| == |items|
      && forall i :: 0 <= i < |items| ==>
        var mk, n := RenderLayer(o, Some(m), num).markers[i], num(items[i].data);
        && mk.ProgressMarker?
        && mk.at == Position(items[i].relXPos, items[i].relYPos, m)
        && mk.color == SectionColor(o.sections, n)
        && mk.fraction == Fraction(o.sections.value.sectionLimits, n)
  {
  }

  /** Without style settings a progress bar is 10 by 100 pixels before
      scaling, upright, on white; a label's font is 14 pixels before scaling. */
  lemma StyleDefaults(o: Overlay, item: OverlayItem, m: Modifier, num: string -> Option<real>)
    ensures var r := RenderProgress(o, item, m, num);
      o.sections.Some? && o.progressStyle.None? ==>
        r == Success(ProgressMarker(r.value.fraction, r.value.color, 10.0 * m.scaler, 100.0 * m.scaler, 0.0,
                                    "#fff", Position(item.relXPos, item.relYPos, m)))
    ensures var r := RenderText(o, item, m, num);
      r.Success? && o.textStyle.value.fontSize.None? ==> r.value.fontSize == 14.0 * m.scaler
  {
  }

  /** A progress layer without sections throws as soon as it has an item. */
  lemma ProgressLayerWithoutSections(o: Overlay, m: Modifier, num: string -> Option<real>)
    requires o.layerType == Progress && o.sections.None?
    ensures RenderLayer(o, Some(m), num) == if o.items.GetOr([]) == [] then Markers([]) else Thrown(TypeError)
  {
  }

  /** A label throws exactly when `textStyle` is absent or a number is to be
      formatted with more than 100 digits. */
  lemma TextThrowsExactly(o: Overlay, item: OverlayItem, m: Modifier, num: string -> Option<real>)
    requires o.layerType == Text
    ensures RenderItem(o, item, m, num).Failure? <==>
      o.textStyle.None? || (num(item.data).Some? && Precision(o) >= MaxFixedDigits + 1.0)
    ensures RenderItem(o, item, m, num) == Failure(RangeError) <==>
      o.textStyle.Some? && num(item.data).Some? && Precision(o) >= MaxFixedDigits + 1.0
  {
  }

  /** A label whose value is not a number, or whose precision is negative,
      shows the raw data in the default colour, whatever the sections say. */
  lemma TextUnformattedKeepsDefaultColor(o: Overlay, item: OverlayItem, m: Modifier, num: string -> Option<real>)
    requires o.layerType == Text && o.textStyle.Some?
    requires num(item.data).None? || Precision(o) < 0.0
    ensures var r := RenderItem(o, item, m, num);
      && r.Success? && r.value.TextMarker?
      && r.value.color == DefaultColor && r.value.shown == RawData(item.data)
      && r.value.at == Position(item.relXPos, item.relYPos, m)
  {
  }

  /** A numeric label with a precision from 0 to 100 (after its fraction is
      dropped) shows the number with that many digits, coloured by the
      section the unformatted number falls in. */
  lemma TextFormattedNumber(o: Overlay, item: OverlayItem, m: Modifier, num: string -> Option<real>)
    requires o.layerType == Text && o.textStyle.Some?
    requires num(item.data).Some? && 0.0 <= Precision(o) < MaxFixedDigits + 1.0
    ensures var r := RenderItem(o, item, m, num);
      && r.Success? && r.value.TextMarker?
      && r.value.shown == FixedPoint(num(item.data).value, Precision(o).Floor as nat)
      && r.value.shown.digits <= 100
      && r.value.color == SectionColor(o.sections, num(item.data))
  {
  }

  /** Switch and HTML layers never throw: one plain marker per item, in order. */
  lemma PlainLayerMarkers(o: Overlay, m: Modifier, num: string -> Option<real>)
    requires o.layerType == Switch || o.layerType == Html
    ensures var items := o.items.GetOr([]);
      && RenderLayer(o, Some(m), num).Markers?
      && |RenderLayer(o, Some(m), num).markers| == |items|
      && forall i :: 0 <= i < |items| ==>
         RenderLayer(o, Some(m), num).markers[i] == PlainMarker(items[i].title, items[i].data)
  {
  }

  /** A layer type without a handler throws as soon as there is an item. */
  lemma UnknownLayerThrows(o: Overlay, m: Modifier, num: string -> Option<real>)
    requires o.layerType.Unknown?
    ensures RenderLayer(o, Some(m), num) == if o.items.GetOr([]) == [] then Markers([]) else Thrown(TypeError)
  {
  }

  /** A layer throws exactly when one of its items does, and then with the
      error of the first such item. */
  lemma LayerThrowsExactly(o: Overlay, m: Modifier, num: string -> Option<real>)
    ensures var items := o.items.GetOr([]);
      RenderLayer(o, Some(m), num).Thrown? <==>
        exists i :: 0 <= i < |items| && RenderItem(o, items[i], m, num).Failure?
    ensures var items, r := o.items.GetOr([]), RenderLayer(o, Some(m), num);
      r.Thrown? ==> exists i :: FirstFailure(o, items, m, num, i) && r.error == RenderItem(o, items[i], m, num).error
  {
  }
}
