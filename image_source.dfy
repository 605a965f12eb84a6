/** Classification of the widget's `image` string into what the base layer
    displays: inline SVG markup, an image address (data URL, synthesised
    base64 data URL, absolute URL or path), or nothing. */
module ImageSource {
  import opened Wrappers
  import opened Text

  /** What the base layer shows. The two non-empty cases correspond to the
      element's `inlineSvg` and `previewUrl` fields. */
  datatype DisplaySource = NoSource | InlineSvg(markup: string) | Reference(url: string) {
    /** The value `inlineSvg` takes for this source. */
    function InlineMarkup(): Option<string> {
      if InlineSvg? then Some(markup) else None
    }
    /** The value `previewUrl` takes for this source. */
    function PreviewUrl(): Option<string> {
      if Reference? then Some(url) else None
    }
  }

  const SvgOpen: string := "<svg"
  const SvgClose: string := "</svg>"
  const SvgDataPrefix: string := "data:image/svg+xml"
  const ImageDataPrefix: string := "data:image/"
  const Base64Marker: string := ";base64,"
  /** The prefix put in front of a bare base64 payload. */
  const GenericImagePrefix: string := "data:image/*;base64,"

  /** The first match of `/<svg[\s\S]*?<\/svg>/i` in `t`, as the pair
      (start, end) of the matched slice `t[start..end]`: the first `<svg`
      (any letter case) and the nearest `</svg>` after it. */
  function SvgMatch(t: string): (m: Option<(nat, nat)>)
    ensures m.Some? ==> m.value.0 + |SvgOpen| + |SvgClose| <= m.value.1 <= |t|
    ensures m.Some? ==> MatchesCiAt(t, m.value.0, SvgOpen)
    ensures m.Some? ==> forall j :: 0 <= j < m.value.0 ==> !MatchesCiAt(t, j, SvgOpen)
    ensures m.Some? ==> MatchesCiAt(t, m.value.1 - |SvgClose|, SvgClose)
    ensures m.Some? ==>
      forall j :: m.value.0 + |SvgOpen| <= j < m.value.1 - |SvgClose| ==> !MatchesCiAt(t, j, SvgClose)
    ensures m.None? <==>
      forall p: nat, q: nat :: MatchesCiAt(t, p, SvgOpen) && p + |SvgOpen| <= q ==> !MatchesCiAt(t, q, SvgClose)
  {
    match FindCi(t, SvgOpen, 0)
    case None => None
    case Some(p) =>
      match FindCi(t, SvgClose, p + |SvgOpen|)
      case None => None
      case Some(q) => Some((p, q + |SvgClose|))
  }

  /** `/^data:image\/svg\+xml[,;]/`. */
  predicate IsSvgDataUrl(s: string) {
    |s| > |SvgDataPrefix| && s[..|SvgDataPrefix|] == SvgDataPrefix
    && (s[|SvgDataPrefix|] == ',' || s[|SvgDataPrefix|] == ';')
  }

  /** The character class `[a-zA-Z.+-]` of an image subtype. */
  predicate IsSubtypeChar(c: char) {
    ('a' <= c <= 'z') || ('A' <= c <= 'Z') || c == '.' || c == '+' || c == '-'
  }

  /** The character class `[A-Za-z0-9+/]` of base64. */
  predicate IsBase64Char(c: char) {
    ('A' <= c <= 'Z') || ('a' <= c <= 'z') || ('0' <= c <= '9') || c == '+' || c == '/'
  }

  /** The length of the longest run of `inClass` characters of `s` starting at `i`. */
  function Span(s: string, i: nat, inClass: char -> bool): (n: nat)
    requires i <= |s|
    decreases |s| - i
    ensures i + n <= |s|
    ensures forall k :: i <= k < i + n ==> inClass(s[k])
    ensures i + n < |s| ==> !inClass(s[i + n])
  {
    if i < |s| && inClass(s[i]) then 1 + Span(s, i + 1, inClass) else 0
  }

  /** `/^data:image\/[a-zA-Z.+-]+;base64,/`, decided on the longest subtype run. */
  predicate IsRasterDataUrl(s: string) {
    |s| >= |ImageDataPrefix| && s[..|ImageDataPrefix|] == ImageDataPrefix
    && var n := Span(s, |ImageDataPrefix|, IsSubtypeChar);
       n >= 1 && |ImageDataPrefix| + n + |Base64Marker| <= |s|
       && s[|ImageDataPrefix| + n..|ImageDataPrefix| + n + |Base64Marker|] == Base64Marker
  }

  /** Regular-expression reading of the raster data-URL pattern: the
      subtype `[a-zA-Z.+-]+` is the `n` characters after `data:image/`. */
  predicate RasterShapeAt(s: string, n: nat) {
    var k := |ImageDataPrefix|;
    n >= 1 && k + n + |Base64Marker| <= |s| && s[..k] == ImageDataPrefix
    && (forall i :: k <= i < k + n ==> IsSubtypeChar(s[i]))
    && s[k + n..k + n + |Base64Marker|] == Base64Marker
  }

  /** `/^[A-Za-z0-9+/]+=*$/`, decided on the longest base64 run. */
  predicate IsBareBase64(s: string) {
    var n := Span(s, 0, IsBase64Char);
    n >= 1 && forall k :: n <= k < |s| ==> s[k] == '='
  }

  /** Regular-expression reading of the bare base64 pattern: `n` base64
      characters followed by padding only. */
  predicate Base64ShapeAt(s: string, n: nat) {
    1 <= n <= |s| && (forall i :: 0 <= i < n ==> IsBase64Char(s[i]))
    && forall i :: n <= i < |s| ==> s[i] == '='
  }

  /** `/^([./]|\/)/`: a path starting with `.` or `/`. */
  predicate IsPathLike(s: string) {
    s != [] && (s[0] == '.' || s[0] == '/')
  }

  /** The cascade applied to the trimmed string once no inline SVG was found. */
  function ClassifyReference(raw: string, isAbsoluteUrl: string -> bool): (r: DisplaySource)
    ensures !r.InlineSvg?
    ensures r.Reference? ==> r.url == raw || (r.url == GenericImagePrefix + raw && IsBareBase64(raw) && |raw| > 100)
    ensures r.NoSource? <==> !IsSvgDataUrl(raw) && !IsRasterDataUrl(raw) && !(IsBareBase64(raw) && |raw| > 100)
                             && !isAbsoluteUrl(raw) && !IsPathLike(raw)
  {
    if IsSvgDataUrl(raw) then Reference(raw)
    else if IsRasterDataUrl(raw) then Reference(raw)
    else if IsBareBase64(raw) && |raw| > 100 then Reference(GenericImagePrefix + raw)
    else if isAbsoluteUrl(raw) then Reference(raw)
    else if IsPathLike(raw) then Reference(raw)
    else NoSource
  }

  /** The text searched for inline SVG: `raw.replace(/^\uFEFF/, '').trimStart()`. */
  function SvgSearchText(raw: string): string {
    TrimStart(StripBom(raw))
  }

  /** The trimmed inline SVG block of `t`, if it holds one. */
  function SvgBlock(t: string): Option<string> {
    match SvgMatch(t)
    case Some((p, e)) => Some(Trim(t[p..e]))
    case None => None
  }

  /** What `transform` derives from `inputData.image`. `isAbsoluteUrl(s)`
      stands for "`new URL(s)` does not throw". */
  function Resolve(image: Option<string>, isAbsoluteUrl: string -> bool): (r: DisplaySource)
    ensures image.None? || image.value == "" ==> r == NoSource
    ensures r.InlineSvg? ==> SvgBlock(SvgSearchText(Trim(image.value))) == Some(r.markup)
    ensures r.Reference? ==> SvgBlock(SvgSearchText(Trim(image.value))) == None
                             && r == ClassifyReference(Trim(image.value), isAbsoluteUrl)
  {
    if image.None? || image.value == "" then NoSource
    else
      var raw := Trim(image.value);
      match SvgBlock(SvgSearchText(raw))
      case Some(block) => InlineSvg(block)
      case None => ClassifyReference(raw, isAbsoluteUrl)
  }

  /** `Resolve` of a non-empty image, one step unfolded. */
  lemma ResolveOfBlock(s: string, isAbsoluteUrl: string -> bool)
    requires s != ""
    ensures var b := SvgBlock(SvgSearchText(Trim(s)));
      Resolve(Some(s), isAbsoluteUrl) == if b.Some? then InlineSvg(b.value) else ClassifyReference(Trim(s), isAbsoluteUrl)
  {
  }

  /** The raster data-URL test accepts exactly the strings the regular
      expression matches, whatever split of the subtype it might try. */
  lemma RasterDataUrlMatchesPattern(s: string)
    ensures IsRasterDataUrl(s) <==> exists n: nat :: RasterShapeAt(s, n)
  {
    var k := |ImageDataPrefix|;
    if IsRasterDataUrl(s) {
      assert RasterShapeAt(s, Span(s, k, IsSubtypeChar));
    }
    if n: nat :| RasterShapeAt(s, n) {
      assert s[k + n] == s[k + n..k + n + |Base64Marker|][0] == ';';
      SpanExact(s, k, n, IsSubtypeChar);
    }
  }

  /** The bare base64 test accepts exactly the strings the regular
      expression matches. */
  lemma BareBase64MatchesPattern(s: string)
    ensures IsBareBase64(s) <==> exists n: nat :: Base64ShapeAt(s, n)
  {
    if IsBareBase64(s) {
      assert Base64ShapeAt(s, Span(s, 0, IsBase64Char));
    }
    if n: nat :| Base64ShapeAt(s, n) {
      if n < |s| {
        assert s[n] == '=';
        SpanExact(s, 0, n, IsBase64Char);
      } else {
        SpanToEnd(s, 0, IsBase64Char);
      }
    }
  }

  /** A string without `<` holds no inline SVG block. */
  lemma NoSvgWithoutAngle(t: string)
    requires forall i :: 0 <= i < |t| ==> t[i] != '<'
    ensures SvgMatch(t) == None
  {
    forall p | MatchesCiAt(t, p, SvgOpen) ensures false {
      MatchNeedsFirstChar(t, p, SvgOpen);
    }
  }

  /** An absent or empty `image` clears both fields. */
  lemma ResolveWithoutImage(image: Option<string>, isAbsoluteUrl: string -> bool)
    requires image.None? || image.value == ""
    ensures Resolve(image, isAbsoluteUrl).InlineMarkup() == None
    ensures Resolve(image, isAbsoluteUrl).PreviewUrl() == None
  {
  }

  /** An image made only of space characters shows nothing, since `new URL("")` throws. */
  lemma ResolveBlankImage(s: string, isAbsoluteUrl: string -> bool)
    requires forall i :: 0 <= i < |s| ==> IsJsSpace(s[i])
    requires !isAbsoluteUrl("")
    ensures Resolve(Some(s), isAbsoluteUrl) == NoSource
  {
    if s != "" {
      TrimOfBlank(s);
      BomStripRedundant(s);
      NoSvgWithoutAngle(Trim(s));
    }
  }

  /** Inline SVG takes precedence: once the BOM-stripped, left-trimmed text
      holds `<svg` (any letter case) with a `</svg>` later on, the result is
      inline markup, whatever else the string would match. */
  lemma ResolveInlineSvgPrecedence(s: string, isAbsoluteUrl: string -> bool, p: nat, q: nat)
    requires s != ""
    requires MatchesCiAt(SvgSearchText(Trim(s)), p, SvgOpen)
    requires p + |SvgOpen| <= q && MatchesCiAt(SvgSearchText(Trim(s)), q, SvgClose)
    ensures Resolve(Some(s), isAbsoluteUrl).InlineSvg?
    ensures Resolve(Some(s), isAbsoluteUrl).PreviewUrl() == None
  {
    assert SvgMatch(SvgSearchText(Trim(s))).Some?;
  }

  /** The inline markup is the block from the first `<svg` to the nearest
      `</svg>` after it, inclusive. */
  lemma ResolveInlineSvgBlock(s: string, isAbsoluteUrl: string -> bool, p: nat, q: nat)
    requires s != ""
    requires var t := SvgSearchText(Trim(s));
      && MatchesCiAt(t, p, SvgOpen) && (forall j :: 0 <= j < p ==> !MatchesCiAt(t, j, SvgOpen))
      && p + |SvgOpen| <= q && MatchesCiAt(t, q, SvgClose)
      && (forall j :: p + |SvgOpen| <= j < q ==> !MatchesCiAt(t, j, SvgClose))
    ensures var t := SvgSearchText(Trim(s));
      Resolve(Some(s), isAbsoluteUrl) == InlineSvg(t[p..q + |SvgClose|])
  {
    var t := SvgSearchText(Trim(s));
    var e := q + |SvgClose|;
    SvgMatchIsFirstToNearest(t, p, q);
    SvgBlockOfMatch(t, p, e);
    SvgBlockIsTrimmed(t, p, e);
    ResolveOfBlock(s, isAbsoluteUrl);
  }

  /** The first `<svg` and the nearest `</svg>` after it are the match. */
  lemma SvgMatchIsFirstToNearest(t: string, p: nat, q: nat)
    requires MatchesCiAt(t, p, SvgOpen) && (forall j :: 0 <= j < p ==> !MatchesCiAt(t, j, SvgOpen))
    requires p + |SvgOpen| <= q && MatchesCiAt(t, q, SvgClose)
    requires forall j :: p + |SvgOpen| <= j < q ==> !MatchesCiAt(t, j, SvgClose)
    ensures SvgMatch(t) == Some((p, q + |SvgClose|))
  {
    var m := SvgMatch(t);
    assert m.Some?;
    var (p', e') := m.value;
    assert p' == p;
  }

  /** A matched block starts with `<` and ends with `>`, so `trim` keeps it whole. */
  lemma SvgBlockIsTrimmed(t: string, p: nat, e: nat)
    requires p + |SvgOpen| + |SvgClose| <= e <= |t|
    requires MatchesCiAt(t, p, SvgOpen) && MatchesCiAt(t, e - |SvgClose|, SvgClose)
    ensures Trim(t[p..e]) == t[p..e]
  {
    var block := t[p..e];
    MatchNeedsFirstChar(t, p, SvgOpen);
    assert block[0] == '<';
    assert AsciiLower(t[e - |SvgClose| + 5]) == SvgClose[5];
    assert block[|block| - 1] == '>';
    TrimOfSolidEnds(block);
  }

  /** The reference cascade stated with the regular expressions' own
      readings of the two data-URL-like patterns. */
  ghost predicate PatternCascade(raw: string, isAbsoluteUrl: string -> bool, d: DisplaySource) {
    d == if IsSvgDataUrl(raw) || (exists n: nat :: RasterShapeAt(raw, n)) then Reference(raw)
         else if (exists n: nat :: Base64ShapeAt(raw, n)) && |raw| > 100 then Reference(GenericImagePrefix + raw)
         else if isAbsoluteUrl(raw) || IsPathLike(raw) then Reference(raw)
         else NoSource
  }

  /** Without inline SVG, the cascade runs on the trimmed string in the
      source's order, each test being the regular expression it stands for. */
  lemma ResolveReferenceCascade(s: string, isAbsoluteUrl: string -> bool)
    requires s != "" && SvgMatch(Trim(s)) == None
    ensures PatternCascade(Trim(s), isAbsoluteUrl, Resolve(Some(s), isAbsoluteUrl))
  {
    var raw := Trim(s);
    BomStripRedundant(s);
    assert Resolve(Some(s), isAbsoluteUrl) == ClassifyReference(raw, isAbsoluteUrl);
    RasterDataUrlMatchesPattern(raw);
    BareBase64MatchesPattern(raw);
  }

  /** A shown source is never an empty string, so `!!inlineSvg || !!previewUrl`
      agrees with "a source is set". */
  lemma ResolveNonEmpty(s: string, isAbsoluteUrl: string -> bool)
    requires !isAbsoluteUrl("")
    ensures Resolve(Some(s), isAbsoluteUrl).InlineSvg? ==>
      |Resolve(Some(s), isAbsoluteUrl).markup| >= |SvgOpen| + |SvgClose|
    ensures Resolve(Some(s), isAbsoluteUrl).Reference? ==> Resolve(Some(s), isAbsoluteUrl).url != ""
  {
    if s != "" {
      ResolveOfBlock(s, isAbsoluteUrl);
      SvgBlockLength(SvgSearchText(Trim(s)));
      ClassifyReferenceNonEmpty(Trim(s), isAbsoluteUrl);
    }
  }

  /** An SVG block holds at least its opening and closing tags. */
  lemma SvgBlockLength(t: string)
    ensures SvgBlock(t).Some? ==> |SvgBlock(t).value| >= |SvgOpen| + |SvgClose|
  {
    match SvgMatch(t)
    case Some((p, e)) =>
      SvgBlockOfMatch(t, p, e);
      SvgBlockIsTrimmed(t, p, e);
    case None =>
  }

  /** The block of a match is the trimmed matched slice. */
  lemma SvgBlockOfMatch(t: string, p: nat, e: nat)
    requires SvgMatch(t) == Some((p, e))
    ensures p <= e <= |t| && SvgBlock(t) == Some(Trim(t[p..e]))
  {
  }

  /** The reference cascade never yields the empty address, as long as the
      URL parser refuses the empty string. */
  lemma ClassifyReferenceNonEmpty(raw: string, isAbsoluteUrl: string -> bool)
    requires !isAbsoluteUrl("")
    ensures ClassifyReference(raw, isAbsoluteUrl).Reference? ==> ClassifyReference(raw, isAbsoluteUrl).url != ""
  {
  }

  /** Resolving a resolved address again: an address kept verbatim is kept
      again; a synthesised base64 data URL fails the data-URL patterns
      (`*` is no subtype character) and survives only through the URL parser. */
  lemma ResolveReferenceAgain(s: string, isAbsoluteUrl: string -> bool)
    requires !isAbsoluteUrl("")
    requires Resolve(Some(s), isAbsoluteUrl).Reference?
    ensures var u := Resolve(Some(s), isAbsoluteUrl).url;
      u == Trim(s) ==> Resolve(Some(u), isAbsoluteUrl) == Reference(u)
    ensures var u := Resolve(Some(s), isAbsoluteUrl).url;
      u != Trim(s) ==>
        && u == GenericImagePrefix + Trim(s)
        && Resolve(Some(u), isAbsoluteUrl) == (if isAbsoluteUrl(u) then Reference(u) else NoSource)
  {
    var raw := Trim(s);
    var u := Resolve(Some(s), isAbsoluteUrl).url;
    BomStripRedundant(s);
    if u == raw {
      TrimIdempotent(s);
      BomStripRedundant(raw);
    } else {
      assert IsBareBase64(raw) && u == GenericImagePrefix + raw;
      SynthesisedUrlResolution(raw, isAbsoluteUrl);
      BomStripRedundant(u);
    }
  }

  /** How the cascade treats a data URL it synthesised from a bare base64 payload. */
  lemma SynthesisedUrlResolution(raw: string, isAbsoluteUrl: string -> bool)
    requires IsBareBase64(raw)
    ensures var u := GenericImagePrefix + raw;
      && Trim(u) == u
      && SvgMatch(SvgSearchText(u)) == None
      && ClassifyReference(u, isAbsoluteUrl) == if isAbsoluteUrl(u) then Reference(u) else NoSource
  {
    var u := GenericImagePrefix + raw;
    SynthesisedUrlIsSolid(raw);
    TrimOfSolidEnds(u);
    assert SvgSearchText(u) == u by {
      assert StripBom(u) == u;
      assert TrimStart(u) == u;
    }
    NoSvgWithoutAngle(u);
    SynthesisedUrlFailsPatterns(raw);
  }

  /** The synthesised data URL holds neither `<` nor a space character. */
  lemma SynthesisedUrlIsSolid(raw: string)
    requires IsBareBase64(raw)
    ensures var u := GenericImagePrefix + raw;
      forall i :: 0 <= i < |u| ==> u[i] != '<' && !IsJsSpace(u[i])
  {
    var u := GenericImagePrefix + raw;
    var n := Span(raw, 0, IsBase64Char);
    var g := |GenericImagePrefix|;
    forall i | 0 <= i < |u| ensures u[i] != '<' && !IsJsSpace(u[i]) {
      if i >= g {
        assert u[i] == raw[i - g];
        if i - g >= n { assert raw[i - g] == '='; }
      }
    }
  }

  /** The synthesised data URL is no data URL of either kind, no bare base64
      payload and no path: its subtype `*` is no subtype character and its
      `:` is no base64 character. */
  lemma SynthesisedUrlFailsPatterns(raw: string)
    ensures var u := GenericImagePrefix + raw;
      !IsSvgDataUrl(u) && !IsRasterDataUrl(u) && !IsBareBase64(u) && !IsPathLike(u)
  {
    var u := GenericImagePrefix + raw;
    assert u[..20] == GenericImagePrefix;
    assert !IsSvgDataUrl(u) by { assert u[11] != SvgDataPrefix[11]; }
    assert !IsRasterDataUrl(u) by {
      assert Span(u, |ImageDataPrefix|, IsSubtypeChar) == 0 by { assert !IsSubtypeChar(u[11]); }
    }
    assert !IsBareBase64(u) by {
      assert forall k :: 0 <= k < 4 ==> IsBase64Char(u[k]);
      SpanExact(u, 0, 4, IsBase64Char);
      assert u[4] != '=';
    }
  }

  /** The span runs to the end when every remaining character is in the class. */
  lemma SpanToEnd(s: string, i: nat, inClass: char -> bool)
    requires i <= |s|
    requires forall k :: i <= k < |s| ==> inClass(s[k])
    ensures Span(s, i, inClass) == |s| - i
  {
  }

  /** The span is `n` when `n` class characters are followed by a non-class one. */
  lemma SpanExact(s: string, i: nat, n: nat, inClass: char -> bool)
    requires i + n < |s|
    requires forall k :: i <= k < i + n ==> inClass(s[k])
    requires !inClass(s[i + n])
    ensures Span(s, i, inClass) == n
  {
  }
}
