/** The value classifier: the colour of a value from the overlay's
    `sections` (first matching limit, colour of the bucket below it) and the
    progress fraction of a value within the range of the limits. */
module Sections {
  import opened Wrappers
  import opened JsMath

  /** `sections`: limits, read as ascending, and the colours between them. */
  datatype Sections = Sections(sectionLimits: seq<real>, colors: seq<string>)

  /** The colour used when no section supplies one. */
  const DefaultColor: string := "#333"

  /** `limits.findIndex((limit) => v <= limit)`: the first index whose limit
      is at least `v`, or -1. */
  function FindIndex(limits: seq<real>, v: real): (i: int)
    ensures -1 <= i < |limits|
    ensures i >= 0 ==> v <= limits[i] && forall j :: 0 <= j < i ==> v > limits[j]
    ensures i == -1 <==> forall j :: 0 <= j < |limits| ==> v > limits[j]
  {
    if limits == [] then -1
    else if v <= limits[0] then 0
    else
      var r := FindIndex(limits[1..], v);
      if r < 0 then -1 else r + 1
  }

  /** The colour of the value `v` (`None` is `NaN`, which is `<=` no limit):
      `colors[i-1]` for the first matching index `i >= 1` when that colour
      exists, the default colour otherwise, also when `sections` is absent. */
  function SectionColor(sections: Option<Sections>, v: Option<real>): (r: string)
    ensures r == DefaultColor || (sections.Some? && r in sections.value.colors)
    ensures v.None? ==> r == DefaultColor
  {
    if sections.None? || v.None? then DefaultColor
    else
      var i := FindIndex(sections.value.sectionLimits, v.value);
      if i >= 1 && i - 1 < |sections.value.colors| then sections.value.colors[i - 1] else DefaultColor
  }

  predicate Ascending(s: seq<real>) {
    forall i, j :: 0 <= i < j < |s| ==> s[i] <= s[j]
  }

  /** `Math.min(...s)` of a non-empty list. */
  function SeqMin(s: seq<real>): (m: real)
    requires |s| > 0
    ensures m in s && forall x :: x in s ==> m <= x
  {
    if |s| == 1 then s[0]
    else
      assert forall x :: x in s ==> x == s[0] || x in s[1..];
      MathMin(s[0], SeqMin(s[1..]))
  }

  /** `Math.max(...s)` of a non-empty list. */
  function SeqMax(s: seq<real>): (m: real)
    requires |s| > 0
    ensures m in s && forall x :: x in s ==> x <= m
  {
    if |s| == 1 then s[0]
    else
      assert forall x :: x in s ==> x == s[0] || x in s[1..];
      MathMax(s[0], SeqMax(s[1..]))
  }

  /** `Math.min(1, Math.max(0, x))`. */
  function Clamp01(x: real): real {
    MathMin(1.0, MathMax(0.0, x))
  }

  /** The progress fraction of `renderProgress`. `None` stands for `NaN`,
      which the clamp lets through: it is the value when it is `NaN` and
      the range is not degenerate, and when the limits are empty (their
      minimum and maximum are then infinite). */
  function Fraction(limits: seq<real>, v: Option<real>): (r: Option<real>)
    ensures r.None? <==> |limits| == 0 || (v.None? && SeqMin(limits) != SeqMax(limits))
  {
    if |limits| == 0 then None
    else
      var lo, hi := SeqMin(limits), SeqMax(limits);
      if hi == lo then Some(0.0)
      else if v.None? then None
      else Some(Clamp01((v.value - lo) / (hi - lo)))
  }

  /** For ascending limits the colour is that of the bucket holding the
      value: the default colour up to the first limit and above the last,
      `colors[k-1]` (when it exists) for `limits[k-1] < v <= limits[k]`. */
  lemma SectionColorByBucket(sec: Sections, v: real)
    requires Ascending(sec.sectionLimits)
    ensures var limits := sec.sectionLimits;
      |limits| > 0 && v <= limits[0] ==> SectionColor(Some(sec), Some(v)) == DefaultColor
    ensures var limits := sec.sectionLimits;
      (forall j :: 0 <= j < |limits| ==> limits[j] < v) ==> SectionColor(Some(sec), Some(v)) == DefaultColor
    ensures var limits := sec.sectionLimits;
      forall k :: 1 <= k < |limits| && limits[k - 1] < v <= limits[k] ==>
        SectionColor(Some(sec), Some(v)) == if k - 1 < |sec.colors| then sec.colors[k - 1] else DefaultColor
  {
    var limits := sec.sectionLimits;
    forall k | 1 <= k < |limits| && limits[k - 1] < v <= limits[k]
      ensures FindIndex(limits, v) == k
    {
      var i := FindIndex(limits, v);
      assert forall j :: 0 <= j < k ==> limits[j] <= limits[k - 1];
      assert i >= 0 && forall j :: 0 <= j < k ==> v > limits[j];
    }
  }

  /** Colours for the limits [10,20,30] and the colours [A,B,C]: at or
      below the first limit and above the last the default; `NaN` and
      absent sections give the default too. */
  lemma SectionColorExamples()
    ensures var sec := Some(Sections([10.0, 20.0, 30.0], ["A", "B", "C"]));
      && SectionColor(sec, Some(5.0)) == DefaultColor
      && SectionColor(sec, Some(15.0)) == "A"
      && SectionColor(sec, Some(25.0)) == "B"
      && SectionColor(sec, Some(35.0)) == DefaultColor
      && SectionColor(sec, None) == DefaultColor
      && SectionColor(None, Some(15.0)) == DefaultColor
  {
    var l := [10.0, 20.0, 30.0];
    assert FindIndex(l, 5.0) == 0;
    assert FindIndex(l, 15.0) == 1;
    assert FindIndex(l, 25.0) == 2;
    assert FindIndex(l, 35.0) == -1;
  }

  /** The fraction is a number in [0,1] whenever the value and the limits
      give one. */
  lemma FractionInUnitInterval(limits: seq<real>, v: Option<real>)
    ensures Fraction(limits, v).Some? ==> 0.0 <= Fraction(limits, v).value <= 1.0
    ensures Fraction(limits, v).None? <==> |limits| == 0 || (v.None? && SeqMax(limits) != SeqMin(limits))
  {
  }

  /** A degenerate range, every limit equal, gives 0 for any value, `NaN` included. */
  lemma FractionOfDegenerateRange(limits: seq<real>, v: Option<real>)
    requires |limits| > 0 && forall i :: 0 <= i < |limits| ==> limits[i] == limits[0]
    ensures Fraction(limits, v) == Some(0.0)
  {
    assert SeqMin(limits) == limits[0];
    assert SeqMax(limits) == limits[0];
  }

  /** On a proper range from `lo`, the minimum limit, to `hi`, the maximum,
      the fraction is 0 up to `lo`, 1 from `hi` on, and linear in between. */
  lemma FractionShape(limits: seq<real>, v: real, lo: real, hi: real)
    requires |limits| > 0 && lo == SeqMin(limits) && hi == SeqMax(limits) && lo < hi
    ensures v <= lo ==> Fraction(limits, Some(v)) == Some(0.0)
    ensures v >= hi ==> Fraction(limits, Some(v)) == Some(1.0)
    ensures lo <= v <= hi ==> Fraction(limits, Some(v)) == Some((v - lo) / (hi - lo))
  {
    var f := (v - lo) / (hi - lo);
    assert Fraction(limits, Some(v)) == Some(Clamp01(f));
    ClampOfRatio(v - lo, hi - lo);
  }

  /** `Clamp01(a / d)` for a positive `d`. */
  lemma ClampOfRatio(a: real, d: real)
    requires d > 0.0
    ensures a <= 0.0 ==> Clamp01(a / d) == 0.0
    ensures a >= d ==> Clamp01(a / d) == 1.0
    ensures 0.0 <= a <= d ==> Clamp01(a / d) == a / d
  {
    DivByRange(a, d);
  }

  /** Where `a / d` lies for a positive `d`. */
  lemma DivByRange(a: real, d: real)
    requires d > 0.0
    ensures a <= 0.0 ==> a / d <= 0.0
    ensures a >= d ==> a / d >= 1.0
    ensures 0.0 <= a <= d ==> 0.0 <= a / d <= 1.0
  {
    var q := a / d;
    assert q * d == a;
    if 0.0 <= a <= d && q > 1.0 {
      assert q * d > 1.0 * d;
    }
  }

  /** The order of the limits does not matter to the fraction. */
  lemma FractionPermutationInvariant(l1: seq<real>, l2: seq<real>, v: Option<real>)
    requires multiset(l1) == multiset(l2)
    ensures Fraction(l1, v) == Fraction(l2, v)
  {
    assert forall x :: x in l1 <==> x in l2 by {
      forall x ensures x in l1 <==> x in l2 {
        assert x in l1 <==> x in multiset(l1);
        assert x in l2 <==> x in multiset(l2);
      }
    }
    assert |l1| == |multiset(l1)| == |multiset(l2)| == |l2|;
    if |l1| > 0 {
      assert SeqMin(l1) == SeqMin(l2);
      assert SeqMax(l1) == SeqMax(l2);
    }
  }

  /** The fraction never decreases as the value grows. */
  lemma FractionMonotone(limits: seq<real>, v1: real, v2: real)
    requires |limits| > 0 && v1 <= v2
    ensures Fraction(limits, Some(v1)).Some? && Fraction(limits, Some(v2)).Some?
    ensures Fraction(limits, Some(v1)).value <= Fraction(limits, Some(v2)).value
  {
    var lo, hi := SeqMin(limits), SeqMax(limits);
    if hi != lo {
      var d := hi - lo;
      var f1, f2 := (v1 - lo) / d, (v2 - lo) / d;
      assert Fraction(limits, Some(v1)) == Some(Clamp01(f1));
      assert Fraction(limits, Some(v2)) == Some(Clamp01(f2));
      ClampOfRatioMonotone(v1 - lo, v2 - lo, d);
    }
  }

  /** `Clamp01(a / d)` grows with `a` for a positive `d`. */
  lemma ClampOfRatioMonotone(a: real, b: real, d: real)
    requires d > 0.0 && a <= b
    ensures Clamp01(a / d) <= Clamp01(b / d)
  {
    assert b / d - a / d == (b - a) / d;
    assert (b - a) / d >= 0.0;
  }

  /** Fractions for the limits [0,100] (linear inside, clamped outside)
      and for the degenerate range [5,5] (always 0). */
  lemma FractionExamples(v: Option<real>)
    ensures Fraction([0.0, 100.0], Some(50.0)) == Some(0.5)
    ensures Fraction([0.0, 100.0], Some(-10.0)) == Some(0.0)
    ensures Fraction([0.0, 100.0], Some(150.0)) == Some(1.0)
    ensures Fraction([5.0, 5.0], v) == Some(0.0)
    ensures Fraction([], v) == None
  {
    assert SeqMin([0.0, 100.0]) == 0.0;
    assert SeqMax([0.0, 100.0]) == 100.0;
    FractionOfDegenerateRange([5.0, 5.0], v);
  }
}
