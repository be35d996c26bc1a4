/** How a composed color is brought into the range of an output: the tone map and the desaturation after it. */
module ColorMapping {
  import opened Color

  /** A peak, never unknown by the time it is mapped to. */
  type Nits = x: real | 0.0 < x witness 1.0

  datatype Mapping = Mapping(toTarget: Matrix, fromTarget: Matrix, targetLuma: Rgb,
                             referenceNits: real, peakNits: Nits, hdr: bool)

  /** What of an output's color state the mapping is made from. */
  datatype OutputColor = OutputColor(hdr: bool, target: Chromaticities, displayPeakNits: real, sdrWhiteNits: real)

  function TargetSet(output: OutputColor): Chromaticities {
    if output.hdr then output.target else SRGB
  }

  /** A display of unknown peak counts as one of 1000 nits. */
  function Peak(output: OutputColor): Nits {
    var display := if output.hdr then output.displayPeakNits else 203.0;
    if display <= 0.0 then 1000.0 else display
  }

  function Reference(output: OutputColor): (reference: real)
    ensures reference < Peak(output)
  {
    var reference := if output.hdr then output.sdrWhiteNits else 100.0;
    if reference >= Peak(output) then Peak(output) * 0.5 else reference
  }

  /** `adaptation` is the matrix of the night light, the identity when it is off. */
  function OutputMapping(output: OutputColor, adaptation: Matrix): Mapping
    requires Divides(TargetSet(output))
  {
    var sceneToXyz, targetToXyz := RgbToXyz(BT2020), RgbToXyz(TargetSet(output));
    Mapping(Product(Inverse(targetToXyz), Product(adaptation, sceneToXyz)),
            Product(Inverse(sceneToXyz), targetToXyz), Row1(targetToXyz),
            Reference(output), Peak(output), output.hdr)
  }

  // ----- the tone map -----

  function ToneMap(luminance: real, peak: real): real {
    var value := if luminance > 0.0 then luminance else 0.0;
    var knee := peak * 0.9;
    if value <= knee || peak <= knee then
      if value < peak then value else peak
    else
      var headroom, excess := peak - knee, value - knee;
      peak - headroom * headroom / (headroom + excess)
  }

  /** How far below the peak a value `e` above the knee comes to lie, when the knee is `h` below it. */
  function Shortfall(h: real, e: real): (s: real)
    requires 0.0 < h && 0.0 <= e
  {
    h * h / (h + e)
  }

  lemma MulShrinks(s: real, x: real)
    requires 0.0 <= s <= 1.0 && 0.0 <= x
    ensures 0.0 <= Mul(s, x) <= x
  {
    assert Mul(1.0, x) == x;
    hide Mul;
    MulGrows(s, 1.0, x);
  }

  lemma MulZero(x: real, k: real)
    requires 0.0 < k
    ensures Mul(x, k) == 0.0 <==> x == 0.0
    ensures Mul(x, k) > 0.0 <==> x > 0.0
  {
  }

  lemma ShortfallScales(h: real, e: real)
    requires 0.0 < h && 0.0 <= e
    ensures Mul(Shortfall(h, e), h + e) == Mul(h, h)
    ensures 0.0 < Shortfall(h, e) <= h
    ensures e == 0.0 ==> Shortfall(h, e) == h
  {
    var s := Shortfall(h, e);
    assert Mul(s, h + e) == Mul(h, h);
    hide Mul, Shortfall;
    MulGrows(h, h + e, h);
    MulZero(s, h + e);
    MulZero(s - h, h + e);
    MulSum(s, h, h + e);
    MulZero(s - h, h);
  }

  lemma ShortfallShrinks(h: real, a: real, b: real)
    requires 0.0 < h && 0.0 <= a <= b
    ensures 0.0 <= Shortfall(h, a) - Shortfall(h, b) <= b - a
    ensures a < b ==> Shortfall(h, b) < Shortfall(h, a)
  {
    hide Shortfall, Mul;
    ShortfallScales(h, a);
    ShortfallScales(h, b);
    var x, y := Shortfall(h, a), Shortfall(h, b);
    // (x - y)(h + a) == y (b - a), and y is at most h
    MulSum(x, y, h + a);
    MulSum(h + b, h + a, y);
    MulGrows(y, h + a, b - a);
    MulSum(x - y, b - a, h + a);
    MulZero(x - y, h + a);
    MulZero(x - y - (b - a), h + a);
  }

  lemma ToneMapAboveKnee(luminance: real, peak: real)
    requires 0.0 < peak && luminance >= peak * 0.9
    ensures ToneMap(luminance, peak) == peak - Shortfall(peak * 0.1, luminance - peak * 0.9)
  {
    var headroom := peak - peak * 0.9;
    assert headroom == peak * 0.1;
    if luminance == peak * 0.9 {
      ShortfallScales(headroom, 0.0);
    }
  }

  /** Up to the knee a luminance is kept, darkness stays dark, and nothing reaches the peak. */
  lemma ToneMapRange(luminance: real, peak: real)
    ensures ToneMap(luminance, peak) <= peak
    ensures 0.0 < peak ==> 0.0 <= ToneMap(luminance, peak) < peak
    ensures 0.0 < peak && 0.0 <= luminance <= peak * 0.9 ==> ToneMap(luminance, peak) == luminance
    ensures 0.0 < peak && luminance <= 0.0 ==> ToneMap(luminance, peak) == 0.0
    ensures 0.0 < peak && luminance > 0.0 ==> 0.0 < ToneMap(luminance, peak) <= luminance
  {
    if 0.0 < peak && luminance > peak * 0.9 {
      hide ToneMap, Shortfall;
      ToneMapAboveKnee(luminance, peak);
      ShortfallScales(peak * 0.1, luminance - peak * 0.9);
      ShortfallScales(peak * 0.1, 0.0);
      ShortfallShrinks(peak * 0.1, 0.0, luminance - peak * 0.9);
    }
  }

  /** Brighter stays brighter, by no more than it was: no jump anywhere, the knee included. */
  lemma ToneMapRises(a: real, b: real, peak: real)
    requires 0.0 < peak && a <= b
    ensures 0.0 <= ToneMap(b, peak) - ToneMap(a, peak) <= b - a
    ensures 0.0 <= a < b ==> ToneMap(a, peak) < ToneMap(b, peak)
  {
    hide ToneMap, Shortfall;
    var knee := peak * 0.9;
    ToneMapRange(a, peak);
    ToneMapRange(b, peak);
    if b > knee {
      ToneMapAboveKnee(b, peak);
      var start := if a > knee then a else knee;
      ToneMapAboveKnee(start, peak);
      ToneMapRange(start, peak);
      ShortfallShrinks(peak * 0.1, start - knee, b - knee);
    }
  }

  // ----- the desaturation -----

  /** A luminance up to this is black. */
  const BLACK: real := 0.000000001

  function Luminance(m: Mapping, color: Rgb): real {
    Dot(m.targetLuma, Apply(m.toTarget, color))
  }

  function MappedLuminance(luminance: real, peak: real): real {
    if luminance > BLACK then ToneMap(luminance, peak) else 0.0
  }

  function Relit(target: Rgb, luminance: real, peak: real): Rgb {
    if luminance > BLACK then Times(target, ToneMap(luminance, peak) / luminance) else Rgb(0.0, 0.0, 0.0)
  }

  /** How far a channel may keep its distance from the luma `l` and still be in range. */
  function ChannelScale(channel: real, l: real, peak: real): (s: real)
    requires 0.0 <= l < peak
  {
    if channel < 0.0 then l / (l - channel)
    else if channel > peak then (peak - l) / (channel - l)
    else 1.0
  }

  function ChromaScale(c: Rgb, l: real, peak: real): real
    requires 0.0 <= l < peak
  {
    Min(ChannelScale(c.r, l, peak), Min(ChannelScale(c.g, l, peak), ChannelScale(c.b, l, peak)))
  }

  function Drawn(channel: real, l: real, s: real): real {
    l + (channel - l) * s
  }

  /** The color reached in the target's space. */
  function Reached(m: Mapping, color: Rgb): Rgb
  {
    var y := Luminance(m, color);
    var l := MappedLuminance(y, m.peakNits);
    var c := Relit(Apply(m.toTarget, color), y, m.peakNits);
    MappedInRange(y, m.peakNits);
    var s := ChromaScale(c, l, m.peakNits);
    Rgb(Drawn(c.r, l, s), Drawn(c.g, l, s), Drawn(c.b, l, s))
  }

  lemma MappedInRange(luminance: real, peak: real)
    requires 0.0 < peak
    ensures 0.0 <= MappedLuminance(luminance, peak) < peak
    ensures MappedLuminance(luminance, peak) == ToneMap(luminance, peak) <==> !(0.0 < luminance <= BLACK)
  {
    hide ToneMap;
    ToneMapRange(luminance, peak);
  }

  lemma ChannelScaleIs(channel: real, l: real, peak: real)
    requires 0.0 <= l < peak
    ensures var s := ChannelScale(channel, l, peak);
      && 0.0 <= s <= 1.0
      && (channel < 0.0 ==> Mul(s, l - channel) == l)
      && (channel > peak ==> Mul(s, channel - l) == peak - l)
  {
    var s := ChannelScale(channel, l, peak);
    if channel < 0.0 {
      QuotientInUnit(l, l - channel);
    } else if channel > peak {
      QuotientInUnit(peak - l, channel - l);
    }
  }

  lemma QuotientInUnit(x: real, y: real)
    requires 0.0 <= x <= y && 0.0 < y
    ensures 0.0 <= x / y <= 1.0 && Mul(x / y, y) == x
  {
  }

  lemma DrawnIs(channel: real, l: real, s: real)
    ensures Drawn(channel, l, s) == l - Mul(s, l - channel) == l + Mul(s, channel - l)
  {
  }

  /** Whatever is drawn no further out than a channel allows is in range. */
  lemma DrawnInRange(channel: real, l: real, s: real, peak: real)
    requires 0.0 <= l < peak && 0.0 <= s <= ChannelScale(channel, l, peak)
    ensures 0.0 <= Drawn(channel, l, s) <= peak
  {
    hide ChannelScale, Drawn, Mul;
    ChannelScaleIs(channel, l, peak);
    DrawnIs(channel, l, s);
    if channel <= l {
      MulShrinks(s, l - channel);
      MulGrows(s, ChannelScale(channel, l, peak), l - channel);
    } else {
      MulShrinks(s, channel - l);
      MulGrows(s, ChannelScale(channel, l, peak), channel - l);
    }
  }

  predicate InRange(c: Rgb, peak: real) {
    0.0 <= c.r <= peak && 0.0 <= c.g <= peak && 0.0 <= c.b <= peak
  }

  lemma ChromaScaleIs(c: Rgb, l: real, peak: real)
    requires 0.0 <= l < peak
    ensures var s := ChromaScale(c, l, peak);
      && 0.0 <= s <= 1.0
      && s <= ChannelScale(c.r, l, peak) && s <= ChannelScale(c.g, l, peak) && s <= ChannelScale(c.b, l, peak)
  {
    hide ChannelScale;
    ChannelScaleIs(c.r, l, peak);
    ChannelScaleIs(c.g, l, peak);
    ChannelScaleIs(c.b, l, peak);
  }

  /** The color reached has every channel between black and the peak. */
  lemma ReachedInRange(m: Mapping, color: Rgb)
    ensures InRange(Reached(m, color), m.peakNits)
  {
    hide ChannelScale, ChromaScale, Drawn, Relit, MappedLuminance, Luminance, Apply;
    var y := Luminance(m, color);
    var l := MappedLuminance(y, m.peakNits);
    var c := Relit(Apply(m.toTarget, color), y, m.peakNits);
    MappedInRange(y, m.peakNits);
    ChromaScaleIs(c, l, m.peakNits);
    var s := ChromaScale(c, l, m.peakNits);
    DrawnInRange(c.r, l, s, m.peakNits);
    DrawnInRange(c.g, l, s, m.peakNits);
    DrawnInRange(c.b, l, s, m.peakNits);
  }

  lemma RelitLuma(w: Rgb, target: Rgb, peak: real)
    ensures Dot(w, Relit(target, Dot(w, target), peak)) == MappedLuminance(Dot(w, target), peak)
  {
    hide ToneMap, Times;
    var y := Dot(w, target);
    if y > BLACK {
      var s := ToneMap(y, peak) / y;
      hide Dot;
      DotScaled(w, target, s);
      assert y * s == ToneMap(y, peak);
    }
  }

  /** Drawing a color of luma `l` towards the grey of `l` adds what the luma weights sum to beyond 1. */
  lemma DrawnLuma(w: Rgb, c: Rgb, l: real, s: real)
    requires Dot(w, c) == l
    ensures Dot(w, Rgb(Drawn(c.r, l, s), Drawn(c.g, l, s), Drawn(c.b, l, s))) == l + Mul(Mul(l, Sum(w) - 1.0), 1.0 - s)
  {
    var t := Rgb(Drawn(c.r, l, s), Drawn(c.g, l, s), Drawn(c.b, l, s));
    assert Dot(w, t) == l * Sum(w) + s * (Dot(w, c) - l * Sum(w)) by {
      assert w.r * t.r == w.r * l + s * (w.r * c.r - l * w.r);
      assert w.g * t.g == w.g * l + s * (w.g * c.g - l * w.g);
      assert w.b * t.b == w.b * l + s * (w.b * c.b - l * w.b);
    }
    LumaRegroups(l, Sum(w), s);
  }

  lemma LumaRegroups(l: real, sum: real, s: real)
    ensures l * sum + s * (l - l * sum) == l + Mul(Mul(l, sum - 1.0), 1.0 - s)
  {
  }

  lemma ChannelScaleFull(channel: real, l: real, peak: real)
    requires 0.0 < l < peak
    ensures ChannelScale(channel, l, peak) == 1.0 <==> 0.0 <= channel <= peak
    ensures ChannelScale(channel, l, peak) <= 1.0
  {
    if channel < 0.0 {
      QuotientBelowOne(l, l - channel);
    } else if channel > peak {
      QuotientBelowOne(peak - l, channel - l);
    }
  }

  lemma QuotientBelowOne(x: real, y: real)
    requires 0.0 < x < y
    ensures x / y < 1.0
  {
    QuotientInUnit(x, y);
    assert Mul(1.0, y) == y;
  }

  /** Nothing is drawn in exactly if every channel is in range. */
  lemma ChromaScaleFull(c: Rgb, l: real, peak: real)
    requires 0.0 < l < peak
    ensures ChromaScale(c, l, peak) == 1.0 <==> InRange(c, peak)
  {
    hide ChannelScale;
    ChannelScaleFull(c.r, l, peak);
    ChannelScaleFull(c.g, l, peak);
    ChannelScaleFull(c.b, l, peak);
  }

  lemma ExcessIsZero(l: real, k: real, t: real)
    requires 0.0 < l
    ensures l + Mul(Mul(l, k), t) == l <==> k == 0.0 || t == 0.0
  {
  }

  /** The color once its luminance is mapped, before any channel is drawn in, is in range. */
  predicate FitsUndrawn(m: Mapping, color: Rgb) {
    InRange(Relit(Apply(m.toTarget, color), Luminance(m, color), m.peakNits), m.peakNits)
  }

  /**
   The color reached has exactly the luma the tone map gives when it is dark; when it counts as lit, exactly if the luma
   weights sum to 1 or no channel had to be drawn in; and never in the sliver of luminances in between.
  */
  lemma ReachedLuma(m: Mapping, color: Rgb)
    ensures var y := Luminance(m, color);
      Dot(m.targetLuma, Reached(m, color)) == ToneMap(y, m.peakNits) <==>
        y <= 0.0 || (BLACK < y && (Sum(m.targetLuma) == 1.0 || FitsUndrawn(m, color)))
  {
    hide ChannelScale, ChromaScale, Drawn, Relit, MappedLuminance, Apply, Dot, ToneMap, Mul, InRange, Sum;
    var t := Apply(m.toTarget, color);
    var y := Luminance(m, color);
    var l := MappedLuminance(y, m.peakNits);
    var c := Relit(t, y, m.peakNits);
    MappedInRange(y, m.peakNits);
    RelitLuma(m.targetLuma, t, m.peakNits);
    var s := ChromaScale(c, l, m.peakNits);
    DrawnLuma(m.targetLuma, c, l, s);
    if BLACK < y {
      ToneMapRange(y, m.peakNits);
      ChromaScaleFull(c, l, m.peakNits);
      ExcessIsZero(l, Sum(m.targetLuma) - 1.0, 1.0 - s);
    } else {
      DarkIsZero(y, m.peakNits);
      NoExcess(Sum(m.targetLuma) - 1.0, 1.0 - s);
    }
  }

  lemma DarkIsZero(y: real, peak: real)
    requires y <= BLACK && 0.0 < peak
    ensures MappedLuminance(y, peak) == 0.0
    ensures ToneMap(y, peak) == 0.0 <==> y <= 0.0
  {
    hide ToneMap;
    ToneMapRange(y, peak);
  }

  lemma NoExcess(k: real, t: real)
    ensures 0.0 + Mul(Mul(0.0, k), t) == 0.0
  {
  }

  /** Primaries on one line, as a display may report: every coordinate is a multiple of 1/1024. */
  const COLLINEAR :=
    Chromaticities(Point(500000, 500000), Point(500000, 500000), Point(0, 500000), Point(250000, 500000))

  const COLLINEAR_PRIMARIES := FromColumns(Rgb(1.0, 1.0, 0.0), Rgb(1.0, 1.0, 0.0), Rgb(0.0, 1.0, 1.0))

  const COLLINEAR_MATRIX := Matrix(0.5, 1.0, 0.0, 0.5, 1.0, 0.5, 0.0, 0.0, 0.5)

  lemma CollinearColumns()
    ensures Divides(COLLINEAR) && White(COLLINEAR) == Rgb(0.5, 1.0, 0.5)
    ensures Primaries(COLLINEAR) == COLLINEAR_PRIMARIES
  {
    var c := COLLINEAR;
    hide Xyz;
    XyzIs(c.red, Rgb(1.0, 1.0, 0.0));
    XyzIs(c.green, Rgb(1.0, 1.0, 0.0));
    XyzIs(c.blue, Rgb(0.0, 1.0, 1.0));
    XyzIs(c.white, Rgb(0.5, 1.0, 0.5));
  }

  lemma CollinearDeterminants()
    ensures Determinant(COLLINEAR_PRIMARIES) == 0.0
    ensures Determinant(COLLINEAR_MATRIX) == 0.0
  {
    var p, m := COLLINEAR_PRIMARIES, COLLINEAR_MATRIX;
    assert Minor(p.m4, p.m8, p.m5, p.m7) == 1.0 && Minor(p.m3, p.m8, p.m5, p.m6) == 1.0;
    assert Minor(m.m4, m.m8, m.m5, m.m7) == 0.5 && Minor(m.m3, m.m8, m.m5, m.m6) == 0.25;
    hide Minor;
    assert p.m2 == 0.0 && m.m2 == 0.0;
  }

  lemma CollinearScaled()
    ensures ColumnsTimes(COLLINEAR_PRIMARIES, Rgb(0.5, 1.0, 0.5)) == COLLINEAR_MATRIX
  {
    var p := COLLINEAR_PRIMARIES;
    assert Times(Column0(p), 0.5) == Rgb(0.5, 0.5, 0.0);
    assert Times(Column1(p), 1.0) == Rgb(1.0, 1.0, 0.0);
    assert Times(Column2(p), 0.5) == Rgb(0.0, 0.5, 0.5);
    hide Times;
  }

  lemma CollinearMatrix()
    ensures Divides(COLLINEAR) && RgbToXyz(COLLINEAR) == COLLINEAR_MATRIX && Inverse(COLLINEAR_MATRIX) == IDENTITY
  {
    hide Primaries, White, Determinant, FromColumns, ColumnsTimes, Inverse, Apply;
    CollinearColumns();
    CollinearDeterminants();
    CollinearScaled();
    var p := Primaries(COLLINEAR);
    GuardedInverse(p, White(COLLINEAR));
    NoDeterminant(COLLINEAR_MATRIX);
  }

  lemma NoDeterminant(m: Matrix)
    requires Determinant(m) == 0.0
    ensures Inverse(m) == IDENTITY
  {
  }

  const BEYOND := Rgb(-100.0, 100.0, 0.0)

  /** The color an output of collinear primaries sees as less than no red. */
  function Beyond(): Rgb {
    Apply(Inverse(RgbToXyz(BT2020)), BEYOND)
  }

  /** With the night light off, a color of this luminance is reached with another luma than the tone map gives. */
  predicate MissesLuma(output: OutputColor, color: Rgb, luminance: real) {
    Divides(TargetSet(output)) &&
    var m := OutputMapping(output, IDENTITY);
    Luminance(m, color) == luminance && Dot(m.targetLuma, Reached(m, color)) != ToneMap(luminance, m.peakNits)
  }

  /** On collinear primaries, whatever the peak and white level: the weights sum to 2, and red has to be drawn in. */
  lemma LumaMayBeMissed(output: OutputColor)
    requires output.hdr && output.target == COLLINEAR
    ensures MissesLuma(output, Beyond(), 50.0)
  {
    hide RgbToXyz, Inverse, Product, Reached, ToneMap, Peak, Reference, Apply, Relit, InRange;
    CollinearMatrix();
    var scene := RgbToXyz(BT2020);
    var m := OutputMapping(output, IDENTITY);
    IdentityIsNeutral(scene);
    SceneInvertible();
    InverseUndoes(scene, BEYOND);
    assert Apply(m.toTarget, Beyond()) == BEYOND;
    BeyondLuma();
    ReachedLuma(m, Beyond());
    RelitBelow(BEYOND, 50.0, m.peakNits);
  }

  lemma BeyondLuma()
    ensures Dot(Row1(COLLINEAR_MATRIX), BEYOND) == 50.0 && Sum(Row1(COLLINEAR_MATRIX)) == 2.0
  {
  }

  lemma RelitBelow(c: Rgb, y: real, peak: real)
    requires c.r < 0.0 && BLACK < y && 0.0 < peak
    ensures !InRange(Relit(c, y, peak), peak)
  {
    hide ToneMap;
    ToneMapRange(y, peak);
    QuotientIsPositive(ToneMap(y, peak), y);
    ProductIsNegative(c.r, ToneMap(y, peak) / y);
  }

  lemma QuotientIsPositive(x: real, y: real)
    requires 0.0 < x && 0.0 < y
    ensures 0.0 < x / y
  {
  }

  lemma ProductIsNegative(x: real, y: real)
    requires x < 0.0 < y
    ensures x * y < 0.0
  {
  }

  method MapOutputNits(m: Mapping, color: Rgb) returns (result: Rgb)
    ensures result == Mapped(m, color)
  {
    hide Apply, Dot, ToneMap, ChannelScale, Drawn;
    var target := Apply(m.toTarget, color);
    var luminance := Dot(m.targetLuma, target);
    var mapped := ToneMap(luminance, m.peakNits);
    if luminance > BLACK {
      target := Times(target, mapped / luminance);
    } else {
      target := Rgb(0.0, 0.0, 0.0);
      mapped := 0.0;
    }
    MappedInRange(luminance, m.peakNits);
    var channels := [target.r, target.g, target.b];
    var scale := 1.0;
    for i := 0 to 3
      invariant scale == LeastScale(channels[..i], mapped, m.peakNits)
    {
      var channel := channels[i];
      ghost var before := scale;
      if channel < 0.0 {
        scale := Min(scale, mapped / (mapped - channel));
      } else if channel > m.peakNits {
        scale := Min(scale, (m.peakNits - mapped) / (channel - mapped));
      }
      assert channels[..i + 1] == channels[..i] + [channel];
      LeastScaleNext(channels[..i], channel, mapped, m.peakNits);
      ChannelScaleBranches(channel, mapped, m.peakNits);
    }
    assert channels[..3] == channels;
    LeastScaleOfThree(target, mapped, m.peakNits);
    ChromaScaleIs(target, mapped, m.peakNits);
    var clipped := Min(1.0, scale);
    scale := if clipped < 0.0 then 0.0 else clipped;
    target := Rgb(Drawn(target.r, mapped, scale), Drawn(target.g, mapped, scale), Drawn(target.b, mapped, scale));
    result := Apply(m.fromTarget, target);
  }

  function LeastScale(channels: seq<real>, l: real, peak: real): real
    requires 0.0 <= l < peak
  {
    if channels == [] then 1.0 else
      Min(LeastScale(channels[..|channels| - 1], l, peak), ChannelScale(channels[|channels| - 1], l, peak))
  }

  lemma {:induction false} LeastScaleNext(channels: seq<real>, channel: real, l: real, peak: real)
    requires 0.0 <= l < peak
    ensures LeastScale(channels + [channel], l, peak)
         == Min(LeastScale(channels, l, peak), ChannelScale(channel, l, peak))
    ensures LeastScale(channels, l, peak) <= 1.0
  {
    hide ChannelScale;
    assert (channels + [channel])[..|channels|] == channels;
    if channels != [] {
      var n := |channels| - 1;
      LeastScaleNext(channels[..n], channels[n], l, peak);
      assert channels == channels[..n] + [channels[n]];
    }
  }

  lemma ChannelScaleBranches(channel: real, l: real, peak: real)
    requires 0.0 <= l < peak
    ensures channel < 0.0 ==> ChannelScale(channel, l, peak) == l / (l - channel)
    ensures channel > peak ==> ChannelScale(channel, l, peak) == (peak - l) / (channel - l)
    ensures 0.0 <= channel <= peak ==> ChannelScale(channel, l, peak) == 1.0
  {
  }

  lemma LeastScaleOfThree(c: Rgb, l: real, peak: real)
    requires 0.0 <= l < peak
    ensures LeastScale([c.r, c.g, c.b], l, peak) == ChromaScale(c, l, peak)
  {
    hide ChannelScale;
    LeastScaleNext([], c.r, l, peak);
    LeastScaleNext([c.r], c.g, l, peak);
    LeastScaleNext([c.r, c.g], c.b, l, peak);
    ChromaScaleIs(c, l, peak);
    assert [] + [c.r] == [c.r] && [c.r] + [c.g] == [c.r, c.g] && [c.r, c.g] + [c.b] == [c.r, c.g, c.b];
  }

  function Mapped(m: Mapping, color: Rgb): Rgb {
    Apply(m.fromTarget, Reached(m, color))
  }

  /** A color as an output comes to show it, taking it to its own primaries. */
  function Shown(target: Chromaticities, color: Rgb): Rgb
    requires Divides(target)
  {
    Apply(PrimariesTransform(BT2020, target), color)
  }

  lemma ShownIsReached(target: Chromaticities, m: Mapping, color: Rgb)
    requires Divides(target) && m.fromTarget == PrimariesTransform(target, BT2020)
    ensures Invertible(RgbToXyz(target)) ==> Shown(target, Mapped(m, color)) == Reached(m, color)
  {
    hide Reached, Apply, Product, Inverse, RgbToXyz, Invertible;
    if Invertible(RgbToXyz(target)) {
      SceneInvertible();
      TransformUndone(target, BT2020, Reached(m, color));
    }
  }

  /**
   End to end: a mapped color, shown in the primaries of an output whose matrix can be inverted, has every channel
   between black and the peak. Its luma is the one the tone map gives when it is dark; when it counts as lit, exactly if
   the primaries pass the guard, the white is at y = 1, or no channel had to be drawn in. The night light makes no
   difference.
  */
  lemma ShownFits(output: OutputColor, adaptation: Matrix, color: Rgb)
    requires Divides(TargetSet(output))
    ensures var target, m := TargetSet(output), OutputMapping(output, adaptation);
      var shown, y := Shown(target, Mapped(m, color)), Luminance(m, color);
      Invertible(RgbToXyz(target)) ==>
        && InRange(shown, m.peakNits)
        && (Dot(m.targetLuma, shown) == ToneMap(y, m.peakNits) <==>
             y <= 0.0 || (BLACK < y
               && (Invertible(Primaries(target)) || target.white.y == 1000000 || FitsUndrawn(m, color))))
  {
    hide Shown, Mapped, Reached, Product, Inverse, RgbToXyz, Invertible, ToneMap, Dot, Luminance, Primaries, InRange,
      FitsUndrawn, Peak;
    var m := OutputMapping(output, adaptation);
    ShownIsReached(TargetSet(output), m, color);
    ReachedInRange(m, color);
    LumaSumsToOne(TargetSet(output));
    ReachedLuma(m, color);
  }

  // ----- what is left alone -----

  /** The color left once its luminance is mapped and no channel drawn in: itself, dimmed by the tone map. */
  lemma UndrawnIs(m: Mapping, color: Rgb)
    requires BLACK < Luminance(m, color) && FitsUndrawn(m, color)
    ensures var y := Luminance(m, color);
      Reached(m, color) == Times(Apply(m.toTarget, color), ToneMap(y, m.peakNits) / y)
  {
    hide Apply, Dot, ToneMap, Luminance, InRange, ChromaScale, Times;
    var y := Luminance(m, color);
    var l := MappedLuminance(y, m.peakNits);
    var c := Relit(Apply(m.toTarget, color), y, m.peakNits);
    MappedInRange(y, m.peakNits);
    ToneMapRange(y, m.peakNits);
    ChromaScaleFull(c, l, m.peakNits);
  }

  lemma OneTimes(c: Rgb)
    ensures Times(c, 1.0) == c
  {
  }

  /** The light of a color of the scene. */
  function SceneLight(color: Rgb): Rgb {
    Apply(RgbToXyz(BT2020), color)
  }

  /** The light an output makes of a color in its own primaries. */
  function OutputLight(output: OutputColor, color: Rgb): Rgb
    requires Divides(TargetSet(output))
  {
    Apply(RgbToXyz(TargetSet(output)), color)
  }

  /** The light of a color in the target's primaries is its light in the scene, under the night light. */
  lemma ToTargetAdapts(output: OutputColor, adaptation: Matrix, color: Rgb)
    requires Divides(TargetSet(output)) && Invertible(RgbToXyz(TargetSet(output)))
    ensures var m := OutputMapping(output, adaptation);
      OutputLight(output, Apply(m.toTarget, color)) == Apply(adaptation, SceneLight(color))
  {
    hide Apply, Product, Inverse, Invertible, RgbToXyz, Reference, Peak;
    var scene, target := RgbToXyz(BT2020), RgbToXyz(TargetSet(output));
    ProductApplies(Inverse(target), Product(adaptation, scene), color);
    ProductApplies(adaptation, scene, color);
    InverseUndoes(target, Apply(adaptation, Apply(scene, color)));
  }

  /**
   A lit color with every channel in range is shown as the light it is in the scene, adapted by the night light and
   dimmed by the tone map: up to nine tenths of the peak, not dimmed at all.
  */
  lemma InGamutIsExact(output: OutputColor, adaptation: Matrix, color: Rgb)
    requires Divides(TargetSet(output)) && Invertible(RgbToXyz(TargetSet(output)))
    ensures var m := OutputMapping(output, adaptation);
      var y := Luminance(m, color);
      var light, meant := OutputLight(output, Reached(m, color)), Apply(adaptation, SceneLight(color));
      BLACK < y && FitsUndrawn(m, color) ==>
        light == Times(meant, ToneMap(y, m.peakNits) / y) && (y <= m.peakNits * 0.9 ==> light == meant)
  {
    hide Apply, Product, Inverse, Invertible, RgbToXyz, Reference, Peak, Reached, ToneMap, FitsUndrawn, Times,
      Luminance;
    var m, target := OutputMapping(output, adaptation), RgbToXyz(TargetSet(output));
    var y := Luminance(m, color);
    if BLACK < y && FitsUndrawn(m, color) {
      UndrawnIs(m, color);
      ToTargetAdapts(output, adaptation, color);
      ApplyScaled(target, Apply(m.toTarget, color), ToneMap(y, m.peakNits) / y);
      if y <= m.peakNits * 0.9 {
        ToneMapRange(y, m.peakNits);
        OverItself(y);
        OneTimes(Apply(adaptation, SceneLight(color)));
      }
    }
  }

  lemma OverItself(y: real)
    requires y != 0.0
    ensures y / y == 1.0
  {
  }

  /** With the night light off such a color comes out of the mapping as it went in. */
  lemma InGamutIsKept(output: OutputColor, color: Rgb)
    requires Divides(TargetSet(output)) && Invertible(RgbToXyz(TargetSet(output)))
    ensures var m := OutputMapping(output, IDENTITY);
      BLACK < Luminance(m, color) <= m.peakNits * 0.9 && FitsUndrawn(m, color) ==> Mapped(m, color) == color
  {
    hide Apply, Product, Inverse, Invertible, RgbToXyz, Reference, Peak, Reached, ToneMap, FitsUndrawn, Times,
      Luminance;
    var m, scene, target := OutputMapping(output, IDENTITY), RgbToXyz(BT2020), RgbToXyz(TargetSet(output));
    if BLACK < Luminance(m, color) <= m.peakNits * 0.9 && FitsUndrawn(m, color) {
      InGamutIsExact(output, IDENTITY, color);
      IdentityApplies(Apply(scene, color));
      ProductApplies(Inverse(scene), target, Reached(m, color));
      SceneInvertible();
      InverseUndoes(scene, color);
    }
  }

  lemma IdentityApplies(c: Rgb)
    ensures Apply(IDENTITY, c) == c
  {
  }

  /** What the mapping goes by as the luminance of a color is the luma of its light under the night light. */
  lemma LuminanceIsY(output: OutputColor, adaptation: Matrix, color: Rgb)
    requires Divides(TargetSet(output)) && Invertible(RgbToXyz(TargetSet(output)))
    ensures Luminance(OutputMapping(output, adaptation), color) == Apply(adaptation, SceneLight(color)).g
  {
    hide Product, Inverse, Invertible, RgbToXyz, Reference, Peak, Dot, SceneLight;
    ToTargetAdapts(output, adaptation, color);
  }

  // ----- no more is taken than must be -----

  function Between(c: Rgb, l: real, s: real): Rgb {
    Rgb(Drawn(c.r, l, s), Drawn(c.g, l, s), Drawn(c.b, l, s))
  }

  /** Drawn any less far in than its scale says, a channel is out of range. */
  lemma DrawnOut(channel: real, l: real, s: real, peak: real)
    requires 0.0 < l < peak && ChannelScale(channel, l, peak) < s <= 1.0
    ensures !(0.0 <= Drawn(channel, l, s) <= peak)
  {
    hide ChannelScale, Drawn, Mul;
    ChannelScaleIs(channel, l, peak);
    ChannelScaleFull(channel, l, peak);
    DrawnIs(channel, l, s);
    if channel < 0.0 {
      MulGrows(ChannelScale(channel, l, peak), s, l - channel);
    } else {
      MulGrows(ChannelScale(channel, l, peak), s, channel - l);
    }
  }

  /**
   A lit color is drawn towards the grey of its luminance, all channels alike, and no further than must be: any less far
   and a channel is out of range.
  */
  lemma DrawnNoFurther(m: Mapping, color: Rgb)
    requires BLACK < Luminance(m, color)
    ensures var y := Luminance(m, color);
      var l, c := ToneMap(y, m.peakNits), Times(Apply(m.toTarget, color), ToneMap(y, m.peakNits) / y);
      exists s: real :: 0.0 <= s <= 1.0 && Reached(m, color) == Between(c, l, s)
        && forall t: real :: s < t <= 1.0 ==> !InRange(Between(c, l, t), m.peakNits)
  {
    hide Apply, Dot, ToneMap, Luminance, ChannelScale, Times, Drawn;
    var y := Luminance(m, color);
    MappedInRange(y, m.peakNits);
    ToneMapRange(y, m.peakNits);
    var l, c := ToneMap(y, m.peakNits), Times(Apply(m.toTarget, color), ToneMap(y, m.peakNits) / y);
    var s := ChromaScale(c, l, m.peakNits);
    ChromaScaleIs(c, l, m.peakNits);
    forall t: real | s < t <= 1.0 ensures !InRange(Between(c, l, t), m.peakNits) {
      var ch := if s == ChannelScale(c.r, l, m.peakNits) then c.r
        else if s == ChannelScale(c.g, l, m.peakNits) then c.g else c.b;
      DrawnOut(ch, l, t, m.peakNits);
    }
    assert Reached(m, color) == Between(c, l, s);
  }

  /** The tone map reaches every level below the peak. */
  lemma ToneMapReaches(v: real, peak: real) returns (luminance: real)
    requires 0.0 <= v < peak
    ensures 0.0 <= luminance && ToneMap(luminance, peak) == v
  {
    if v <= peak * 0.9 {
      luminance := v;
      ToneMapRange(v, peak);
    } else {
      hide ToneMap;
      var h, s := peak * 0.1, peak - v;
      luminance := peak * 0.9 + (h * h / s - h);
      ReachesFromKnee(h, s);
      ToneMapAboveKnee(luminance, peak);
    }
  }

  lemma ReachesFromKnee(h: real, s: real)
    requires 0.0 < s <= h
    ensures h * h / s >= h && Shortfall(h, h * h / s - h) == s
  {
    var q := h * h / s;
    assert q * s == h * h;
    assert q >= h by {
      if q < h {
        assert Mul(q, s) == Mul(h, h);
        hide Mul;
        MulGrows(s, h, h);
        MulGrows(q, h, s);
        assert false;
      }
    }
    QuotientOf(h * h, q, s);
  }

  lemma QuotientOf(x: real, q: real, s: real)
    requires 0.0 < q && q * s == x
    ensures x / q == s
  {
  }

  lemma SceneInvertible()
    ensures Invertible(RgbToXyz(BT2020))
  {
    hide RgbToXyz, Determinant;
    StandardSetsAreSound();
  }
}
