/** The colour mapping of the overlay shaders: the stretch ratio of an
    accumulated pair, its normalisation against the user's sensitivity, and the
    colour a UV-editor vertex receives. Colour conversion from HSV to RGB is
    left to the GPU and is not modelled; a colour is kept in HSV form. */
module Shading {
  import opened Geometry

  /** Hue of a triangle with no distortion, the red of a flipped one, the
      "draw nothing" sentinel, and the clamp value of a ratio. */
  const ColorBlue: real := 2.0 / 3.0
  const ColorRed: real := 1.0
  const ColorNegative: real := -1.0
  const MinDivision: real := 1.0

  function Max(a: real, b: real): real { if a >= b then a else b }
  function Min(a: real, b: real): real { if a <= b then a else b }

  /** Ratio of the larger to the smaller of two magnitudes, 0 for a degenerate one. */
  function GetDivision(a: real, b: real): (r: real)
    ensures a == 0.0 || b == 0.0 ==> r == 0.0
    ensures a > 0.0 && b > 0.0 ==> r >= 1.0 && r == Max(a, b) / Min(a, b)
  {
    if a == 0.0 || b == 0.0 then 0.0
    else if a > b then
      (if b > 0.0 then RatioAtLeastOne(a, b); a / b else a / b)
    else
      (if a > 0.0 then RatioAtLeastOne(b, a); b / a else b / a)
  }

  lemma RatioAtLeastOne(hi: real, lo: real)
    requires 0.0 < lo <= hi
    ensures hi / lo >= 1.0
  {
    assert (hi / lo) * lo == hi;
  }

  /** The ratio does not depend on the order of its arguments. */
  lemma GetDivisionSymmetric(a: real, b: real)
    ensures GetDivision(a, b) == GetDivision(b, a)
  {
  }

  /** Maps a ratio to a hue: 1 gives blue (2/3), `maxValue` and above give red (0). */
  function NormalizedValue(value: real, maxValue: real): (r: real)
    requires maxValue != MinDivision
    ensures value >= maxValue ==> r == 0.0
    ensures value == MinDivision && maxValue > MinDivision ==> r == ColorBlue
  {
    var clamped := if value > maxValue then maxValue else value;
    DivSelf(maxValue - MinDivision);
    ColorBlue - (clamped - MinDivision) / (maxValue - MinDivision) * ColorBlue
  }

  lemma DivSelf(a: real)
    requires a != 0.0
    ensures a / a == 1.0
  {
    assert (a / a) * a == a;
  }

  /** On [1, maxValue] the hue stays between red and blue. */
  lemma NormalizedValueRange(value: real, maxValue: real)
    requires maxValue > MinDivision && value >= MinDivision
    ensures 0.0 <= NormalizedValue(value, maxValue) <= ColorBlue
  {
    if value < maxValue {
      var t := (value - MinDivision) / (maxValue - MinDivision);
      assert 0.0 <= t <= 1.0 by {
        assert value - MinDivision <= maxValue - MinDivision;
      }
      assert NormalizedValue(value, maxValue) == ColorBlue - t * ColorBlue;
    }
  }

  /** A larger ratio never gives a bluer hue, and strictly redder below the clamp. */
  lemma NormalizedValueDecreasing(v1: real, v2: real, maxValue: real)
    requires maxValue > MinDivision && v1 <= v2
    ensures NormalizedValue(v1, maxValue) >= NormalizedValue(v2, maxValue)
    ensures v1 < v2 <= maxValue ==> NormalizedValue(v1, maxValue) > NormalizedValue(v2, maxValue)
  {
    var c1 := if v1 > maxValue then maxValue else v1;
    var c2 := if v2 > maxValue then maxValue else v2;
    var d := maxValue - MinDivision;
    assert c1 <= c2;
    assert (c1 - MinDivision) / d <= (c2 - MinDivision) / d by {
      assert (c2 - MinDivision) / d - (c1 - MinDivision) / d == (c2 - c1) / d;
    }
    if v1 < v2 <= maxValue {
      assert (c2 - MinDivision) / d - (c1 - MinDivision) / d == (c2 - c1) / d;
      assert (c2 - c1) / d > 0.0;
    }
  }

  /** The scalar a vertex shader turns into a hue: the normalised ratio of the
      pair when a sensitivity is set, the first component otherwise. */
  function ColourScalar(input: Vec2, maxDivision: real): (r: real)
    requires maxDivision > 0.0 ==> maxDivision != MinDivision
    ensures maxDivision <= 0.0 ==> r == input.x
    ensures maxDivision > 0.0 ==> r == NormalizedValue(GetDivision(input.x, input.y), maxDivision)
    ensures maxDivision > MinDivision && input.x > 0.0 && input.y > 0.0 ==> 0.0 <= r <= ColorBlue
    ensures maxDivision > MinDivision && input.x == input.y && input.x > 0.0 ==> r == ColorBlue
  {
    if maxDivision > 0.0 then
      var division := GetDivision(input.x, input.y);
      if maxDivision > MinDivision && input.x > 0.0 && input.y > 0.0 then
        NormalizedValueRange(division, maxDivision);
        NormalizedValue(division, maxDivision)
      else
        NormalizedValue(division, maxDivision)
    else
      input.x
  }

  /** A degenerate pair (one side zero) maps above blue, past the stretch scale. */
  lemma DegeneratePairBeyondBlue(input: Vec2, maxDivision: real)
    requires maxDivision > MinDivision && (input.x == 0.0 || input.y == 0.0)
    ensures ColourScalar(input, maxDivision) > ColorBlue
  {
    assert GetDivision(input.x, input.y) == 0.0;
    assert ColourScalar(input, maxDivision) == ColorBlue + MinDivision / (maxDivision - MinDivision) * ColorBlue;
  }

  /** The sensitivity uniform: the property value for the stretching overlay, 0 otherwise. */
  function MaxDivisionUniform(stretching: bool, maxDivision: real): (r: real)
    requires maxDivision >= 1.01
    ensures r <= 0.0 || r > MinDivision
    ensures r > 0.0 <==> stretching
  {
    if stretching then maxDivision else 0.0
  }

  /** The fractional part, GLSL's `mod(x, 1.0)`. */
  function Fract(x: real): (r: real)
    ensures 0.0 <= r < 1.0
  {
    x - x.Floor as real
  }

  datatype ColourUniforms = ColourUniforms(
    hueShift: real, hueMultiply: real, saturation: real, value: real, alpha: real, maxDivision: real)

  /** A vertex colour in HSV form with its alpha, or the fully transparent vec4(0). */
  datatype TempColour = Transparent | Shaded(hue: real, saturation: real, value: real, alpha: real)

  /** The scalar shifted and scaled by the hue uniforms, before wrapping. */
  function HueArgument(colour: real, u: ColourUniforms): real {
    Scaled(colour, u.hueMultiply) + u.hueShift
  }

  function Scaled(colour: real, hueMultiply: real): real {
    (colour + 0.001) * hueMultiply
  }

  /** The hue the shader derives from a colour scalar. */
  function ShaderHue(colour: real, u: ColourUniforms): (r: real)
    ensures 0.0 <= r < 1.0
  {
    Fract(HueArgument(colour, u))
  }

  /** The fractional part is the one value in [0, 1) that differs from its
      argument by a whole number. */
  lemma FractUnique(x: real, n: int)
    ensures 0.0 <= x - n as real < 1.0 <==> Fract(x) == x - n as real
  {
    var f := x.Floor;
    assert f as real <= x < f as real + 1.0;
    if 0.0 <= x - n as real < 1.0 {
      assert n <= f && f <= n;
    }
  }

  /** The hue is the fractional part of the shifted, scaled scalar: the one
      value in [0, 1) that differs from it by a whole number. */
  lemma ShaderHueIsFraction(colour: real, u: ColourUniforms, n: int)
    ensures 0.0 <= HueArgument(colour, u) - n as real < 1.0 <==> ShaderHue(colour, u) == HueArgument(colour, u) - n as real
  {
    FractUnique(HueArgument(colour, u), n);
  }

  /** Shifting the hue by a whole turn leaves every colour unchanged. */
  lemma ShaderHueWholeTurn(colour: real, u: ColourUniforms)
    ensures ShaderHue(colour, u.(hueShift := u.hueShift + 1.0)) == ShaderHue(colour, u)
  {
    var x := HueArgument(colour, u);
    var n := x.Floor;
    assert HueArgument(colour, u.(hueShift := u.hueShift + 1.0)) == x + 1.0;
    FractUnique(x, n);
    FractUnique(x + 1.0, n + 1);
  }

  /** The UV-editor vertex shader: a negative scalar hides the vertex. */
  function UvVertexColour(input: Vec2, u: ColourUniforms): (r: TempColour)
    requires u.maxDivision > 0.0 ==> u.maxDivision != MinDivision
    ensures r.Transparent? <==> ColourScalar(input, u.maxDivision) < 0.0
    ensures r.Shaded? ==> r.alpha == u.alpha && r.saturation == u.saturation && r.value == u.value
    ensures r.Shaded? ==> 0.0 <= r.hue < 1.0
  {
    var colour := ColourScalar(input, u.maxDivision);
    if colour < 0.0 then Transparent
    else Shaded(ShaderHue(colour, u), u.saturation, u.value, u.alpha)
  }

  /** The "nothing to show" sentinel (-1, 0) is invisible in the UV editor
      whenever no sensitivity is set, which is every overlay but stretching. */
  lemma NegativeSentinelIsTransparent(u: ColourUniforms)
    requires u.maxDivision <= 0.0
    ensures UvVertexColour(Vec2(ColorNegative, 0.0), u) == Transparent
  {
  }
}
