/**
 * The radiometric laws of asterl1t.py: the Earth-Sun distance of the
 * acquisition day (line 157), the conversion of a reprojected digital number
 * to radiance (lines 190-191) and of radiance to top-of-atmosphere reflectance
 * (line 201). Pixel values are reals; NaN is `None`. The cosine and sine of
 * numpy are parameters of which only the range [-1, 1] is known.
 */
module Radiometry {
  import opened Wrappers

  /** A pixel value; `None` is NaN, or a value with no finite meaning. */
  type Sample = Option<real>

  /** A raster band: rows of pixels. */
  type Grid = seq<seq<Sample>>

  /** Two grids have the same rows and the same row lengths. */
  predicate SameShape(a: Grid, b: Grid)
  {
    |a| == |b| && forall i :: 0 <= i < |a| ==> |a[i]| == |b[i]|
  }

  /** `np.pi`: the shortest decimal that rounds to the double nearest pi. */
  const Pi: real := 3.141592653589793

  /** `np.radians` / `np.deg2rad`. */
  function Radians(deg: real): (r: real)
    ensures deg == 180.0 ==> r == Pi
    ensures deg == 90.0 ==> r == Pi / 2.0
    ensures (deg < 0.0 <==> r < 0.0) && (deg == 0.0 <==> r == 0.0)
  {
    deg * Pi / 180.0
  }

  /** Mean orbital eccentricity used by line 157. */
  const Eccentricity: real := 0.01672

  /** Line 157: the Earth-Sun distance in astronomical units on day `doy`;
      with any cosine it stays within one eccentricity of 1. */
  function EarthSunDistance(doy: int, cos: real -> real): (d: real)
    requires forall x :: -1.0 <= cos(x) <= 1.0
    ensures 1.0 - Eccentricity <= d <= 1.0 + Eccentricity
  {
    1.0 - Eccentricity * cos(Radians(0.9856 * (doy - 4) as real))
  }

  /** Lines 190-191 for one pixel: a value exactly 0 is masked to NaN before
      scaling, and any other value `v` becomes `(v - 1) * coef`; NaN, in the
      pixel or in the coefficient, gives NaN. */
  function Radiance(v: Sample, coef: Option<real>): (r: Sample)
    ensures v == Some(0.0) ==> r == None
    ensures coef == None ==> r == None
    ensures r.Some? <==> v.Some? && v.value != 0.0 && coef.Some?
  {
    match v
    case None => None
    case Some(x) =>
      if x == 0.0 then None
      else match coef
        case None => None
        case Some(c) => Some((x - 1.0) * c)
  }

  /** The digital number behind a radiance value: the inverse of the scaling. */
  function DigitalNumber(radiance: real, coef: real): real
    requires coef != 0.0
  {
    radiance / coef + 1.0
  }

  /** A defined radiance determines its digital number: scaling is reversible,
      and the digital number 1 is the zero of radiance. */
  lemma RadianceInverse(v: real, coef: real)
    requires v != 0.0 && coef != 0.0
    ensures Radiance(Some(v), Some(coef)).Some?
    ensures DigitalNumber(Radiance(Some(v), Some(coef)).value, coef) == v
    ensures v == 1.0 <==> Radiance(Some(v), Some(coef)).value == 0.0
  {
    DivideOut(v - 1.0, coef);
  }

  /** With a positive coefficient radiance preserves the order of digital numbers. */
  lemma RadianceMonotone(v1: real, v2: real, coef: real)
    requires v1 != 0.0 && v2 != 0.0 && v1 < v2 && coef > 0.0
    ensures Radiance(Some(v1), Some(coef)).value < Radiance(Some(v2), Some(coef)).value
  {
    assert (v2 - 1.0) * coef - (v1 - 1.0) * coef == (v2 - v1) * coef;
  }

  /** Lines 190-191 on a whole band. */
  function RadianceGrid(g: Grid, coef: Option<real>): (r: Grid)
    ensures SameShape(r, g)
    ensures forall i, j :: 0 <= i < |g| && 0 <= j < |g[i]| ==> r[i][j] == Radiance(g[i][j], coef)
  {
    seq(|g|, i requires 0 <= i < |g| =>
      seq(|g[i]|, j requires 0 <= j < |g[i]| => Radiance(g[i][j], coef)))
  }

  /** A gap in the coefficient table does not raise: it turns the whole band to NaN. */
  lemma UndefinedCoefficientBlanksBand(g: Grid)
    ensures forall i, j :: 0 <= i < |g| && 0 <= j < |g[i]| ==> RadianceGrid(g, None)[i][j] == None
  {
  }

  /** The scene constant of line 201: reflectance = radiance * pi * d^2 / (irradiance * sin(elevation)). */
  function ReflectanceFactor(d: real, irradiance: real, sinElevation: real): real
    requires irradiance * sinElevation != 0.0
  {
    Pi * (d * d) / (irradiance * sinElevation)
  }

  /** Line 201 for one pixel. NaN stays NaN; with the sun at the horizon
      (zero sine) the division has no finite value. */
  function Reflectance(radiance: Sample, d: real, irradiance: real, sinElevation: real): (r: Sample)
    ensures r.Some? <==> radiance.Some? && irradiance * sinElevation != 0.0
  {
    match radiance
    case None => None
    case Some(x) =>
      if irradiance * sinElevation == 0.0 then None
      else Some((Pi * x * (d * d)) / (irradiance * sinElevation))
  }

  /** Reflectance is radiance times one constant of the scene and the band. */
  lemma ReflectanceIsScaledRadiance(x: real, d: real, irradiance: real, sinElevation: real)
    requires irradiance * sinElevation != 0.0
    ensures Reflectance(Some(x), d, irradiance, sinElevation).Some?
    ensures Reflectance(Some(x), d, irradiance, sinElevation).value
            == x * ReflectanceFactor(d, irradiance, sinElevation)
  {
    var q := irradiance * sinElevation;
    var p := Pi * (d * d);
    assert Pi * x * (d * d) == x * p;
    ScaleQuotient(x, p, q);
  }

  /** Reflectance is linear in radiance: scaling the radiance scales the reflectance. */
  lemma ReflectanceLinear(x: real, a: real, d: real, irradiance: real, sinElevation: real)
    requires irradiance * sinElevation != 0.0
    ensures Reflectance(Some(a * x), d, irradiance, sinElevation).value
            == a * Reflectance(Some(x), d, irradiance, sinElevation).value
  {
    var k := ReflectanceFactor(d, irradiance, sinElevation);
    ReflectanceIsScaledRadiance(x, d, irradiance, sinElevation);
    ReflectanceIsScaledRadiance(a * x, d, irradiance, sinElevation);
    assert (a * x) * k == a * (x * k);
  }

  /** For a sun above the horizon, a positive irradiance and a positive distance (as every
      value of `EarthSunDistance` is) the factor is positive, so the radiance can be
      recovered from the reflectance. */
  lemma ReflectanceInverse(x: real, d: real, irradiance: real, sinElevation: real)
    requires irradiance > 0.0 && sinElevation > 0.0 && d > 0.0
    ensures ReflectanceFactor(d, irradiance, sinElevation) > 0.0
    ensures Reflectance(Some(x), d, irradiance, sinElevation).value
            / ReflectanceFactor(d, irradiance, sinElevation) == x
  {
    FactorPositive(d, irradiance, sinElevation);
    ReflectanceIsScaledRadiance(x, d, irradiance, sinElevation);
    DivideOut(x, ReflectanceFactor(d, irradiance, sinElevation));
  }

  /** Line 201 on a whole band. */
  function ReflectanceGrid(g: Grid, d: real, irradiance: real, sinElevation: real): (r: Grid)
    ensures SameShape(r, g)
    ensures forall i, j :: 0 <= i < |g| && 0 <= j < |g[i]| ==>
              r[i][j] == Reflectance(g[i][j], d, irradiance, sinElevation)
  {
    seq(|g|, i requires 0 <= i < |g| =>
      seq(|g[i]|, j requires 0 <= j < |g[i]| => Reflectance(g[i][j], d, irradiance, sinElevation)))
  }

  // Facts of real arithmetic the solver needs pointed out.

  lemma FactorPositive(d: real, irradiance: real, sinElevation: real)
    requires irradiance > 0.0 && sinElevation > 0.0 && d > 0.0
    ensures irradiance * sinElevation > 0.0
    ensures ReflectanceFactor(d, irradiance, sinElevation) > 0.0
  {
    PositiveRatio(d, d, irradiance, sinElevation);
  }

  lemma DivideOut(a: real, c: real)
    requires c != 0.0
    ensures (a * c) / c == a
  {
  }

  lemma ScaleQuotient(a: real, b: real, c: real)
    requires c != 0.0
    ensures (a * b) / c == a * (b / c)
  {
  }

  lemma PositiveRatio(a: real, b: real, c: real, e: real)
    requires a > 0.0 && b > 0.0 && c > 0.0 && e > 0.0
    ensures c * e > 0.0
    ensures Pi * (a * b) / (c * e) > 0.0
  {
    assert a * b > 0.0;
    assert c * e > 0.0;
  }
}
