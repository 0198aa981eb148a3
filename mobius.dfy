/** The arithmetic of js/event-handlers.js: the Moebius increment that
    `updateMobius` builds from two poles and a scale, the stereographic lift
    `mutateToProjective`, and the scale and poles of `handleScroll`.

    A vec4 (x, y, z, w) stands for the point (x + iy) : (z + iw) of the
    Riemann sphere, as in the shader.  A 4x4 matrix laid out from eight
    coefficients a..h acts on it as the complex 2x2 matrix [[A, E], [C, G]]
    with A = a + ib, C = c + id, E = e + if, G = g + ih. */
module Mobius {
  import opened Complex
  import opened Projective
  import opened Matrices

  /** The eight coefficients a..h of `updateMobius`. */
  datatype Coeffs = Coeffs(a: real, b: real, c: real, d: real, e: real, f: real, g: real, h: real)
  {
    function A(): C { C(a, b) }
    function Cc(): C { C(c, d) }
    function E(): C { C(e, f) }
    function G(): C { C(g, h) }
  }

  /** A vec4 read as a homogeneous point. */
  function AsV4(v: Vec4): V4 { V4(v[0], v[1], v[2], v[3]) }

  /** The same point multiplied through by the complex number k. */
  function CScale(k: C, v: V4): V4 { FromPair(CMul(k, v.Num()), CMul(k, v.Den())) }

  /** The coefficients as `updateMobius` computes them. */
  function UpdateCoefficients(pt1: Vec4, pt2: Vec4, scale: real): Coeffs
  {
    CoefficientsOf(pt1[0], pt1[1], pt1[2], pt1[3], pt2[0], pt2[1], pt2[2], pt2[3], scale)
  }

  /** The same, over the components p of `pt1` and q of `pt2` and the scale s. */
  function CoefficientsOf(p0: real, p1: real, p2: real, p3: real, q0: real, q1: real, q2: real, q3: real,
                          s: real): Coeffs
  {
    Coeffs(
      p0 * q2 - p1 * q3 - s * (p2 * q0 - p3 * q1),
      p0 * q3 + p1 * q2 - s * (p2 * q1 + p3 * q0),
      (1.0 - s) * (p2 * q2 - p3 * q3),
      (1.0 - s) * (p2 * q3 + p3 * q2),
      (s - 1.0) * (p0 * q0 - p1 * q1),
      (s - 1.0) * (p0 * q1 + p1 * q0),
      s * (p0 * q2 - p1 * q3) - p2 * q0 - p3 * q1,
      s * (p0 * q3 + p1 * q2) - p2 * q1 + p3 * q0)
  }

  /** The coefficients of the Moebius map that fixes both poles and has
      multiplier `scale` at the second one: as `updateMobius` computes them,
      except that g + ih subtracts D1 * N2 where the code subtracts
      conj(D1) * N2 (the signs of the two `pt1[3]` terms). */
  function IntendedCoefficients(pt1: Vec4, pt2: Vec4, scale: real): Coeffs
  {
    Coeffs(
      pt1[0] * pt2[2] - pt1[1] * pt2[3] - scale * (pt1[2] * pt2[0] - pt1[3] * pt2[1]),
      pt1[0] * pt2[3] + pt1[1] * pt2[2] - scale * (pt1[2] * pt2[1] + pt1[3] * pt2[0]),
      (1.0 - scale) * (pt1[2] * pt2[2] - pt1[3] * pt2[3]),
      (1.0 - scale) * (pt1[2] * pt2[3] + pt1[3] * pt2[2]),
      (scale - 1.0) * (pt1[0] * pt2[0] - pt1[1] * pt2[1]),
      (scale - 1.0) * (pt1[0] * pt2[1] + pt1[1] * pt2[0]),
      scale * (pt1[0] * pt2[2] - pt1[1] * pt2[3]) - (pt1[2] * pt2[0] - pt1[3] * pt2[1]),
      scale * (pt1[0] * pt2[3] + pt1[1] * pt2[2]) - (pt1[2] * pt2[1] + pt1[3] * pt2[0]))
  }

  /** `mat4.fromValues(a, b, c, d, -b, a, -d, c, e, f, g, h, -f, e, -h, g)`. */
  function Layout(k: Coeffs): Mat4
  {
    [k.a, k.b, k.c, k.d, -k.b, k.a, -k.d, k.c, k.e, k.f, k.g, k.h, -k.f, k.e, -k.h, k.g]
  }

  /** The squared distance of the first three components of v from the south
      pole (0, 0, -1): the square of `vec3.dist(v, [0, 0, -1, 0])`. */
  function SouthDistSq(v: Vec4): real
  {
    v[0] * v[0] + v[1] * v[1] + (v[2] + 1.0) * (v[2] + 1.0)
  }

  /** The threshold of `mutateToProjective`: a distance below 1e-5, that is a
      squared distance below 1e-10. */
  const SouthThresholdSq: real := 0.0000000001

  /** What `mutateToProjective` writes into v, before `vec4.normalize`: the
      point at infinity near the south pole, the stereographic lift
      (x, y, 1 + z, 0) everywhere else. */
  function Lift(v: Vec4): Vec4
  {
    if SouthDistSq(v) < SouthThresholdSq then [1.0, 0.0, 0.0, 0.0]
    else [v[0], v[1], 1.0 + v[2], 0.0]
  }

  /** `mutateToProjective(v)`, in place, without the final normalisation. */
  method MutateToProjective(v: array<real>)
    requires v.Length == 4
    modifies v
    ensures v[..] == Lift(old(v[..]))
  {
    if v[0] * v[0] + v[1] * v[1] + (v[2] + 1.0) * (v[2] + 1.0) < 0.0000000001 {
      v[0], v[1], v[2], v[3] := 1.0, 0.0, 0.0, 0.0;
      return;
    }
    v[0], v[1], v[2], v[3] := v[0], v[1], 1.0 + v[2], 0.0;
  }

  /** `scale = 1.0 + event.deltaY * 0.001`. */
  function ScrollScale(deltaY: real): real
  {
    1.0 + deltaY * 0.001
  }

  /** The two poles of `handleScroll`: the view's north and south poles
      (0, 0, 1, 0) and (0, 0, -1, 0) carried back by the inverse rotation and
      lifted to homogeneous coordinates. */
  function ScrollPoles(invLocal: Mat4): (Vec4, Vec4)
  {
    (Lift(TransformVec4(invLocal, [0.0, 0.0, 1.0, 0.0])),
     Lift(TransformVec4(invLocal, [0.0, 0.0, -1.0, 0.0])))
  }

  /** The matrix `handleScroll` right-multiplies into the Moebius accumulator. */
  function ScrollIncrement(invLocal: Mat4, deltaY: real): Mat4
  {
    var (north, south) := ScrollPoles(invLocal);
    Layout(UpdateCoefficients(north, south, ScrollScale(deltaY)))
  }

  // The layout acts as a complex 2x2 matrix.

  /** The four rows of `Layout(k)` applied to v. */
  lemma {:induction false} LayoutRows(k: Coeffs, v: Vec4)
    ensures var t := TransformVec4(Layout(k), v);
      && t[0] == k.a * v[0] - k.b * v[1] + k.e * v[2] - k.f * v[3]
      && t[1] == k.b * v[0] + k.a * v[1] + k.f * v[2] + k.e * v[3]
      && t[2] == k.c * v[0] - k.d * v[1] + k.g * v[2] - k.h * v[3]
      && t[3] == k.d * v[0] + k.c * v[1] + k.h * v[2] + k.g * v[3]
  {
    LayoutRow0(k, v);
    LayoutRow1(k, v);
    LayoutRow2(k, v);
    LayoutRow3(k, v);
  }

  lemma LayoutRow0(k: Coeffs, v: Vec4)
    ensures TransformVec4(Layout(k), v)[0] == k.a * v[0] - k.b * v[1] + k.e * v[2] - k.f * v[3]
  {
    NegTimes(k.b, v[1]);
    NegTimes(k.f, v[3]);
  }

  lemma LayoutRow1(k: Coeffs, v: Vec4)
    ensures TransformVec4(Layout(k), v)[1] == k.b * v[0] + k.a * v[1] + k.f * v[2] + k.e * v[3]
  {
  }

  lemma LayoutRow2(k: Coeffs, v: Vec4)
    ensures TransformVec4(Layout(k), v)[2] == k.c * v[0] - k.d * v[1] + k.g * v[2] - k.h * v[3]
  {
    NegTimes(k.d, v[1]);
    NegTimes(k.h, v[3]);
  }

  lemma LayoutRow3(k: Coeffs, v: Vec4)
    ensures TransformVec4(Layout(k), v)[3] == k.d * v[0] + k.c * v[1] + k.h * v[2] + k.g * v[3]
  {
  }

  lemma NegTimes(x: real, y: real)
    ensures (-x) * y == -(x * y)
  {
  }

  /** `Layout(k)` sends (N : D) to (A N + E D : C N + G D). */
  lemma {:induction false} LayoutActs(k: Coeffs, v: Vec4)
    ensures AsV4(TransformVec4(Layout(k), v))
         == FromPair(CAdd(CMul(k.A(), AsV4(v).Num()), CMul(k.E(), AsV4(v).Den())),
                     CAdd(CMul(k.Cc(), AsV4(v).Num()), CMul(k.G(), AsV4(v).Den())))
  {
    LayoutRows(k, v);
    ComplexRows(k, v);
  }

  /** Each row pair of the layout is a complex multiply-add. */
  lemma ComplexRows(k: Coeffs, v: Vec4)
    ensures CAdd(CMul(k.A(), AsV4(v).Num()), CMul(k.E(), AsV4(v).Den()))
         == C(k.a * v[0] - k.b * v[1] + k.e * v[2] - k.f * v[3], k.b * v[0] + k.a * v[1] + k.f * v[2] + k.e * v[3])
    ensures CAdd(CMul(k.Cc(), AsV4(v).Num()), CMul(k.G(), AsV4(v).Den()))
         == C(k.c * v[0] - k.d * v[1] + k.g * v[2] - k.h * v[3], k.d * v[0] + k.c * v[1] + k.h * v[2] + k.g * v[3])
  {
    assert AsV4(v).Num() == C(v[0], v[1]) && AsV4(v).Den() == C(v[2], v[3]);
    MultiplyAdd(k.a, k.b, k.e, k.f, v[0], v[1], v[2], v[3]);
    MultiplyAdd(k.c, k.d, k.g, k.h, v[0], v[1], v[2], v[3]);
  }

  /** (p + iq)(x + iy) + (r + is)(z + iw), written out. */
  lemma MultiplyAdd(p: real, q: real, r: real, s: real, x: real, y: real, z: real, w: real)
    ensures CAdd(CMul(C(p, q), C(x, y)), CMul(C(r, s), C(z, w)))
         == C(p * x - q * y + r * z - s * w, q * x + p * y + s * z + r * w)
  {
  }

  /** Every increment has the block-complex form, so the accumulator keeps it. */
  lemma LayoutBlockComplex(k: Coeffs)
    ensures BlockComplex(Layout(k))
  {
  }

  // The intended map fixes both poles.

  /** The intended increment maps the first pole to itself, multiplied
      through by kappa = N1 D2 - D1 N2 ... */
  lemma {:induction false} IntendedFixesFirstPole(pt1: Vec4, pt2: Vec4, scale: real)
    ensures var kappa := CSub(CMul(AsV4(pt1).Num(), AsV4(pt2).Den()), CMul(AsV4(pt1).Den(), AsV4(pt2).Num()));
      AsV4(TransformVec4(Layout(IntendedCoefficients(pt1, pt2, scale)), pt1)) == CScale(kappa, AsV4(pt1))
  {
    var k := IntendedCoefficients(pt1, pt2, scale);
    var kappa := CSub(CMul(AsV4(pt1).Num(), AsV4(pt2).Den()), CMul(AsV4(pt1).Den(), AsV4(pt2).Num()));
    IntendedFields(pt1, pt2, scale);
    KappaParts(pt1, pt2);
    FirstPoleRow0(k, kappa, pt1, pt2, scale);
    FirstPoleRow1(k, kappa, pt1, pt2, scale);
    FirstPoleRow2(k, kappa, pt1, pt2, scale);
    FirstPoleRow3(k, kappa, pt1, pt2, scale);
    MapsToMultiple(k, kappa, pt1);
  }

  /** ... and the second pole to itself, multiplied through by scale * kappa. */
  lemma {:induction false} IntendedFixesSecondPole(pt1: Vec4, pt2: Vec4, scale: real)
    ensures var kappa := CSub(CMul(AsV4(pt1).Num(), AsV4(pt2).Den()), CMul(AsV4(pt1).Den(), AsV4(pt2).Num()));
      AsV4(TransformVec4(Layout(IntendedCoefficients(pt1, pt2, scale)), pt2))
        == CScale(CMul(C(scale, 0.0), kappa), AsV4(pt2))
  {
    var k := IntendedCoefficients(pt1, pt2, scale);
    var kappa := CSub(CMul(AsV4(pt1).Num(), AsV4(pt2).Den()), CMul(AsV4(pt1).Den(), AsV4(pt2).Num()));
    IntendedFields(pt1, pt2, scale);
    KappaParts(pt1, pt2);
    var m := CMul(C(scale, 0.0), kappa);
    RealTimes(scale, kappa);
    SecondPoleRow0(k, kappa, m, pt1, pt2, scale);
    SecondPoleRow1(k, kappa, m, pt1, pt2, scale);
    SecondPoleRow2(k, kappa, m, pt1, pt2, scale);
    SecondPoleRow3(k, kappa, m, pt1, pt2, scale);
    MapsToMultiple(k, m, pt2);
  }

  /** Multiplying by the real number s + 0i scales both parts. */
  lemma RealTimes(s: real, z: C)
    ensures CMul(C(s, 0.0), z) == C(s * z.re, s * z.im)
  {
  }

  /** The fields of `IntendedCoefficients`, one by one. */
  lemma IntendedFields(v: Vec4, w: Vec4, scale: real)
    ensures IntendedCoefficients(v, w, scale).a == v[0] * w[2] - v[1] * w[3] - scale * (v[2] * w[0] - v[3] * w[1])
    ensures IntendedCoefficients(v, w, scale).b == v[0] * w[3] + v[1] * w[2] - scale * (v[2] * w[1] + v[3] * w[0])
    ensures IntendedCoefficients(v, w, scale).c == (1.0 - scale) * (v[2] * w[2] - v[3] * w[3])
    ensures IntendedCoefficients(v, w, scale).d == (1.0 - scale) * (v[2] * w[3] + v[3] * w[2])
    ensures IntendedCoefficients(v, w, scale).e == (scale - 1.0) * (v[0] * w[0] - v[1] * w[1])
    ensures IntendedCoefficients(v, w, scale).f == (scale - 1.0) * (v[0] * w[1] + v[1] * w[0])
    ensures IntendedCoefficients(v, w, scale).g == scale * (v[0] * w[2] - v[1] * w[3]) - (v[2] * w[0] - v[3] * w[1])
    ensures IntendedCoefficients(v, w, scale).h == scale * (v[0] * w[3] + v[1] * w[2]) - (v[2] * w[1] + v[3] * w[0])
  {
  }

  /** If the four rows of `Layout(k)` send v to m times v, the increment maps
      v to `CScale(m, v)`. */
  lemma {:induction false} MapsToMultiple(k: Coeffs, m: C, v: Vec4)
    requires k.a * v[0] - k.b * v[1] + k.e * v[2] - k.f * v[3] == m.re * v[0] - m.im * v[1]
    requires k.b * v[0] + k.a * v[1] + k.f * v[2] + k.e * v[3] == m.re * v[1] + m.im * v[0]
    requires k.c * v[0] - k.d * v[1] + k.g * v[2] - k.h * v[3] == m.re * v[2] - m.im * v[3]
    requires k.d * v[0] + k.c * v[1] + k.h * v[2] + k.g * v[3] == m.re * v[3] + m.im * v[2]
    ensures AsV4(TransformVec4(Layout(k), v)) == CScale(m, AsV4(v))
  {
    LayoutRows(k, v);
    CScaleParts(m, v);
  }

  /** `CScale` on a vec4, written out. */
  lemma CScaleParts(m: C, v: Vec4)
    ensures CScale(m, AsV4(v))
         == V4(m.re * v[0] - m.im * v[1], m.re * v[1] + m.im * v[0], m.re * v[2] - m.im * v[3], m.re * v[3] + m.im * v[2])
  {
  }

  // The polynomial identities behind the two lemmas above, one row at a time:
  // with the coefficients and kappa given by their components, row r of the
  // intended increment sends the pole to the multiple of its own entries.

  lemma {:induction false} FirstPoleRow0(k: Coeffs, kappa: C, v: Vec4, w: Vec4, scale: real)
    requires k.a == v[0] * w[2] - v[1] * w[3] - scale * (v[2] * w[0] - v[3] * w[1])
    requires k.b == v[0] * w[3] + v[1] * w[2] - scale * (v[2] * w[1] + v[3] * w[0])
    requires k.e == (scale - 1.0) * (v[0] * w[0] - v[1] * w[1])
    requires k.f == (scale - 1.0) * (v[0] * w[1] + v[1] * w[0])
    requires kappa.re == v[0] * w[2] - v[1] * w[3] - (v[2] * w[0] - v[3] * w[1])
    requires kappa.im == v[0] * w[3] + v[1] * w[2] - (v[2] * w[1] + v[3] * w[0])
    ensures k.a * v[0] - k.b * v[1] + k.e * v[2] - k.f * v[3] == kappa.re * v[0] - kappa.im * v[1]
  {
    FirstTopIdentity(k.a, k.b, k.e, k.f, kappa.re, kappa.im, v[0], v[1], v[2], v[3], w[0], w[1], w[2], w[3], scale);
  }

  lemma {:induction false} FirstPoleRow1(k: Coeffs, kappa: C, v: Vec4, w: Vec4, scale: real)
    requires k.a == v[0] * w[2] - v[1] * w[3] - scale * (v[2] * w[0] - v[3] * w[1])
    requires k.b == v[0] * w[3] + v[1] * w[2] - scale * (v[2] * w[1] + v[3] * w[0])
    requires k.e == (scale - 1.0) * (v[0] * w[0] - v[1] * w[1])
    requires k.f == (scale - 1.0) * (v[0] * w[1] + v[1] * w[0])
    requires kappa.re == v[0] * w[2] - v[1] * w[3] - (v[2] * w[0] - v[3] * w[1])
    requires kappa.im == v[0] * w[3] + v[1] * w[2] - (v[2] * w[1] + v[3] * w[0])
    ensures k.b * v[0] + k.a * v[1] + k.f * v[2] + k.e * v[3] == kappa.re * v[1] + kappa.im * v[0]
  {
    FirstTopIdentity(k.a, k.b, k.e, k.f, kappa.re, kappa.im, v[0], v[1], v[2], v[3], w[0], w[1], w[2], w[3], scale);
  }

  lemma {:induction false} FirstPoleRow2(k: Coeffs, kappa: C, v: Vec4, w: Vec4, scale: real)
    requires k.c == (1.0 - scale) * (v[2] * w[2] - v[3] * w[3])
    requires k.d == (1.0 - scale) * (v[2] * w[3] + v[3] * w[2])
    requires k.g == scale * (v[0] * w[2] - v[1] * w[3]) - (v[2] * w[0] - v[3] * w[1])
    requires k.h == scale * (v[0] * w[3] + v[1] * w[2]) - (v[2] * w[1] + v[3] * w[0])
    requires kappa.re == v[0] * w[2] - v[1] * w[3] - (v[2] * w[0] - v[3] * w[1])
    requires kappa.im == v[0] * w[3] + v[1] * w[2] - (v[2] * w[1] + v[3] * w[0])
    ensures k.c * v[0] - k.d * v[1] + k.g * v[2] - k.h * v[3] == kappa.re * v[2] - kappa.im * v[3]
  {
    FirstBottomIdentity(k.c, k.d, k.g, k.h, kappa.re, kappa.im, v[0], v[1], v[2], v[3], w[0], w[1], w[2], w[3], scale);
  }

  lemma {:induction false} FirstPoleRow3(k: Coeffs, kappa: C, v: Vec4, w: Vec4, scale: real)
    requires k.c == (1.0 - scale) * (v[2] * w[2] - v[3] * w[3])
    requires k.d == (1.0 - scale) * (v[2] * w[3] + v[3] * w[2])
    requires k.g == scale * (v[0] * w[2] - v[1] * w[3]) - (v[2] * w[0] - v[3] * w[1])
    requires k.h == scale * (v[0] * w[3] + v[1] * w[2]) - (v[2] * w[1] + v[3] * w[0])
    requires kappa.re == v[0] * w[2] - v[1] * w[3] - (v[2] * w[0] - v[3] * w[1])
    requires kappa.im == v[0] * w[3] + v[1] * w[2] - (v[2] * w[1] + v[3] * w[0])
    ensures k.d * v[0] + k.c * v[1] + k.h * v[2] + k.g * v[3] == kappa.re * v[3] + kappa.im * v[2]
  {
    FirstBottomIdentity(k.c, k.d, k.g, k.h, kappa.re, kappa.im, v[0], v[1], v[2], v[3], w[0], w[1], w[2], w[3], scale);
  }

  lemma {:induction false} SecondPoleRow0(k: Coeffs, kappa: C, m: C, v: Vec4, w: Vec4, scale: real)
    requires k.a == v[0] * w[2] - v[1] * w[3] - scale * (v[2] * w[0] - v[3] * w[1])
    requires k.b == v[0] * w[3] + v[1] * w[2] - scale * (v[2] * w[1] + v[3] * w[0])
    requires k.e == (scale - 1.0) * (v[0] * w[0] - v[1] * w[1])
    requires k.f == (scale - 1.0) * (v[0] * w[1] + v[1] * w[0])
    requires kappa.re == v[0] * w[2] - v[1] * w[3] - (v[2] * w[0] - v[3] * w[1])
    requires kappa.im == v[0] * w[3] + v[1] * w[2] - (v[2] * w[1] + v[3] * w[0])
    requires m == C(scale * kappa.re, scale * kappa.im)
    ensures k.a * w[0] - k.b * w[1] + k.e * w[2] - k.f * w[3] == m.re * w[0] - m.im * w[1]
  {
    SecondTopIdentity(k.a, k.b, k.e, k.f, kappa.re, kappa.im, v[0], v[1], v[2], v[3], w[0], w[1], w[2], w[3], scale);
  }

  lemma {:induction false} SecondPoleRow1(k: Coeffs, kappa: C, m: C, v: Vec4, w: Vec4, scale: real)
    requires k.a == v[0] * w[2] - v[1] * w[3] - scale * (v[2] * w[0] - v[3] * w[1])
    requires k.b == v[0] * w[3] + v[1] * w[2] - scale * (v[2] * w[1] + v[3] * w[0])
    requires k.e == (scale - 1.0) * (v[0] * w[0] - v[1] * w[1])
    requires k.f == (scale - 1.0) * (v[0] * w[1] + v[1] * w[0])
    requires kappa.re == v[0] * w[2] - v[1] * w[3] - (v[2] * w[0] - v[3] * w[1])
    requires kappa.im == v[0] * w[3] + v[1] * w[2] - (v[2] * w[1] + v[3] * w[0])
    requires m == C(scale * kappa.re, scale * kappa.im)
    ensures k.b * w[0] + k.a * w[1] + k.f * w[2] + k.e * w[3] == m.re * w[1] + m.im * w[0]
  {
    SecondTopIdentity(k.a, k.b, k.e, k.f, kappa.re, kappa.im, v[0], v[1], v[2], v[3], w[0], w[1], w[2], w[3], scale);
  }

  lemma {:induction false} SecondPoleRow2(k: Coeffs, kappa: C, m: C, v: Vec4, w: Vec4, scale: real)
    requires k.c == (1.0 - scale) * (v[2] * w[2] - v[3] * w[3])
    requires k.d == (1.0 - scale) * (v[2] * w[3] + v[3] * w[2])
    requires k.g == scale * (v[0] * w[2] - v[1] * w[3]) - (v[2] * w[0] - v[3] * w[1])
    requires k.h == scale * (v[0] * w[3] + v[1] * w[2]) - (v[2] * w[1] + v[3] * w[0])
    requires kappa.re == v[0] * w[2] - v[1] * w[3] - (v[2] * w[0] - v[3] * w[1])
    requires kappa.im == v[0] * w[3] + v[1] * w[2] - (v[2] * w[1] + v[3] * w[0])
    requires m == C(scale * kappa.re, scale * kappa.im)
    ensures k.c * w[0] - k.d * w[1] + k.g * w[2] - k.h * w[3] == m.re * w[2] - m.im * w[3]
  {
    SecondBottomIdentity(k.c, k.d, k.g, k.h, kappa.re, kappa.im, v[0], v[1], v[2], v[3], w[0], w[1], w[2], w[3], scale);
  }

  lemma {:induction false} SecondPoleRow3(k: Coeffs, kappa: C, m: C, v: Vec4, w: Vec4, scale: real)
    requires k.c == (1.0 - scale) * (v[2] * w[2] - v[3] * w[3])
    requires k.d == (1.0 - scale) * (v[2] * w[3] + v[3] * w[2])
    requires k.g == scale * (v[0] * w[2] - v[1] * w[3]) - (v[2] * w[0] - v[3] * w[1])
    requires k.h == scale * (v[0] * w[3] + v[1] * w[2]) - (v[2] * w[1] + v[3] * w[0])
    requires kappa.re == v[0] * w[2] - v[1] * w[3] - (v[2] * w[0] - v[3] * w[1])
    requires kappa.im == v[0] * w[3] + v[1] * w[2] - (v[2] * w[1] + v[3] * w[0])
    requires m == C(scale * kappa.re, scale * kappa.im)
    ensures k.d * w[0] + k.c * w[1] + k.h * w[2] + k.g * w[3] == m.re * w[3] + m.im * w[2]
  {
    SecondBottomIdentity(k.c, k.d, k.g, k.h, kappa.re, kappa.im, v[0], v[1], v[2], v[3], w[0], w[1], w[2], w[3], scale);
  }

  /** kappa = N1 D2 - D1 N2, written out. */
  lemma KappaParts(v: Vec4, w: Vec4)
    ensures CSub(CMul(AsV4(v).Num(), AsV4(w).Den()), CMul(AsV4(v).Den(), AsV4(w).Num()))
         == C(v[0] * w[2] - v[1] * w[3] - (v[2] * w[0] - v[3] * w[1]),
              v[0] * w[3] + v[1] * w[2] - (v[2] * w[1] + v[3] * w[0]))
  {
  }

  // The same identities over plain reals: p are the components of the first
  // pole, q those of the second, kr + i ki is kappa.

  lemma FirstTopIdentity(a: real, b: real, e: real, f: real, kr: real, ki: real,
      p0: real, p1: real, p2: real, p3: real, q0: real, q1: real, q2: real, q3: real, s: real)
    requires a == p0 * q2 - p1 * q3 - s * (p2 * q0 - p3 * q1)
    requires b == p0 * q3 + p1 * q2 - s * (p2 * q1 + p3 * q0)
    requires e == (s - 1.0) * (p0 * q0 - p1 * q1)
    requires f == (s - 1.0) * (p0 * q1 + p1 * q0)
    requires kr == p0 * q2 - p1 * q3 - (p2 * q0 - p3 * q1)
    requires ki == p0 * q3 + p1 * q2 - (p2 * q1 + p3 * q0)
    ensures a * p0 - b * p1 + e * p2 - f * p3 == kr * p0 - ki * p1
    ensures b * p0 + a * p1 + f * p2 + e * p3 == kr * p1 + ki * p0
  {
    RowEq(a, b, e, f, p0 * q2 - p1 * q3 - s * (p2 * q0 - p3 * q1), p0 * q3 + p1 * q2 - s * (p2 * q1 + p3 * q0),
          (s - 1.0) * (p0 * q0 - p1 * q1), (s - 1.0) * (p0 * q1 + p1 * q0),
          p0, p1, p2, p3);
  }

  lemma FirstBottomIdentity(c: real, d: real, g: real, h: real, kr: real, ki: real,
      p0: real, p1: real, p2: real, p3: real, q0: real, q1: real, q2: real, q3: real, s: real)
    requires c == (1.0 - s) * (p2 * q2 - p3 * q3)
    requires d == (1.0 - s) * (p2 * q3 + p3 * q2)
    requires g == s * (p0 * q2 - p1 * q3) - (p2 * q0 - p3 * q1)
    requires h == s * (p0 * q3 + p1 * q2) - (p2 * q1 + p3 * q0)
    requires kr == p0 * q2 - p1 * q3 - (p2 * q0 - p3 * q1)
    requires ki == p0 * q3 + p1 * q2 - (p2 * q1 + p3 * q0)
    ensures c * p0 - d * p1 + g * p2 - h * p3 == kr * p2 - ki * p3
    ensures d * p0 + c * p1 + h * p2 + g * p3 == kr * p3 + ki * p2
  {
    RowEq(c, d, g, h, (1.0 - s) * (p2 * q2 - p3 * q3), (1.0 - s) * (p2 * q3 + p3 * q2),
          s * (p0 * q2 - p1 * q3) - (p2 * q0 - p3 * q1), s * (p0 * q3 + p1 * q2) - (p2 * q1 + p3 * q0),
          p0, p1, p2, p3);
  }

  lemma SecondTopIdentity(a: real, b: real, e: real, f: real, kr: real, ki: real,
      p0: real, p1: real, p2: real, p3: real, q0: real, q1: real, q2: real, q3: real, s: real)
    requires a == p0 * q2 - p1 * q3 - s * (p2 * q0 - p3 * q1)
    requires b == p0 * q3 + p1 * q2 - s * (p2 * q1 + p3 * q0)
    requires e == (s - 1.0) * (p0 * q0 - p1 * q1)
    requires f == (s - 1.0) * (p0 * q1 + p1 * q0)
    requires kr == p0 * q2 - p1 * q3 - (p2 * q0 - p3 * q1)
    requires ki == p0 * q3 + p1 * q2 - (p2 * q1 + p3 * q0)
    ensures a * q0 - b * q1 + e * q2 - f * q3 == (s * kr) * q0 - (s * ki) * q1
    ensures b * q0 + a * q1 + f * q2 + e * q3 == (s * kr) * q1 + (s * ki) * q0
  {
    RowEq(a, b, e, f, p0 * q2 - p1 * q3 - s * (p2 * q0 - p3 * q1), p0 * q3 + p1 * q2 - s * (p2 * q1 + p3 * q0),
          (s - 1.0) * (p0 * q0 - p1 * q1), (s - 1.0) * (p0 * q1 + p1 * q0),
          q0, q1, q2, q3);
  }

  lemma SecondBottomIdentity(c: real, d: real, g: real, h: real, kr: real, ki: real,
      p0: real, p1: real, p2: real, p3: real, q0: real, q1: real, q2: real, q3: real, s: real)
    requires c == (1.0 - s) * (p2 * q2 - p3 * q3)
    requires d == (1.0 - s) * (p2 * q3 + p3 * q2)
    requires g == s * (p0 * q2 - p1 * q3) - (p2 * q0 - p3 * q1)
    requires h == s * (p0 * q3 + p1 * q2) - (p2 * q1 + p3 * q0)
    requires kr == p0 * q2 - p1 * q3 - (p2 * q0 - p3 * q1)
    requires ki == p0 * q3 + p1 * q2 - (p2 * q1 + p3 * q0)
    ensures c * q0 - d * q1 + g * q2 - h * q3 == (s * kr) * q2 - (s * ki) * q3
    ensures d * q0 + c * q1 + h * q2 + g * q3 == (s * kr) * q3 + (s * ki) * q2
  {
    RowEq(c, d, g, h, (1.0 - s) * (p2 * q2 - p3 * q3), (1.0 - s) * (p2 * q3 + p3 * q2),
          s * (p0 * q2 - p1 * q3) - (p2 * q0 - p3 * q1), s * (p0 * q3 + p1 * q2) - (p2 * q1 + p3 * q0),
          q0, q1, q2, q3);
  }

  /** Equal coefficients give equal rows (a rewriting step the solver does
      not take inside products on its own). */
  lemma RowEq(a: real, b: real, e: real, f: real, a': real, b': real, e': real, f': real,
              x: real, y: real, z: real, w: real)
    requires a == a' && b == b' && e == e' && f == f'
    ensures a * x - b * y + e * z - f * w == a' * x - b' * y + e' * z - f' * w
    ensures b * x + a * y + f * z + e * w == b' * x + a' * y + f' * z + e' * w
  {
  }

  /** A point multiplied through by a nonzero complex number is the same point. */
  lemma {:induction false} RepresentsCScaled(v: V4, z: C, k: C)
    requires k != Zero
    ensures Represents(CScale(k, v), z) <==> Represents(v, z)
  {
    var s := CScale(k, v);
    assert s.Num() == CMul(k, v.Num()) && s.Den() == CMul(k, v.Den());
    if v.Den() != Zero { CMulNonzero(k, v.Den()); }
    if s.Den() != Zero { assert v.Den() != Zero; }
    calc {
      CMul(z, CMul(k, v.Den()));
      { CMulAssoc(z, k, v.Den()); CMulComm(z, k); CMulAssoc(k, z, v.Den()); }
      CMul(k, CMul(z, v.Den()));
    }
    if CMul(k, CMul(z, v.Den())) == CMul(k, v.Num()) {
      CDivUndoesCMul(CMul(z, v.Den()), k);
      CDivUndoesCMul(v.Num(), k);
      CMulComm(k, CMul(z, v.Den()));
      CMulComm(k, v.Num());
    }
  }

  // The code as written, compared with the intended map.

  /** The two agree whenever the first pole has a real denominator, w = 0;
      `handleScroll` only ever passes such a first pole (`ScrollUsesIntendedMap`). */
  lemma AsWrittenAgreesWhenRealDenominator(pt1: Vec4, pt2: Vec4, scale: real)
    requires pt1[3] == 0.0
    ensures UpdateCoefficients(pt1, pt2, scale) == IntendedCoefficients(pt1, pt2, scale)
  {
  }

  /** As written the first pole (N1 : D1) goes to (kappa N1 : kappa D1 + 2 i w1 N2 D1),
      where w1 = pt1[3] and kappa = N1 D2 - D1 N2: the extra term, absent from the
      intended map, vanishes exactly when w1 N2 D1 = 0. */
  lemma {:induction false} AsWrittenFirstPoleImage(pt1: Vec4, pt2: Vec4, scale: real)
    ensures var kappa := CSub(CMul(AsV4(pt1).Num(), AsV4(pt2).Den()), CMul(AsV4(pt1).Den(), AsV4(pt2).Num()));
      AsV4(TransformVec4(Layout(UpdateCoefficients(pt1, pt2, scale)), pt1))
        == FromPair(CMul(kappa, AsV4(pt1).Num()),
                    CAdd(CMul(kappa, AsV4(pt1).Den()),
                         CMul(CMul(C(0.0, 2.0 * pt1[3]), AsV4(pt2).Num()), AsV4(pt1).Den())))
  {
    var ki := IntendedCoefficients(pt1, pt2, scale);
    var delta := CMul(C(0.0, 2.0 * pt1[3]), AsV4(pt2).Num());
    AsWrittenPerturbsIntended(pt1, pt2, scale);
    PerturbedBottomRows(ki, delta.re, delta.im, pt1);
    IntendedFixesFirstPole(pt1, pt2, scale);
  }

  /** As written, g and h differ from the intended ones by the complex
      number 2 i w1 N2. */
  lemma AsWrittenPerturbsIntended(pt1: Vec4, pt2: Vec4, scale: real)
    ensures var delta := CMul(C(0.0, 2.0 * pt1[3]), AsV4(pt2).Num());
      var ki := IntendedCoefficients(pt1, pt2, scale);
      UpdateCoefficients(pt1, pt2, scale) == ki.(g := ki.g + delta.re, h := ki.h + delta.im)
  {
  }

  /** Adding dg + i dh to the bottom-right block adds (dg + i dh) D to the
      image's denominator. */
  lemma PerturbedBottomRows(k: Coeffs, dg: real, dh: real, v: Vec4)
    ensures AsV4(TransformVec4(Layout(k.(g := k.g + dg, h := k.h + dh)), v))
         == FromPair(AsV4(TransformVec4(Layout(k), v)).Num(),
                     CAdd(AsV4(TransformVec4(Layout(k), v)).Den(), CMul(C(dg, dh), AsV4(v).Den())))
  {
    var k' := k.(g := k.g + dg, h := k.h + dh);
    LayoutRows(k, v);
    LayoutRows(k', v);
    SumTimes(k.g, dg, v[2]);
    SumTimes(k.h, dh, v[3]);
    SumTimes(k.h, dh, v[2]);
    SumTimes(k.g, dg, v[3]);
  }

  lemma SumTimes(x: real, y: real, z: real)
    ensures (x + y) * z == x * z + y * z
  {
  }

  /** The first pole of the counterexample, (1 : i), which is -i. */
  const MinusI: Vec4 := [1.0, 0.0, 0.0, 1.0]

  /** The second pole of the counterexample, (1 : 0), which is infinity. */
  const InfinityPole: Vec4 := [1.0, 0.0, 0.0, 0.0]

  /** As written the first pole is not fixed: with first pole -i, second pole
      infinity and scale 1 the code computes the coefficients of z maps to -z
      (the intended ones are the identity up to the factor -i), and that
      increment sends -i to (-i : -1), which is i. */
  lemma AsWrittenMovesFirstPole()
    ensures Represents(AsV4(MinusI), C(0.0, -1.0))
    ensures UpdateCoefficients(MinusI, InfinityPole, 1.0) == Coeffs(0.0, -1.0, 0.0, 0.0, 0.0, 0.0, 0.0, 1.0)
    ensures IntendedCoefficients(MinusI, InfinityPole, 1.0) == Coeffs(0.0, -1.0, 0.0, 0.0, 0.0, 0.0, 0.0, -1.0)
    ensures AsV4(TransformVec4(Layout(Coeffs(0.0, -1.0, 0.0, 0.0, 0.0, 0.0, 0.0, 1.0)), MinusI))
         == V4(0.0, -1.0, -1.0, 0.0)
    ensures Represents(V4(0.0, -1.0, -1.0, 0.0), C(0.0, 1.0))
  {
  }

  /** With scale 1 the off-diagonal blocks vanish, and when the first pole
      has w = 0 the increment is a complex multiple of the identity: the
      accumulated transformation is unchanged as a map of the sphere. */
  lemma UnitScaleIsScalar(pt1: Vec4, pt2: Vec4)
    ensures var k := UpdateCoefficients(pt1, pt2, 1.0);
      k.c == 0.0 && k.d == 0.0 && k.e == 0.0 && k.f == 0.0
    ensures pt1[3] == 0.0 ==>
      var k := UpdateCoefficients(pt1, pt2, 1.0);
      k.g == k.a && k.h == k.b
  {
  }

  /** Scaling the poles by factors k1 and k2, as `vec4.normalize` does, only
      multiplies every coefficient by k1 k2 (`UpdateCoefficients` reads the
      poles through `CoefficientsOf`): for nonzero factors the map of the
      sphere stays the same, which is why the model leaves the normalisation
      out. */
  lemma CoefficientsHomogeneous(p0: real, p1: real, p2: real, p3: real, q0: real, q1: real, q2: real, q3: real,
                                s: real, k1: real, k2: real)
    ensures CoefficientsOf(k1 * p0, k1 * p1, k1 * p2, k1 * p3, k2 * q0, k2 * q1, k2 * q2, k2 * q3, s)
         == ScaleCoeffs(k1 * k2, CoefficientsOf(p0, p1, p2, p3, q0, q1, q2, q3, s))
  {
    HomogeneousA(p0, p1, p2, p3, q0, q1, q2, q3, s, k1, k2);
    HomogeneousB(p0, p1, p2, p3, q0, q1, q2, q3, s, k1, k2);
    HomogeneousC(p0, p1, p2, p3, q0, q1, q2, q3, s, k1, k2);
    HomogeneousD(p0, p1, p2, p3, q0, q1, q2, q3, s, k1, k2);
    HomogeneousE(p0, p1, p2, p3, q0, q1, q2, q3, s, k1, k2);
    HomogeneousF(p0, p1, p2, p3, q0, q1, q2, q3, s, k1, k2);
    HomogeneousG(p0, p1, p2, p3, q0, q1, q2, q3, s, k1, k2);
    HomogeneousH(p0, p1, p2, p3, q0, q1, q2, q3, s, k1, k2);
    SameCoeffs(CoefficientsOf(k1 * p0, k1 * p1, k1 * p2, k1 * p3, k2 * q0, k2 * q1, k2 * q2, k2 * q3, s), ScaleCoeffs(k1 * k2, CoefficientsOf(p0, p1, p2, p3, q0, q1, q2, q3, s)));
  }

  /** Coefficients that agree field by field are equal. */
  lemma SameCoeffs(x: Coeffs, y: Coeffs)
    requires x.a == y.a && x.b == y.b && x.c == y.c && x.d == y.d
    requires x.e == y.e && x.f == y.f && x.g == y.g && x.h == y.h
    ensures x == y
  {
  }

  lemma HomogeneousA(p0: real, p1: real, p2: real, p3: real, q0: real, q1: real, q2: real, q3: real, s: real, k1: real, k2: real)
    ensures CoefficientsOf(k1 * p0, k1 * p1, k1 * p2, k1 * p3, k2 * q0, k2 * q1, k2 * q2, k2 * q3, s).a == ScaleCoeffs(k1 * k2, CoefficientsOf(p0, p1, p2, p3, q0, q1, q2, q3, s)).a
  {
    BilinearSub(k1, k2, p0, q2, p1, q3);
    BilinearSub(k1, k2, p2, q0, p3, q1);
    Rescale(s, k1 * k2, p2 * q0 - p3 * q1);
  }

  lemma HomogeneousB(p0: real, p1: real, p2: real, p3: real, q0: real, q1: real, q2: real, q3: real, s: real, k1: real, k2: real)
    ensures CoefficientsOf(k1 * p0, k1 * p1, k1 * p2, k1 * p3, k2 * q0, k2 * q1, k2 * q2, k2 * q3, s).b == ScaleCoeffs(k1 * k2, CoefficientsOf(p0, p1, p2, p3, q0, q1, q2, q3, s)).b
  {
    BilinearAdd(k1, k2, p0, q3, p1, q2);
    BilinearAdd(k1, k2, p2, q1, p3, q0);
    Rescale(s, k1 * k2, p2 * q1 + p3 * q0);
  }

  lemma HomogeneousC(p0: real, p1: real, p2: real, p3: real, q0: real, q1: real, q2: real, q3: real, s: real, k1: real, k2: real)
    ensures CoefficientsOf(k1 * p0, k1 * p1, k1 * p2, k1 * p3, k2 * q0, k2 * q1, k2 * q2, k2 * q3, s).c == ScaleCoeffs(k1 * k2, CoefficientsOf(p0, p1, p2, p3, q0, q1, q2, q3, s)).c
  {
    BilinearSub(k1, k2, p2, q2, p3, q3);
    Rescale(1.0 - s, k1 * k2, p2 * q2 - p3 * q3);
  }

  lemma HomogeneousD(p0: real, p1: real, p2: real, p3: real, q0: real, q1: real, q2: real, q3: real, s: real, k1: real, k2: real)
    ensures CoefficientsOf(k1 * p0, k1 * p1, k1 * p2, k1 * p3, k2 * q0, k2 * q1, k2 * q2, k2 * q3, s).d == ScaleCoeffs(k1 * k2, CoefficientsOf(p0, p1, p2, p3, q0, q1, q2, q3, s)).d
  {
    BilinearAdd(k1, k2, p2, q3, p3, q2);
    Rescale(1.0 - s, k1 * k2, p2 * q3 + p3 * q2);
  }

  lemma HomogeneousE(p0: real, p1: real, p2: real, p3: real, q0: real, q1: real, q2: real, q3: real, s: real, k1: real, k2: real)
    ensures CoefficientsOf(k1 * p0, k1 * p1, k1 * p2, k1 * p3, k2 * q0, k2 * q1, k2 * q2, k2 * q3, s).e == ScaleCoeffs(k1 * k2, CoefficientsOf(p0, p1, p2, p3, q0, q1, q2, q3, s)).e
  {
    BilinearSub(k1, k2, p0, q0, p1, q1);
    Rescale(s - 1.0, k1 * k2, p0 * q0 - p1 * q1);
  }

  lemma HomogeneousF(p0: real, p1: real, p2: real, p3: real, q0: real, q1: real, q2: real, q3: real, s: real, k1: real, k2: real)
    ensures CoefficientsOf(k1 * p0, k1 * p1, k1 * p2, k1 * p3, k2 * q0, k2 * q1, k2 * q2, k2 * q3, s).f == ScaleCoeffs(k1 * k2, CoefficientsOf(p0, p1, p2, p3, q0, q1, q2, q3, s)).f
  {
    BilinearAdd(k1, k2, p0, q1, p1, q0);
    Rescale(s - 1.0, k1 * k2, p0 * q1 + p1 * q0);
  }

  lemma HomogeneousG(p0: real, p1: real, p2: real, p3: real, q0: real, q1: real, q2: real, q3: real, s: real, k1: real, k2: real)
    ensures CoefficientsOf(k1 * p0, k1 * p1, k1 * p2, k1 * p3, k2 * q0, k2 * q1, k2 * q2, k2 * q3, s).g == ScaleCoeffs(k1 * k2, CoefficientsOf(p0, p1, p2, p3, q0, q1, q2, q3, s)).g
  {
    BilinearSub(k1, k2, p0, q2, p1, q3);
    Rescale(s, k1 * k2, p0 * q2 - p1 * q3);
    ScaledProduct(k1, k2, p2, q0);
    ScaledProduct(k1, k2, p3, q1);
  }

  lemma HomogeneousH(p0: real, p1: real, p2: real, p3: real, q0: real, q1: real, q2: real, q3: real, s: real, k1: real, k2: real)
    ensures CoefficientsOf(k1 * p0, k1 * p1, k1 * p2, k1 * p3, k2 * q0, k2 * q1, k2 * q2, k2 * q3, s).h == ScaleCoeffs(k1 * k2, CoefficientsOf(p0, p1, p2, p3, q0, q1, q2, q3, s)).h
  {
    BilinearAdd(k1, k2, p0, q3, p1, q2);
    Rescale(s, k1 * k2, p0 * q3 + p1 * q2);
    ScaledProduct(k1, k2, p2, q1);
    ScaledProduct(k1, k2, p3, q0);
  }

  /** A factor passes through a product. */
  lemma Rescale(x: real, k: real, y: real)
    ensures x * (k * y) == k * (x * y)
  {
  }

  lemma ScaledProduct(k1: real, k2: real, a: real, b: real)
    ensures (k1 * a) * (k2 * b) == (k1 * k2) * (a * b)
  {
  }

  /** The scale factors of two products come out of their difference ... */
  lemma BilinearSub(k1: real, k2: real, a: real, b: real, c: real, d: real)
    ensures (k1 * a) * (k2 * b) - (k1 * c) * (k2 * d) == (k1 * k2) * (a * b - c * d)
  {
  }

  /** ... and out of their sum. */
  lemma BilinearAdd(k1: real, k2: real, a: real, b: real, c: real, d: real)
    ensures (k1 * a) * (k2 * b) + (k1 * c) * (k2 * d) == (k1 * k2) * (a * b + c * d)
  {
  }

  /** Every coefficient multiplied by k. */
  function ScaleCoeffs(k: real, c: Coeffs): Coeffs
  {
    Coeffs(k * c.a, k * c.b, k * c.c, k * c.d, k * c.e, k * c.f, k * c.g, k * c.h)
  }

  // mutateToProjective.

  /** Near the south pole v becomes exactly the point at infinity; elsewhere
      the lift, and the fourth component is 0 either way. */
  lemma LiftCases(v: Vec4)
    ensures SouthDistSq(v) < SouthThresholdSq ==> AsV4(Lift(v)) == Infinity
    ensures SouthDistSq(v) >= SouthThresholdSq ==> Lift(v) == [v[0], v[1], 1.0 + v[2], 0.0]
    ensures Lift(v)[3] == 0.0
  {
  }

  /** In the lift branch the squared length of (x, y, 1 + z, 0) is the squared
      distance to the south pole, hence at least 1e-10: normalising it never
      divides by zero. */
  lemma {:induction false} LiftNormBounded(v: Vec4)
    requires SouthDistSq(v) >= SouthThresholdSq
    ensures var l := Lift(v); l[0] * l[0] + l[1] * l[1] + l[2] * l[2] + l[3] * l[3] == SouthDistSq(v)
    ensures var l := Lift(v); l[0] * l[0] + l[1] * l[1] + l[2] * l[2] + l[3] * l[3] > 0.0
  {
    var l := Lift(v);
    assert l[2] == v[2] + 1.0 && l[3] == 0.0;
  }

  /** A point (x, y, z) of the unit sphere away from the south pole lifts to
      its stereographic projection (x + iy) / (1 + z). */
  lemma {:induction false} LiftIsStereographic(v: Vec4)
    requires SouthDistSq(v) >= SouthThresholdSq && v[2] != -1.0
    ensures Represents(AsV4(Lift(v)), C(v[0] / (1.0 + v[2]), v[1] / (1.0 + v[2])))
  {
    var l := AsV4(Lift(v));
    assert l.Den() == C(1.0 + v[2], 0.0);
  }

  // handleScroll.

  /** No wheel movement gives scale exactly 1. */
  lemma ScrollScaleNeutral(deltaY: real)
    ensures ScrollScale(deltaY) == 1.0 <==> deltaY == 0.0
    ensures ScrollScale(deltaY) > 0.0 <==> deltaY > -1000.0
  {
  }

  /** The lifted north pole always has w = 0, so `handleScroll` never reaches
      the inputs on which the code and the intended map differ. */
  lemma ScrollUsesIntendedMap(invLocal: Mat4, deltaY: real)
    ensures ScrollPoles(invLocal).0[3] == 0.0
    ensures ScrollIncrement(invLocal, deltaY)
         == Layout(IntendedCoefficients(ScrollPoles(invLocal).0, ScrollPoles(invLocal).1, ScrollScale(deltaY)))
  {
    var (north, south) := ScrollPoles(invLocal);
    LiftCases(TransformVec4(invLocal, [0.0, 0.0, 1.0, 0.0]));
    AsWrittenAgreesWhenRealDenominator(north, south, ScrollScale(deltaY));
  }

  /** Without wheel movement the increment is a complex multiple of the
      identity, whatever the rotation. */
  lemma {:induction false} ScrollWithoutMovementIsScalar(invLocal: Mat4)
    ensures var m := ScrollIncrement(invLocal, 0.0);
      && m[2] == 0.0 && m[3] == 0.0 && m[8] == 0.0 && m[9] == 0.0
      && m[10] == m[0] && m[11] == m[1]
  {
    var (north, south) := ScrollPoles(invLocal);
    LiftCases(TransformVec4(invLocal, [0.0, 0.0, 1.0, 0.0]));
    UnitScaleIsScalar(north, south);
  }

  /** With no rotation the poles are (0, 0, 2, 0) and (1, 0, 0, 0) (the source
      normalises the first to (0, 0, 1, 0)), and the increment is
      diag(-2s, -2s, -2, -2), i.e. z maps to s z. */
  lemma {:induction false} ScrollWithoutRotation(deltaY: real)
    ensures ScrollPoles(Identity) == ([0.0, 0.0, 2.0, 0.0], [1.0, 0.0, 0.0, 0.0])
    ensures var s := ScrollScale(deltaY);
      ScrollIncrement(Identity, deltaY)
        == [-2.0 * s, 0.0, 0.0, 0.0, 0.0, -2.0 * s, 0.0, 0.0, 0.0, 0.0, -2.0, 0.0, 0.0, 0.0, 0.0, -2.0]
  {
    var north := TransformVec4(Identity, [0.0, 0.0, 1.0, 0.0]);
    var south := TransformVec4(Identity, [0.0, 0.0, -1.0, 0.0]);
    assert north == [0.0, 0.0, 1.0, 0.0];
    assert south == [0.0, 0.0, -1.0, 0.0];
    assert SouthDistSq(north) == 4.0;
    assert SouthDistSq(south) == 0.0;
  }

  /** ... so every finite point z is carried to s z. */
  lemma {:induction false} ScrollZoomsAboutOrigin(deltaY: real, v: Vec4, z: C)
    requires Represents(AsV4(v), z)
    ensures Represents(AsV4(TransformVec4(ScrollIncrement(Identity, deltaY), v)),
                       CMul(C(ScrollScale(deltaY), 0.0), z))
  {
    ScrollWithoutRotation(deltaY);
    var s := ScrollScale(deltaY);
    var r := AsV4(TransformVec4(ScrollIncrement(Identity, deltaY), v));
    var sz := CMul(C(s, 0.0), z);
    var d := AsV4(v).Den();
    assert r == V4(-2.0 * s * v[0], -2.0 * s * v[1], -2.0 * v[2], -2.0 * v[3]);
    assert r.Den() == CMul(C(-2.0, 0.0), d);
    CMulNonzero(C(-2.0, 0.0), d);
    calc {
      CMul(sz, r.Den());
      CMul(CMul(C(s, 0.0), z), CMul(C(-2.0, 0.0), d));
      { CMulAssoc(C(s, 0.0), z, CMul(C(-2.0, 0.0), d));
        CMulAssoc(z, C(-2.0, 0.0), d); CMulComm(z, C(-2.0, 0.0)); CMulAssoc(C(-2.0, 0.0), z, d); }
      CMul(C(s, 0.0), CMul(C(-2.0, 0.0), CMul(z, d)));
      CMul(C(s, 0.0), CMul(C(-2.0, 0.0), AsV4(v).Num()));
      r.Num();
    }
  }
}
