/** The projective (homogeneous) primitives `_pAdd`, `_pSub`, `_pOpp`, `_pMul`,
    `_pDiv`, `_pInv` and `_pDist` that the fragment shader declares
    (js/init-program.js:201-256), over reals.  A GLSL `vec4` (x, y, z, w) stands
    for the ratio (x + iy) : (z + iw) of a numerator and a denominator.

    The shader wraps `_pAdd`, `_pSub`, `_pMul` and `_pDiv` in `normalize(...)`.
    Normalising multiplies the vector by a positive real, which does not change
    the point it stands for (`RepresentsScaled`) and commutes with the
    primitives (`PMulHomogeneous` and its siblings); the functions here are
    therefore the vectors BEFORE that final scaling. */
module Projective {
  import opened Complex

  datatype V4 = V4(x: real, y: real, z: real, w: real)
  {
    /** The numerator pair `xy`. */
    function Num(): C { C(x, y) }
    /** The denominator pair `zw`. */
    function Den(): C { C(z, w) }
  }

  function FromPair(num: C, den: C): V4 { V4(num.re, num.im, den.re, den.im) }

  /** Multiplies every component by `k`; `normalize` is this with k = 1 / length. */
  function Scale(k: real, v: V4): V4 { V4(k * v.x, k * v.y, k * v.z, k * v.w) }

  /** The literal `vec4(0.0, 1.0, 1.0, 0.0)` emitted for the imaginary unit. */
  const ImaginaryUnit: V4 := V4(0.0, 1.0, 1.0, 0.0)
  /** The literal `vec4(v, 0.0, 1.0, 0.0)` emitted for a constant v. */
  function Constant(v: real): V4 { V4(v, 0.0, 1.0, 0.0) }
  /** The sentinel `vec4(1.0, 0.0, 0.0, 0.0)` the escape test compares with. */
  const Infinity: V4 := V4(1.0, 0.0, 0.0, 0.0)

  // The primitives, component for component as the shader source writes them.

  function PAdd(a: V4, b: V4): V4
  {
    V4(a.x * b.z - a.y * b.w + a.z * b.x - a.w * b.y,
       a.x * b.w + a.y * b.z + a.z * b.y + a.w * b.x,
       a.z * b.z - a.w * b.w,
       a.z * b.w + a.w * b.z)
  }

  function PSub(a: V4, b: V4): V4
  {
    V4(a.x * b.z - a.y * b.w - a.z * b.x + a.w * b.y,
       a.x * b.w + a.y * b.z - a.z * b.y - a.w * b.x,
       a.z * b.z - a.w * b.w,
       a.z * b.w + a.w * b.z)
  }

  function POpp(a: V4): V4 { V4(-a.x, -a.y, a.z, a.w) }

  function PMul(a: V4, b: V4): V4
  {
    V4(a.x * b.x - a.y * b.y,
       a.x * b.y + a.y * b.x,
       a.z * b.z - a.w * b.w,
       a.z * b.w + a.w * b.z)
  }

  function PDiv(a: V4, b: V4): V4
  {
    V4(a.x * b.z - a.y * b.w,
       a.x * b.w + a.y * b.z,
       a.z * b.x - a.w * b.y,
       a.z * b.y + a.w * b.x)
  }

  function PInv(a: V4): V4 { V4(a.z, a.w, a.x, a.y) }

  /** The square of `_pDist` as written: `length` of the pair at lines 252-253. */
  function PDistSq(a: V4, b: V4): real
  {
    NormSq(PDistPair(a, b))
  }

  /** The pair whose `length` `_pDist` returns, as written. */
  function PDistPair(a: V4, b: V4): C
  {
    C(a.x * b.z - a.y * b.w - a.z * b.x + a.w * b.y,
      a.x * b.w + a.y * b.z + a.z * b.y + a.w * b.x)
  }

  /** The nested `_pMul(a, _pMul(a, ... a))` chain of n copies of a that the
      code generator emits for an integer power n >= 1. */
  function PMulChain(a: V4, n: nat): V4
    requires n >= 1
  {
    if n == 1 then a else PMul(a, PMulChain(a, n - 1))
  }

  /** v stands for the finite complex number z: its denominator is nonzero and
      numerator == z * denominator. */
  ghost predicate Represents(v: V4, z: C)
  {
    v.Den() != Zero && CMul(z, v.Den()) == v.Num()
  }

  /** v stands for the point at infinity. */
  ghost predicate AtInfinity(v: V4)
  {
    v.Den() == Zero && v.Num() != Zero
  }

  // Component structure.

  /** `_pMul` multiplies the numerators and the denominators as complex numbers. */
  lemma PMulComponents(a: V4, b: V4)
    ensures PMul(a, b).Num() == CMul(a.Num(), b.Num())
    ensures PMul(a, b).Den() == CMul(a.Den(), b.Den())
  {
  }

  /** `_pAdd` cross-multiplies: (na db + da nb) : (da db). */
  lemma PAddComponents(a: V4, b: V4)
    ensures PAdd(a, b).Num() == CAdd(CMul(a.Num(), b.Den()), CMul(a.Den(), b.Num()))
    ensures PAdd(a, b).Den() == CMul(a.Den(), b.Den())
  {
    PAddNumerator(a, b);
    PAddDenominator(a, b);
  }

  lemma PAddNumerator(a: V4, b: V4)
    ensures PAdd(a, b).Num() == CAdd(CMul(a.Num(), b.Den()), CMul(a.Den(), b.Num()))
  {
  }

  lemma PAddDenominator(a: V4, b: V4)
    ensures PAdd(a, b).Den() == CMul(a.Den(), b.Den())
  {
  }

  /** `_pSub` cross-multiplies: (na db - da nb) : (da db). */
  lemma PSubComponents(a: V4, b: V4)
    ensures PSub(a, b).Num() == CSub(CMul(a.Num(), b.Den()), CMul(a.Den(), b.Num()))
    ensures PSub(a, b).Den() == CMul(a.Den(), b.Den())
  {
    PSubNumerator(a, b);
    PSubDenominator(a, b);
  }

  lemma PSubNumerator(a: V4, b: V4)
    ensures PSub(a, b).Num() == CSub(CMul(a.Num(), b.Den()), CMul(a.Den(), b.Num()))
  {
  }

  lemma PSubDenominator(a: V4, b: V4)
    ensures PSub(a, b).Den() == CMul(a.Den(), b.Den())
  {
  }

  /** `_pDiv(a, b)` is `_pMul(a, _pInv(b))`, component for component. */
  lemma PDivIsMulInv(a: V4, b: V4)
    ensures PDiv(a, b) == PMul(a, PInv(b))
  {
  }

  /** `_pAdd` is commutative. */
  lemma PAddComm(a: V4, b: V4)
    ensures PAdd(a, b) == PAdd(b, a)
  {
  }

  /** Adding the literal for 0, (0, 0, 1, 0), returns the other operand unchanged. */
  lemma PAddZero(a: V4)
    ensures PAdd(a, Constant(0.0)) == a
  {
  }

  /** `_pSub(a, a)` has a zero numerator: it stands for 0 or is degenerate. */
  lemma PSubSelf(a: V4)
    ensures PSub(a, a).Num() == Zero
  {
  }

  /** `_pOpp` is an involution and keeps the denominator. */
  lemma POppInvolution(a: V4)
    ensures POpp(POpp(a)) == a
    ensures POpp(a).Den() == a.Den()
  {
  }

  /** `_pInv` is an involution that swaps numerator and denominator. */
  lemma PInvInvolution(a: V4)
    ensures PInv(PInv(a)) == a
    ensures PInv(a).Num() == a.Den() && PInv(a).Den() == a.Num()
  {
  }

  /** The escape test `_pDist(z, infinity)`: its square is the squared length
      of z's denominator pair, so it is small exactly near infinity. */
  lemma PDistToInfinity(a: V4)
    ensures PDistSq(a, Infinity) == NormSq(a.Den())
  {
  }

  // Meaning: each primitive computes the complex operation on the points.

  lemma {:induction false} PAddRepresents(a: V4, b: V4, za: C, zb: C)
    requires Represents(a, za) && Represents(b, zb)
    ensures Represents(PAdd(a, b), CAdd(za, zb))
  {
    var da, db := a.Den(), b.Den();
    PAddComponents(a, b);
    CMulNonzero(da, db);
    calc {
      CMul(CAdd(za, zb), CMul(da, db));
      { CMulComm(CAdd(za, zb), CMul(da, db)); CMulDistrib(CMul(da, db), za, zb); }
      CAdd(CMul(CMul(da, db), za), CMul(CMul(da, db), zb));
      { CMulComm(da, db); CMulAssoc(db, da, za); CMulComm(da, za);
        CMulComm(db, CMul(za, da)); CMulAssoc(da, db, zb); CMulComm(db, zb); }
      CAdd(CMul(a.Num(), db), CMul(da, b.Num()));
    }
  }

  lemma {:induction false} PSubRepresents(a: V4, b: V4, za: C, zb: C)
    requires Represents(a, za) && Represents(b, zb)
    ensures Represents(PSub(a, b), CSub(za, zb))
  {
    var da, db := a.Den(), b.Den();
    PSubComponents(a, b);
    CMulNonzero(da, db);
    calc {
      CMul(CSub(za, zb), CMul(da, db));
      { CMulComm(CSub(za, zb), CMul(da, db)); CMulDistribSub(CMul(da, db), za, zb); }
      CSub(CMul(CMul(da, db), za), CMul(CMul(da, db), zb));
      { CMulComm(da, db); CMulAssoc(db, da, za); CMulComm(da, za);
        CMulComm(db, CMul(za, da)); CMulAssoc(da, db, zb); CMulComm(db, zb); }
      CSub(CMul(a.Num(), db), CMul(da, b.Num()));
    }
  }

  lemma {:induction false} POppRepresents(a: V4, za: C)
    requires Represents(a, za)
    ensures Represents(POpp(a), COpp(za))
  {
    assert CMul(COpp(za), a.Den()) == COpp(CMul(za, a.Den()));
  }

  lemma {:induction false} PMulRepresents(a: V4, b: V4, za: C, zb: C)
    requires Represents(a, za) && Represents(b, zb)
    ensures Represents(PMul(a, b), CMul(za, zb))
  {
    var da, db := a.Den(), b.Den();
    PMulComponents(a, b);
    CMulNonzero(da, db);
    calc {
      CMul(CMul(za, zb), CMul(da, db));
      { CMulAssoc(za, zb, CMul(da, db)); CMulAssoc(zb, da, db); CMulComm(zb, da);
        CMulAssoc(da, zb, db); CMulAssoc(za, da, CMul(zb, db)); }
      CMul(CMul(za, da), CMul(zb, db));
    }
  }

  /** `_pInv` of a nonzero finite point is its reciprocal. */
  lemma {:induction false} PInvRepresents(a: V4, za: C)
    requires Represents(a, za) && za != Zero
    ensures Represents(PInv(a), CDiv(One, za))
  {
    var da := a.Den();
    CMulNonzero(za, da);
    calc {
      CMul(CDiv(One, za), a.Num());
      CMul(CDiv(One, za), CMul(za, da));
      { CMulAssoc(CDiv(One, za), za, da); }
      CMul(CMul(CDiv(One, za), za), da);
      { CMulUndoesCDiv(One, za); }
      CMul(One, da);
    }
  }

  /** `_pInv` exchanges 0 and infinity. */
  lemma PInvZeroInfinity(a: V4)
    ensures Represents(a, Zero) && a.Den() != Zero ==> AtInfinity(PInv(a))
    ensures AtInfinity(a) ==> Represents(PInv(a), Zero)
  {
  }

  /** `_pDiv` of two finite points, the divisor nonzero, is their quotient,
      which is what `_cDiv` computes on the affine values. */
  lemma {:induction false} PDivRepresents(a: V4, b: V4, za: C, zb: C)
    requires Represents(a, za) && Represents(b, zb) && zb != Zero
    ensures Represents(PDiv(a, b), CDiv(za, zb))
  {
    PDivIsMulInv(a, b);
    PInvRepresents(b, zb);
    PMulRepresents(a, PInv(b), za, CDiv(One, zb));
    var q := CDiv(za, zb);
    assert CMul(za, CDiv(One, zb)) == q by {
      CMulUndoesCDiv(One, zb);
      CMulUndoesCDiv(za, zb);
      calc {
        CMul(za, CDiv(One, zb));
        CMul(CMul(q, zb), CDiv(One, zb));
        { CMulAssoc(q, zb, CDiv(One, zb)); CMulComm(zb, CDiv(One, zb)); }
        CMul(q, One);
      }
    }
  }

  /** Normalisation is harmless: a nonzero multiple of v stands for the same point. */
  lemma {:induction false} RepresentsScaled(v: V4, z: C, k: real)
    requires k != 0.0
    ensures Represents(Scale(k, v), z) <==> Represents(v, z)
  {
    var kc := C(k, 0.0);
    assert Scale(k, v).Num() == CMul(kc, v.Num());
    assert Scale(k, v).Den() == CMul(kc, v.Den());
    assert kc != Zero;
    if v.Den() != Zero { CMulNonzero(kc, v.Den()); }
    if Scale(k, v).Den() != Zero { assert v.Den() != Zero; }
    calc {
      CMul(z, CMul(kc, v.Den()));
      { CMulAssoc(z, kc, v.Den()); CMulComm(z, kc); CMulAssoc(kc, z, v.Den()); }
      CMul(kc, CMul(z, v.Den()));
    }
    if CMul(kc, CMul(z, v.Den())) == CMul(kc, v.Num()) {
      CDivUndoesCMul(CMul(z, v.Den()), kc);
      CDivUndoesCMul(v.Num(), kc);
      CMulComm(kc, CMul(z, v.Den()));
      CMulComm(kc, v.Num());
    }
  }

  /** Scaling an operand of a primitive scales its result by the same factor:
      the normalisation the shader applies after each operation never changes
      the point that later operations compute. */
  lemma {:induction false} PAddHomogeneous(a: V4, b: V4, k: real)
    ensures PAdd(Scale(k, a), b) == Scale(k, PAdd(a, b))
    ensures PAdd(a, Scale(k, b)) == Scale(k, PAdd(a, b))
  {
    PAddComm(a, Scale(k, b));
    PAddComm(a, b);
    PAddLeftHomogeneous(b, a, k);
    PAddLeftHomogeneous(a, b, k);
  }

  lemma {:induction false} PAddLeftHomogeneous(a: V4, b: V4, k: real)
    ensures PAdd(Scale(k, a), b) == Scale(k, PAdd(a, b))
  {
    var kc := C(k, 0.0);
    ScaleComponents(k, a);
    ScaleComponents(k, PAdd(a, b));
    PAddComponents(Scale(k, a), b);
    PAddComponents(a, b);
    CMulAssoc(kc, a.Num(), b.Den());
    CMulAssoc(kc, a.Den(), b.Num());
    CMulAssoc(kc, a.Den(), b.Den());
    CMulDistrib(kc, CMul(a.Num(), b.Den()), CMul(a.Den(), b.Num()));
    SameParts(PAdd(Scale(k, a), b), Scale(k, PAdd(a, b)));
  }

  lemma {:induction false} PSubHomogeneous(a: V4, b: V4, k: real)
    ensures PSub(Scale(k, a), b) == Scale(k, PSub(a, b))
    ensures PSub(a, Scale(k, b)) == Scale(k, PSub(a, b))
  {
    PSubLeftHomogeneous(a, b, k);
    PSubRightHomogeneous(a, b, k);
  }

  lemma {:induction false} PSubRightHomogeneous(a: V4, b: V4, k: real)
    ensures PSub(a, Scale(k, b)) == Scale(k, PSub(a, b))
  {
    var kc := C(k, 0.0);
    ScaleComponents(k, b);
    ScaleComponents(k, PSub(a, b));
    PSubComponents(a, Scale(k, b));
    PSubComponents(a, b);
    CMulShift(a.Num(), kc, b.Den());
    CMulShift(a.Den(), kc, b.Num());
    CMulShift(a.Den(), kc, b.Den());
    CMulDistribSub(kc, CMul(a.Num(), b.Den()), CMul(a.Den(), b.Num()));
    SameParts(PSub(a, Scale(k, b)), Scale(k, PSub(a, b)));
  }

  lemma {:induction false} PSubLeftHomogeneous(a: V4, b: V4, k: real)
    ensures PSub(Scale(k, a), b) == Scale(k, PSub(a, b))
  {
    var kc := C(k, 0.0);
    ScaleComponents(k, a);
    ScaleComponents(k, PSub(a, b));
    PSubComponents(Scale(k, a), b);
    PSubComponents(a, b);
    CMulAssoc(kc, a.Num(), b.Den());
    CMulAssoc(kc, a.Den(), b.Num());
    CMulAssoc(kc, a.Den(), b.Den());
    CMulDistribSub(kc, CMul(a.Num(), b.Den()), CMul(a.Den(), b.Num()));
    SameParts(PSub(Scale(k, a), b), Scale(k, PSub(a, b)));
  }

  lemma {:induction false} PMulHomogeneous(a: V4, b: V4, k: real)
    ensures PMul(Scale(k, a), b) == Scale(k, PMul(a, b))
    ensures PMul(a, Scale(k, b)) == Scale(k, PMul(a, b))
  {
    PMulLeftHomogeneous(a, b, k);
    PMulRightHomogeneous(a, b, k);
  }

  lemma {:induction false} PMulRightHomogeneous(a: V4, b: V4, k: real)
    ensures PMul(a, Scale(k, b)) == Scale(k, PMul(a, b))
  {
    var kc := C(k, 0.0);
    ScaleComponents(k, b);
    ScaleComponents(k, PMul(a, b));
    PMulComponents(a, Scale(k, b));
    PMulComponents(a, b);
    CMulShift(a.Num(), kc, b.Num());
    CMulShift(a.Den(), kc, b.Den());
    SameParts(PMul(a, Scale(k, b)), Scale(k, PMul(a, b)));
  }

  lemma {:induction false} PMulLeftHomogeneous(a: V4, b: V4, k: real)
    ensures PMul(Scale(k, a), b) == Scale(k, PMul(a, b))
  {
    var kc := C(k, 0.0);
    ScaleComponents(k, a);
    ScaleComponents(k, PMul(a, b));
    PMulComponents(Scale(k, a), b);
    PMulComponents(a, b);
    CMulAssoc(kc, a.Num(), b.Num());
    CMulAssoc(kc, a.Den(), b.Den());
    SameParts(PMul(Scale(k, a), b), Scale(k, PMul(a, b)));
  }

  lemma {:induction false} PDivHomogeneous(a: V4, b: V4, k: real)
    ensures PDiv(Scale(k, a), b) == Scale(k, PDiv(a, b))
    ensures PDiv(a, Scale(k, b)) == Scale(k, PDiv(a, b))
  {
    PDivIsMulInv(Scale(k, a), b);
    PDivIsMulInv(a, Scale(k, b));
    PDivIsMulInv(a, b);
    PMulLeftHomogeneous(a, PInv(b), k);
    PInvHomogeneous(b, k);
    PMulRightHomogeneous(a, PInv(b), k);
  }

  /** `_pInv` commutes with scaling. */
  lemma PInvHomogeneous(b: V4, k: real)
    ensures PInv(Scale(k, b)) == Scale(k, PInv(b))
  {
  }

  /** A real factor can be moved to the front of a complex product. */
  lemma {:induction false} CMulShift(x: C, kc: C, y: C)
    ensures CMul(x, CMul(kc, y)) == CMul(kc, CMul(x, y))
  {
    CMulAssoc(x, kc, y);
    CMulComm(x, kc);
    CMulAssoc(kc, x, y);
  }

  /** Scaling by a real k multiplies both pairs by the complex number k + 0i. */
  lemma ScaleComponents(k: real, v: V4)
    ensures Scale(k, v).Num() == CMul(C(k, 0.0), v.Num())
    ensures Scale(k, v).Den() == CMul(C(k, 0.0), v.Den())
  {
  }

  /** A vector is determined by its numerator and denominator pairs. */
  lemma SameParts(a: V4, b: V4)
    requires a.Num() == b.Num() && a.Den() == b.Den()
    ensures a == b
  {
  }

  /** A chain of n `_pMul`s raises numerator and denominator to the n-th power. */
  lemma {:induction false} PMulChainComponents(a: V4, n: nat)
    requires n >= 1
    ensures PMulChain(a, n).Num() == CPow(a.Num(), n)
    ensures PMulChain(a, n).Den() == CPow(a.Den(), n)
  {
    if n == 1 {
      assert CPow(a.Num(), 0) == One;
      assert CPow(a.Den(), 0) == One;
    } else {
      PMulChainComponents(a, n - 1);
      PMulComponents(a, PMulChain(a, n - 1));
    }
  }

  /** ... so it stands for the n-th power of the point. */
  lemma {:induction false} PMulChainRepresents(a: V4, z: C, n: nat)
    requires n >= 1 && Represents(a, z)
    ensures Represents(PMulChain(a, n), CPow(z, n))
  {
    if n > 1 {
      PMulChainRepresents(a, z, n - 1);
      PMulRepresents(a, PMulChain(a, n - 1), z, CPow(z, n - 1));
    } else {
      assert CPow(z, 1) == CMul(z, One);
    }
  }

  // `_pDist` as written and as intended.

  /** The chordal-distance numerator |na db - da nb|^2 that `_pDist` evidently
      intends: the same cross difference as `_pSub`'s numerator. */
  function ChordDistSq(a: V4, b: V4): real
  {
    NormSq(CSub(CMul(a.Num(), b.Den()), CMul(a.Den(), b.Num())))
  }

  /** As written, `_pDist` of the imaginary unit with itself is not zero: its
      second component adds the cross term a.z * b.y + a.w * b.x where `_pSub`
      subtracts it. */
  lemma PDistSelfNotZero()
    ensures PDistSq(ImaginaryUnit, ImaginaryUnit) == 4.0
    ensures ChordDistSq(ImaginaryUnit, ImaginaryUnit) == 0.0
  {
    assert PDistPair(ImaginaryUnit, ImaginaryUnit) == C(0.0, 2.0);
    ChordDistSelf(ImaginaryUnit);
  }

  /** The corrected distance vanishes on equal arguments ... */
  lemma ChordDistSelf(a: V4)
    ensures ChordDistSq(a, a) == 0.0
  {
  }

  /** ... is symmetric ... */
  lemma ChordDistSymmetric(a: V4, b: V4)
    ensures ChordDistSq(a, b) == ChordDistSq(b, a)
  {
    var u := CSub(CMul(a.Num(), b.Den()), CMul(a.Den(), b.Num()));
    var v := CSub(CMul(b.Num(), a.Den()), CMul(b.Den(), a.Num()));
    assert v == COpp(u);
  }

  /** ... agrees with the written one against the infinity sentinel, the only
      way the shader calls `_pDist`, so the escape test is unaffected ... */
  lemma ChordDistAtInfinity(a: V4)
    ensures ChordDistSq(a, Infinity) == PDistSq(a, Infinity)
  {
  }

  /** ... and for two finite points is |da|^2 |db|^2 |za - zb|^2, which for
      unit-length vectors is the squared chordal distance on the Riemann sphere. */
  lemma {:induction false} ChordDistRepresents(a: V4, b: V4, za: C, zb: C)
    requires Represents(a, za) && Represents(b, zb)
    ensures ChordDistSq(a, b) == NormSq(a.Den()) * NormSq(b.Den()) * NormSq(CSub(za, zb))
  {
    var da, db := a.Den(), b.Den();
    var cross := CSub(CMul(a.Num(), db), CMul(da, b.Num()));
    assert cross == CMul(CMul(da, db), CSub(za, zb)) by {
      calc {
        CMul(CMul(da, db), CSub(za, zb));
        { CMulDistribSub(CMul(da, db), za, zb); }
        CSub(CMul(CMul(da, db), za), CMul(CMul(da, db), zb));
        { CMulComm(da, db); CMulAssoc(db, da, za); CMulComm(da, za);
          CMulComm(db, CMul(za, da)); CMulAssoc(da, db, zb); CMulComm(db, zb); }
        cross;
      }
    }
    NormSqMul(CMul(da, db), CSub(za, zb));
    NormSqMul(da, db);
  }
}
