/** The affine complex primitives `_cAdd`, `_cSub`, `_cOpp`, `_cMul` and `_cDiv`
    that the fragment shader declares (js/init-program.js:170-184), as functions
    over pairs of reals.  A GLSL `vec2` holding (re, im) is a value of `C`. */
module Complex {

  datatype C = C(re: real, im: real)

  const Zero: C := C(0.0, 0.0)
  const One: C := C(1.0, 0.0)

  /** Squared modulus, the denominator `b.x * b.x + b.y * b.y` of `_cDiv`. */
  function NormSq(a: C): real
  {
    a.re * a.re + a.im * a.im
  }

  lemma SumSquaresPositive(x: real, y: real)
    requires x != 0.0 || y != 0.0
    ensures x * x + y * y > 0.0
  {
    if x == 0.0 { assert y != 0.0; }
  }

  /** The squared modulus is never negative and vanishes exactly at zero. */
  lemma {:induction false} NormSqZero(a: C)
    ensures NormSq(a) >= 0.0
    ensures NormSq(a) == 0.0 <==> a == Zero
  {
    if a != Zero {
      assert a.re != 0.0 || a.im != 0.0;
      calc {
        NormSq(a);
        a.re * a.re + a.im * a.im;
      > { SumSquaresPositive(a.re, a.im); }
        0.0;
      }
    }
  }

  function CAdd(a: C, b: C): C { C(a.re + b.re, a.im + b.im) }

  function CSub(a: C, b: C): C { C(a.re - b.re, a.im - b.im) }

  function COpp(a: C): C { C(-a.re, -a.im) }

  function CMul(a: C, b: C): C
  {
    C(a.re * b.re - a.im * b.im, a.re * b.im + a.im * b.re)
  }

  /** `_cDiv`: (dot(a, b), a.y * b.x - a.x * b.y) / |b|^2.  GLSL gives no
      meaning to a zero divisor, so neither does the model. */
  function CDiv(a: C, b: C): C
    requires b != Zero
  {
    NormSqZero(b);
    C((a.re * b.re + a.im * b.im) / NormSq(b), (a.im * b.re - a.re * b.im) / NormSq(b))
  }

  /** Complex power by repeated multiplication, the meaning of a `_pMul` chain. */
  function CPow(a: C, n: nat): C
  {
    if n == 0 then One else CMul(a, CPow(a, n - 1))
  }

  // Ring laws of the primitives, used to reason about the projective ones.

  lemma CMulComm(a: C, b: C)
    ensures CMul(a, b) == CMul(b, a)
  {
  }

  lemma CMulAssoc(a: C, b: C, c: C)
    ensures CMul(CMul(a, b), c) == CMul(a, CMul(b, c))
  {
  }

  lemma CMulDistrib(a: C, b: C, c: C)
    ensures CMul(a, CAdd(b, c)) == CAdd(CMul(a, b), CMul(a, c))
  {
  }

  lemma CMulDistribSub(a: C, b: C, c: C)
    ensures CMul(a, CSub(b, c)) == CSub(CMul(a, b), CMul(a, c))
  {
  }

  /** Zero has no divisors: the product of two nonzero numbers is nonzero. */
  lemma {:induction false} CMulNonzero(a: C, b: C)
    requires a != Zero && b != Zero
    ensures CMul(a, b) != Zero
  {
    NormSqZero(a);
    NormSqZero(b);
    NormSqZero(CMul(a, b));
    calc {
      NormSq(CMul(a, b));
      { NormSqMul(a, b); }
      NormSq(a) * NormSq(b);
    > { PositiveProduct(NormSq(a), NormSq(b)); }
      0.0;
    }
  }

  lemma PositiveProduct(x: real, y: real)
    requires x > 0.0 && y > 0.0
    ensures x * y > 0.0
  {
  }

  /** The squared modulus is multiplicative. */
  lemma NormSqMul(a: C, b: C)
    ensures NormSq(CMul(a, b)) == NormSq(a) * NormSq(b)
  {
    var x, y, u, v := a.re, a.im, b.re, b.im;
    assert (x * u - y * v) * (x * u - y * v) + (x * v + y * u) * (x * v + y * u)
        == (x * x + y * y) * (u * u + v * v);
  }

  /** `_cDiv` undoes `_cMul`: (a * b) / b == a for every nonzero b. */
  lemma {:induction false} CDivUndoesCMul(a: C, b: C)
    requires b != Zero
    ensures CDiv(CMul(a, b), b) == a
  {
    var n := NormSq(b);
    NormSqZero(b);
    var p := CMul(a, b);
    assert p.re * b.re + p.im * b.im == a.re * n;
    assert p.im * b.re - p.re * b.im == a.im * n;
    assert n > 0.0;
  }

  /** `_cMul` undoes `_cDiv`: (a / b) * b == a for every nonzero b. */
  lemma {:induction false} CMulUndoesCDiv(a: C, b: C)
    requires b != Zero
    ensures CMul(CDiv(a, b), b) == a
  {
    var n := NormSq(b);
    NormSqZero(b);
    var q := CDiv(a, b);
    assert q.re * n == a.re * b.re + a.im * b.im;
    assert q.im * n == a.im * b.re - a.re * b.im;
    var p := CMul(q, b);
    assert p.re * n == a.re * n by {
      calc {
        p.re * n;
        (q.re * b.re - q.im * b.im) * n;
        (q.re * n) * b.re - (q.im * n) * b.im;
        (a.re * b.re + a.im * b.im) * b.re - (a.im * b.re - a.re * b.im) * b.im;
        a.re * n;
      }
    }
    assert p.im * n == a.im * n by {
      calc {
        p.im * n;
        (q.re * b.im + q.im * b.re) * n;
        (q.re * n) * b.im + (q.im * n) * b.re;
        (a.re * b.re + a.im * b.im) * b.im + (a.im * b.re - a.re * b.im) * b.re;
        a.im * n;
      }
    }
  }

  /** A complex power of a product is the product of the powers. */
  lemma {:induction false} CPowMul(a: C, b: C, n: nat)
    ensures CPow(CMul(a, b), n) == CMul(CPow(a, n), CPow(b, n))
  {
    if n > 0 {
      CPowMul(a, b, n - 1);
      var pa, pb := CPow(a, n - 1), CPow(b, n - 1);
      calc {
        CPow(CMul(a, b), n);
        CMul(CMul(a, b), CMul(pa, pb));
        { CMulAssoc(a, b, CMul(pa, pb)); }
        CMul(a, CMul(b, CMul(pa, pb)));
        { CMulAssoc(b, pa, pb); CMulComm(b, pa); CMulAssoc(pa, b, pb); }
        CMul(a, CMul(pa, CMul(b, pb)));
        { CMulAssoc(a, pa, CMul(b, pb)); }
        CMul(CMul(a, pa), CMul(b, pb));
      }
    }
  }
}
