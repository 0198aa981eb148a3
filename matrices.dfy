/** The parts of glMatrix that the navigation code relies on, as functions over
    values: `mat4.create`/`mat4.identity`, `mat4.fromValues` (the literal layout),
    `mat4.multiply`, `mat4.translate`, `vec4.transformMat4` and
    `vec3.transformMat4`.  glMatrix stores a 4x4 matrix as 16 numbers in
    column-major order, so the entry in row r and column c sits at index
    4 * c + r; `Mat4` keeps exactly that storage order. */
module Matrices {

  type Mat4 = m: seq<real> | |m| == 16
    witness [0.0, 0.0, 0.0, 0.0, 0.0, 0.0, 0.0, 0.0, 0.0, 0.0, 0.0, 0.0, 0.0, 0.0, 0.0, 0.0]
  type Vec4 = v: seq<real> | |v| == 4 witness [0.0, 0.0, 0.0, 0.0]
  type Vec3 = v: seq<real> | |v| == 3 witness [0.0, 0.0, 0.0]

  /** The entry in row r, column c. */
  function At(m: Mat4, r: nat, c: nat): real
    requires r < 4 && c < 4
  {
    m[4 * c + r]
  }

  /** `mat4.create()` and `mat4.identity(out)`. */
  const Identity: Mat4 :=
    [1.0, 0.0, 0.0, 0.0,
     0.0, 1.0, 0.0, 0.0,
     0.0, 0.0, 1.0, 0.0,
     0.0, 0.0, 0.0, 1.0]

  /** Row r of a times column c of b. */
  function Entry(a: Mat4, b: Mat4, r: nat, c: nat): real
    requires r < 4 && c < 4
  {
    At(a, r, 0) * At(b, 0, c) + At(a, r, 1) * At(b, 1, c)
      + At(a, r, 2) * At(b, 2, c) + At(a, r, 3) * At(b, 3, c)
  }

  /** `mat4.multiply(out, a, b)`: the product a * b, stored column by column. */
  function Mul(a: Mat4, b: Mat4): Mat4
  {
    [Entry(a, b, 0, 0), Entry(a, b, 1, 0), Entry(a, b, 2, 0), Entry(a, b, 3, 0),
     Entry(a, b, 0, 1), Entry(a, b, 1, 1), Entry(a, b, 2, 1), Entry(a, b, 3, 1),
     Entry(a, b, 0, 2), Entry(a, b, 1, 2), Entry(a, b, 2, 2), Entry(a, b, 3, 2),
     Entry(a, b, 0, 3), Entry(a, b, 1, 3), Entry(a, b, 2, 3), Entry(a, b, 3, 3)]
  }

  /** The translation by v: the identity with (v, 1) as its last column. */
  function Translation(v: Vec3): Mat4
  {
    [1.0, 0.0, 0.0, 0.0,
     0.0, 1.0, 0.0, 0.0,
     0.0, 0.0, 1.0, 0.0,
     v[0], v[1], v[2], 1.0]
  }

  /** `mat4.translate(out, a, v)`: replaces the last column of a by
      a * (v, 1) and keeps the other three. */
  function Translate(a: Mat4, v: Vec3): Mat4
  {
    a[..12] +
      [a[0] * v[0] + a[4] * v[1] + a[8] * v[2] + a[12],
       a[1] * v[0] + a[5] * v[1] + a[9] * v[2] + a[13],
       a[2] * v[0] + a[6] * v[1] + a[10] * v[2] + a[14],
       a[3] * v[0] + a[7] * v[1] + a[11] * v[2] + a[15]]
  }

  /** `vec4.transformMat4(out, v, m)`: the product m * v. */
  function TransformVec4(m: Mat4, v: Vec4): Vec4
  {
    [m[0] * v[0] + m[4] * v[1] + m[8] * v[2] + m[12] * v[3],
     m[1] * v[0] + m[5] * v[1] + m[9] * v[2] + m[13] * v[3],
     m[2] * v[0] + m[6] * v[1] + m[10] * v[2] + m[14] * v[3],
     m[3] * v[0] + m[7] * v[1] + m[11] * v[2] + m[15] * v[3]]
  }

  /** `vec3.transformMat4(out, v, m)`: m applied to the point (v, 1), divided
      by the resulting w, where a w of zero is replaced by 1 (`w || 1.0`). */
  function TransformVec3(m: Mat4, v: Vec3): Vec3
  {
    var w0 := m[3] * v[0] + m[7] * v[1] + m[11] * v[2] + m[15];
    var w := if w0 == 0.0 then 1.0 else w0;
    [(m[0] * v[0] + m[4] * v[1] + m[8] * v[2] + m[12]) / w,
     (m[1] * v[0] + m[5] * v[1] + m[9] * v[2] + m[13]) / w,
     (m[2] * v[0] + m[6] * v[1] + m[10] * v[2] + m[14]) / w]
  }

  /** m has the 2x2 complex block form [[A, E], [C, G]] of a Moebius
      transformation acting on homogeneous complex coordinates: each 2x2 real
      block is [[re, -im], [im, re]]. */
  ghost predicate BlockComplex(m: Mat4)
  {
    && m[4] == -m[1] && m[5] == m[0] && m[6] == -m[3] && m[7] == m[2]
    && m[12] == -m[9] && m[13] == m[8] && m[14] == -m[11] && m[15] == m[10]
  }

  // Lemmas.

  /** The identity is neutral on both sides of `mat4.multiply`. */
  lemma {:induction false} MulIdentity(m: Mat4)
    ensures Mul(Identity, m) == m
    ensures Mul(m, Identity) == m
  {
    MulIdentityLeft(m);
    MulIdentityRight(m);
  }

  lemma {:induction false} MulIdentityLeft(m: Mat4)
    ensures Mul(Identity, m) == m
  {
    assert Mul(Identity, m) == [m[0], m[1], m[2], m[3], m[4], m[5], m[6], m[7],
                                m[8], m[9], m[10], m[11], m[12], m[13], m[14], m[15]];
  }

  lemma {:induction false} MulIdentityRight(m: Mat4)
    ensures Mul(m, Identity) == m
  {
    assert Mul(m, Identity) == [m[0], m[1], m[2], m[3], m[4], m[5], m[6], m[7],
                                m[8], m[9], m[10], m[11], m[12], m[13], m[14], m[15]];
  }

  /** `mat4.translate` right-multiplies by the translation matrix ... */
  lemma {:induction false} TranslateIsMul(a: Mat4, v: Vec3)
    ensures Translate(a, v) == Mul(a, Translation(v))
  {
    var p := Mul(a, Translation(v));
    assert p[..12] == a[..12];
    assert p[12] == Translate(a, v)[12];
    assert p[13] == Translate(a, v)[13];
    assert p[14] == Translate(a, v)[14];
    assert p[15] == Translate(a, v)[15];
  }

  /** ... and that matrix moves every point (p, 1) to (p + v, 1). */
  lemma TranslationMoves(v: Vec3, p: Vec3)
    ensures TransformVec4(Translation(v), p + [1.0]) == [p[0] + v[0], p[1] + v[1], p[2] + v[2], 1.0]
  {
    var q := p + [1.0];
    assert q[0] == p[0] && q[1] == p[1] && q[2] == p[2] && q[3] == 1.0;
  }

  /** Transforming by a product applies the right factor first: after
      `mobius := mobius * M` the new gesture M acts before all earlier ones. */
  lemma {:induction false} TransformMul(a: Mat4, b: Mat4, v: Vec4)
    ensures TransformVec4(Mul(a, b), v) == TransformVec4(a, TransformVec4(b, v))
  {
    var l, r := TransformVec4(Mul(a, b), v), TransformVec4(a, TransformVec4(b, v));
    forall i | 0 <= i < 4
      ensures l[i] == r[i]
    {
      TransformMulRow(a, b, v, i);
    }
  }

  lemma {:induction false} TransformMulRow(a: Mat4, b: Mat4, v: Vec4, i: nat)
    requires i < 4
    ensures TransformVec4(Mul(a, b), v)[i] == TransformVec4(a, TransformVec4(b, v))[i]
  {
    var bv := TransformVec4(b, v);
    var r := Row(a, i);
    var c0, c1, c2, c3 := Col(b, 0), Col(b, 1), Col(b, 2), Col(b, 3);
    calc {
      TransformVec4(Mul(a, b), v)[i];
      { TransformIsDot(Mul(a, b), v, i); }
      Dot(Row(Mul(a, b), i), v);
      { MulRowIsDots(a, b, i); }
      Dot([Dot(r, c0), Dot(r, c1), Dot(r, c2), Dot(r, c3)], v);
      { DotBilinear(r, c0, c1, c2, c3, v); }
      Dot(r, [Dot([c0[0], c1[0], c2[0], c3[0]], v), Dot([c0[1], c1[1], c2[1], c3[1]], v),
              Dot([c0[2], c1[2], c2[2], c3[2]], v), Dot([c0[3], c1[3], c2[3], c3[3]], v)]);
      { ColumnsTransposed(b, v); }
      Dot(r, bv);
      { TransformIsDot(a, bv, i); }
      TransformVec4(a, bv)[i];
    }
  }

  lemma TransformIsDot(m: Mat4, v: Vec4, i: nat)
    requires i < 4
    ensures TransformVec4(m, v)[i] == Dot(Row(m, i), v)
  {
  }

  lemma MulRowIsDots(a: Mat4, b: Mat4, i: nat)
    requires i < 4
    ensures Row(Mul(a, b), i) == [Dot(Row(a, i), Col(b, 0)), Dot(Row(a, i), Col(b, 1)),
                                  Dot(Row(a, i), Col(b, 2)), Dot(Row(a, i), Col(b, 3))]
  {
    var p := Mul(a, b);
    assert At(p, i, 0) == Entry(a, b, i, 0) && At(p, i, 1) == Entry(a, b, i, 1);
    assert At(p, i, 2) == Entry(a, b, i, 2) && At(p, i, 3) == Entry(a, b, i, 3);
    assert Dot(Row(a, i), Col(b, 0)) == Entry(a, b, i, 0);
    assert Dot(Row(a, i), Col(b, 1)) == Entry(a, b, i, 1);
    assert Dot(Row(a, i), Col(b, 2)) == Entry(a, b, i, 2);
    assert Dot(Row(a, i), Col(b, 3)) == Entry(a, b, i, 3);
  }

  lemma ColumnsTransposed(b: Mat4, v: Vec4)
    ensures TransformVec4(b, v)
         == [Dot([Col(b, 0)[0], Col(b, 1)[0], Col(b, 2)[0], Col(b, 3)[0]], v),
             Dot([Col(b, 0)[1], Col(b, 1)[1], Col(b, 2)[1], Col(b, 3)[1]], v),
             Dot([Col(b, 0)[2], Col(b, 1)[2], Col(b, 2)[2], Col(b, 3)[2]], v),
             Dot([Col(b, 0)[3], Col(b, 1)[3], Col(b, 2)[3], Col(b, 3)[3]], v)]
  {
    forall j | 0 <= j < 4
      ensures TransformVec4(b, v)[j] == Dot([Col(b, 0)[j], Col(b, 1)[j], Col(b, 2)[j], Col(b, 3)[j]], v)
    {
      assert [Col(b, 0)[j], Col(b, 1)[j], Col(b, 2)[j], Col(b, 3)[j]] == Row(b, j);
      TransformIsDot(b, v, j);
    }
  }

  /** Row r and column c of a matrix, and the dot product of two 4-vectors. */
  function Row(m: Mat4, r: nat): Vec4
    requires r < 4
  {
    [At(m, r, 0), At(m, r, 1), At(m, r, 2), At(m, r, 3)]
  }

  function Col(m: Mat4, c: nat): Vec4
    requires c < 4
  {
    [At(m, 0, c), At(m, 1, c), At(m, 2, c), At(m, 3, c)]
  }

  function Dot(p: Vec4, q: Vec4): real
  {
    p[0] * q[0] + p[1] * q[1] + p[2] * q[2] + p[3] * q[3]
  }

  /** (r * [c0 c1 c2 c3]) . v == r . ([c0 c1 c2 c3] * v). */
  lemma DotBilinear(r: Vec4, c0: Vec4, c1: Vec4, c2: Vec4, c3: Vec4, v: Vec4)
    ensures Dot([Dot(r, c0), Dot(r, c1), Dot(r, c2), Dot(r, c3)], v)
         == Dot(r, [Dot([c0[0], c1[0], c2[0], c3[0]], v), Dot([c0[1], c1[1], c2[1], c3[1]], v),
                    Dot([c0[2], c1[2], c2[2], c3[2]], v), Dot([c0[3], c1[3], c2[3], c3[3]], v)])
  {
    DotScale(r, c0, v[0]);
    DotScale(r, c1, v[1]);
    DotScale(r, c2, v[2]);
    DotScale(r, c3, v[3]);
    DotAdd4(r, ScaleV(c0, v[0]), ScaleV(c1, v[1]), ScaleV(c2, v[2]), ScaleV(c3, v[3]));
    ColumnSum(c0, c1, c2, c3, v);
  }

  /** Componentwise scaling and sum of 4-vectors. */
  function ScaleV(c: Vec4, s: real): Vec4 { [c[0] * s, c[1] * s, c[2] * s, c[3] * s] }

  function AddV(p: Vec4, q: Vec4): Vec4 { [p[0] + q[0], p[1] + q[1], p[2] + q[2], p[3] + q[3]] }

  lemma DotScale(r: Vec4, c: Vec4, s: real)
    ensures Dot(r, c) * s == Dot(r, ScaleV(c, s))
  {
  }

  lemma DotAdd(r: Vec4, p: Vec4, q: Vec4)
    ensures Dot(r, p) + Dot(r, q) == Dot(r, AddV(p, q))
  {
  }

  lemma DotAdd4(r: Vec4, s0: Vec4, s1: Vec4, s2: Vec4, s3: Vec4)
    ensures Dot(r, s0) + Dot(r, s1) + Dot(r, s2) + Dot(r, s3) == Dot(r, AddV(AddV(AddV(s0, s1), s2), s3))
  {
    DotAdd(r, s0, s1);
    DotAdd(r, AddV(s0, s1), s2);
    DotAdd(r, AddV(AddV(s0, s1), s2), s3);
  }

  /** The columns c0..c3 weighted by the entries of v, summed. */
  lemma ColumnSum(c0: Vec4, c1: Vec4, c2: Vec4, c3: Vec4, v: Vec4)
    ensures AddV(AddV(AddV(ScaleV(c0, v[0]), ScaleV(c1, v[1])), ScaleV(c2, v[2])), ScaleV(c3, v[3]))
         == [Dot([c0[0], c1[0], c2[0], c3[0]], v), Dot([c0[1], c1[1], c2[1], c3[1]], v),
             Dot([c0[2], c1[2], c2[2], c3[2]], v), Dot([c0[3], c1[3], c2[3], c3[3]], v)]
  {
    var l := AddV(AddV(AddV(ScaleV(c0, v[0]), ScaleV(c1, v[1])), ScaleV(c2, v[2])), ScaleV(c3, v[3]));
    assert l[0] == Dot([c0[0], c1[0], c2[0], c3[0]], v);
    assert l[1] == Dot([c0[1], c1[1], c2[1], c3[1]], v);
    assert l[2] == Dot([c0[2], c1[2], c2[2], c3[2]], v);
    assert l[3] == Dot([c0[3], c1[3], c2[3], c3[3]], v);
    assert l == [l[0], l[1], l[2], l[3]];
  }


  lemma IdentityBlockComplex()
    ensures BlockComplex(Identity)
  {
  }

  /** Products of block-complex matrices are block-complex, so the accumulated
      navigation transform always stays a Moebius transformation. */
  lemma {:induction false} MulBlockComplex(a: Mat4, b: Mat4)
    requires BlockComplex(a) && BlockComplex(b)
    ensures BlockComplex(Mul(a, b))
  {
    var p := Mul(a, b);
    assert p[4] == -p[1] && p[5] == p[0] && p[6] == -p[3] && p[7] == p[2];
    assert p[12] == -p[9] && p[13] == p[8] && p[14] == -p[11] && p[15] == p[10];
  }
}
