/**
 The 3x3 affine matrices of the fractal view: `android.graphics.Matrix` values
 in the row-major order `getValues` reports, reduced to what the view uses
 (identity, product, translate, scale, rotation about a pivot), and the
 in-place transpose the view applies before handing a matrix to the shader.
 */
module Matrix3 {

  /** Nine row-major entries: scaleX, skewX, transX, skewY, scaleY, transY, persp0, persp1, persp2. */
  type Mat3 = s: seq<real> | |s| == 9 witness [1.0, 0.0, 0.0, 0.0, 1.0, 0.0, 0.0, 0.0, 1.0]

  type Index3 = i: int | 0 <= i < 3

  /** The entry in row `i`, column `j`. */
  function Entry(m: Mat3, i: Index3, j: Index3): real
  {
    m[i * 3 + j]
  }

  /** The matrix `reset()` produces. */
  const Identity: Mat3 := [1.0, 0.0, 0.0, 0.0, 1.0, 0.0, 0.0, 0.0, 1.0]

  /** Row `i` of `a` times column `j` of `b`. */
  function RowCol(a: Mat3, b: Mat3, i: Index3, j: Index3): real
  {
    Entry(a, i, 0) * Entry(b, 0, j) + Entry(a, i, 1) * Entry(b, 1, j) + Entry(a, i, 2) * Entry(b, 2, j)
  }

  /**
   The product `a × b`; `a.preConcat(b)` replaces `a` by it. Affine matrices
   compose to an affine matrix that maps a point by `b` first and then by `a`.
   */
  function Mul(a: Mat3, b: Mat3): (c: Mat3)
    ensures forall i: Index3, j: Index3 :: Entry(c, i, j) == RowCol(a, b, i, j)
    ensures Affine(a) && Affine(b) ==> Affine(c)
    ensures Affine(a) && Affine(b) ==> forall x, y :: Apply(c, x, y) == Apply(a, Apply(b, x, y).0, Apply(b, x, y).1)
  {
    var c := [RowCol(a, b, 0, 0), RowCol(a, b, 0, 1), RowCol(a, b, 0, 2),
              RowCol(a, b, 1, 0), RowCol(a, b, 1, 1), RowCol(a, b, 1, 2),
              RowCol(a, b, 2, 0), RowCol(a, b, 2, 1), RowCol(a, b, 2, 2)];
    assert Affine(a) && Affine(b) ==> forall x, y :: Apply(c, x, y) == Apply(a, Apply(b, x, y).0, Apply(b, x, y).1) by {
      if Affine(b) {
        forall x, y
          ensures Apply(c, x, y) == Apply(a, Apply(b, x, y).0, Apply(b, x, y).1)
        {
          ComposeX(a, b, c, x, y);
          ComposeY(a, b, c, x, y);
        }
      }
    }
    c
  }

  /** The matrix `setTranslate(dx, dy)` produces. */
  function Translate(dx: real, dy: real): Mat3
  {
    [1.0, 0.0, dx, 0.0, 1.0, dy, 0.0, 0.0, 1.0]
  }

  /** The matrix `setScale(s, s)` produces. */
  function Scale(s: real): Mat3
  {
    [s, 0.0, 0.0, 0.0, s, 0.0, 0.0, 0.0, 1.0]
  }

  /** Rotation by the angle with sine `sn` and cosine `cs` about the pivot (px, py). */
  function RotateAbout(sn: real, cs: real, px: real, py: real): Mat3
  {
    [cs, -sn, sn * py + (1.0 - cs) * px,
     sn, cs, -sn * px + (1.0 - cs) * py,
     0.0, 0.0, 1.0]
  }

  /** The image of the point (x, y) under an affine matrix (last row 0 0 1). */
  function Apply(m: Mat3, x: real, y: real): (real, real)
  {
    (m[0] * x + m[1] * y + m[2], m[3] * x + m[4] * y + m[5])
  }

  /** The last row is 0 0 1: the matrix is affine. */
  predicate Affine(m: Mat3)
  {
    m[6] == 0.0 && m[7] == 0.0 && m[8] == 1.0
  }

  /** The reference transpose: row `i`, column `j` of the result is row `j`, column `i` of `m`. */
  function Transposed(m: Mat3): (r: Mat3)
    ensures forall i: Index3, j: Index3 :: Entry(r, i, j) == Entry(m, j, i)
  {
    [m[0], m[3], m[6], m[1], m[4], m[7], m[2], m[5], m[8]]
  }

  /** The identity is neutral on the right: committing an identity move leaves the view as it was. */
  lemma MulIdentityRight(m: Mat3)
    ensures Mul(m, Identity) == m
  {
    var c := Mul(m, Identity);
    forall k | 0 <= k < 9
      ensures c[k] == m[k]
    {
      assert c[k] == Entry(c, k / 3, k % 3);
    }
  }

  /** The identity is neutral on the left. */
  lemma MulIdentityLeft(m: Mat3)
    ensures Mul(Identity, m) == m
  {
    var c := Mul(Identity, m);
    forall k | 0 <= k < 9
      ensures c[k] == m[k]
    {
      assert c[k] == Entry(c, k / 3, k % 3);
    }
  }

  /** Translation moves every point by (dx, dy); the zero translation is the identity. */
  lemma TranslateMoves(dx: real, dy: real, x: real, y: real)
    ensures Affine(Translate(dx, dy))
    ensures Apply(Translate(dx, dy), x, y) == (x + dx, y + dy)
    ensures Translate(0.0, 0.0) == Identity
  {
  }

  /** Uniform scaling about the origin; scale 1 is the identity. */
  lemma ScaleStretches(s: real, x: real, y: real)
    ensures Affine(Scale(s))
    ensures Apply(Scale(s), x, y) == (s * x, s * y)
    ensures Scale(1.0) == Identity
  {
    var p := Apply(Scale(s), x, y);
    assert p.0 == s * x;
    assert p.1 == s * y;
  }

  /** A rotation about a pivot keeps the pivot where it is, whatever the angle; angle 0 is the identity. */
  lemma RotateAboutFixesPivot(sn: real, cs: real, px: real, py: real)
    ensures Affine(RotateAbout(sn, cs, px, py))
    ensures Apply(RotateAbout(sn, cs, px, py), px, py) == (px, py)
    ensures RotateAbout(0.0, 1.0, px, py) == Identity
  {
    var m := RotateAbout(sn, cs, px, py);
    var p := Apply(m, px, py);
    assert p.0 == cs * px + (-sn) * py + (sn * py + (1.0 - cs) * px);
    assert p.0 == px;
    assert p.1 == sn * px + cs * py + (-sn * px + (1.0 - cs) * py);
    assert p.1 == py;
  }

  /** A rotation about a pivot followed by a uniform scale moves the pivot only by the scale. */
  lemma ScaledRotationMovesPivot(z: real, sn: real, cs: real, px: real, py: real)
    ensures Affine(Mul(Scale(z), RotateAbout(sn, cs, px, py)))
    ensures Apply(Mul(Scale(z), RotateAbout(sn, cs, px, py)), px, py) == Apply(Scale(z), px, py)
  {
    var rot := RotateAbout(sn, cs, px, py);
    RotateAboutFixesPivot(sn, cs, px, py);
    ScaleStretches(z, px, py);
  }

  /** The x coordinate of a product with an affine right factor, from its first row. */
  lemma ComposeX(a: Mat3, b: Mat3, c: Mat3, x: real, y: real)
    requires Affine(b)
    requires c[0] == RowCol(a, b, 0, 0) && c[1] == RowCol(a, b, 0, 1) && c[2] == RowCol(a, b, 0, 2)
    ensures Apply(c, x, y).0 == Apply(a, Apply(b, x, y).0, Apply(b, x, y).1).0
  {
    assert c[0] == a[0] * b[0] + a[1] * b[3] + a[2] * b[6];
    assert c[1] == a[0] * b[1] + a[1] * b[4] + a[2] * b[7];
    assert c[2] == a[0] * b[2] + a[1] * b[5] + a[2] * b[8];
    AffineRow(a[0], a[1], a[2], b[0], b[1], b[2], b[3], b[4], b[5], x, y);
  }

  /** The y coordinate of a product with an affine right factor, from its second row. */
  lemma ComposeY(a: Mat3, b: Mat3, c: Mat3, x: real, y: real)
    requires Affine(b)
    requires c[3] == RowCol(a, b, 1, 0) && c[4] == RowCol(a, b, 1, 1) && c[5] == RowCol(a, b, 1, 2)
    ensures Apply(c, x, y).1 == Apply(a, Apply(b, x, y).0, Apply(b, x, y).1).1
  {
    assert c[3] == a[3] * b[0] + a[4] * b[3] + a[5] * b[6];
    assert c[4] == a[3] * b[1] + a[4] * b[4] + a[5] * b[7];
    assert c[5] == a[3] * b[2] + a[4] * b[5] + a[5] * b[8];
    AffineRow(a[3], a[4], a[5], b[0], b[1], b[2], b[3], b[4], b[5], x, y);
  }

  /** One row of the composition of two affine maps, as a ring identity. */
  lemma AffineRow(a0: real, a1: real, a2: real, b0: real, b1: real, b2: real, b3: real, b4: real, b5: real, x: real, y: real)
    ensures (a0 * b0 + a1 * b3 + a2 * 0.0) * x + (a0 * b1 + a1 * b4 + a2 * 0.0) * y + (a0 * b2 + a1 * b5 + a2 * 1.0)
         == a0 * (b0 * x + b1 * y + b2) + a1 * (b3 * x + b4 * y + b5) + a2
  {
  }

  /** Transposing twice restores the matrix, and the diagonal never moves. */
  lemma TransposeInvolution(m: Mat3)
    ensures Transposed(Transposed(m)) == m
    ensures forall i: Index3 :: Entry(Transposed(m), i, i) == Entry(m, i, i)
  {
  }

  /**
   The view's in-place transpose: for each pair above the diagonal, swap it
   with its mirror below. The result is the transpose of `m`.
   */
  method Transpose(m: Mat3) returns (r: Mat3)
    ensures forall i: Index3, j: Index3 :: Entry(r, i, j) == Entry(m, j, i)
  {
    r := m;
    var i := 0;
    while i < 2
      invariant 0 <= i <= 2
      invariant forall p: Index3, q: Index3 :: (p < i || q < i) ==> r[p * 3 + q] == Entry(m, q, p)
      invariant forall p: Index3, q: Index3 :: (p >= i && q >= i) ==> r[p * 3 + q] == Entry(m, p, q)
    {
      var j := i + 1;
      while j < 3
        invariant i + 1 <= j <= 3
        invariant forall p: Index3, q: Index3 :: (p < i || q < i) ==> r[p * 3 + q] == Entry(m, q, p)
        invariant forall q: Index3 :: i < q < j ==> r[i * 3 + q] == Entry(m, q, i) && r[q * 3 + i] == Entry(m, i, q)
        invariant forall p: Index3, q: Index3 :: (p >= i && q >= i) && !(p == i && i < q < j) && !(q == i && i < p < j) ==> r[p * 3 + q] == Entry(m, p, q)
      {
        var tmp := r[j * 3 + i];
        r := r[j * 3 + i := r[i * 3 + j]];
        r := r[i * 3 + j := tmp];
        j := j + 1;
      }
      i := i + 1;
    }
  }
}
