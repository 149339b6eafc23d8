/** Optional values: what an oracle returns when it may have no answer. */
module Options {
  datatype Option<+T> = None | Some(value: T)
}

/**
 * The small amount of linear algebra the test driver touches: 3-vectors,
 * 3x3 rotation blocks and 4x4 homogeneous matrices (Eigen's Affine3d, whose
 * matrix() is a 4x4 matrix with last row (0, 0, 0, 1)). Reals are exact here;
 * the driver uses doubles.
 */
module Linalg {

  type Vec3 = v: seq<real> | |v| == 3 witness [0.0, 0.0, 0.0]

  type Mat3 = m: seq<seq<real>> | |m| == 3 && forall i :: 0 <= i < 3 ==> |m[i]| == 3
    witness [[0.0, 0.0, 0.0], [0.0, 0.0, 0.0], [0.0, 0.0, 0.0]]

  type Mat4 = m: seq<seq<real>> | |m| == 4 && forall i :: 0 <= i < 4 ==> |m[i]| == 4
    witness [[0.0, 0.0, 0.0, 0.0], [0.0, 0.0, 0.0, 0.0], [0.0, 0.0, 0.0, 0.0], [0.0, 0.0, 0.0, 0.0]]

  /** The fixed last row of every affine transform. */
  const AffineLastRow: seq<real> := [0.0, 0.0, 0.0, 1.0]

  const ZeroVec3: Vec3 := [0.0, 0.0, 0.0]

  const ZeroMat3: Mat3 := [[0.0, 0.0, 0.0], [0.0, 0.0, 0.0], [0.0, 0.0, 0.0]]

  const Identity3: Mat3 := [[1.0, 0.0, 0.0], [0.0, 1.0, 0.0], [0.0, 0.0, 1.0]]

  function Dot3(u: Vec3, v: Vec3): real {
    u[0] * v[0] + u[1] * v[1] + u[2] * v[2]
  }

  function Sub3(u: Vec3, v: Vec3): Vec3 {
    [u[0] - v[0], u[1] - v[1], u[2] - v[2]]
  }

  function Add3(u: Vec3, v: Vec3): Vec3 {
    [u[0] + v[0], u[1] + v[1], u[2] + v[2]]
  }

  /** The matrix-vector product m * v. */
  function MulVec3(m: Mat3, v: Vec3): Vec3 {
    [Dot3(m[0], v), Dot3(m[1], v), Dot3(m[2], v)]
  }

  function SubMat3(a: Mat3, b: Mat3): Mat3 {
    [Sub3(a[0], b[0]), Sub3(a[1], b[1]), Sub3(a[2], b[2])]
  }

  /** Column k of a 3x3 matrix (Eigen's R.col(k)). */
  function Col(m: Mat3, k: nat): Vec3
    requires k < 3
  {
    [m[0][k], m[1][k], m[2][k]]
  }

  /** The matrix whose columns are c0, c1, c2 (R.col(0) = c0; R.col(1) = c1; R.col(2) = c2). */
  function FromColumns(c0: Vec3, c1: Vec3, c2: Vec3): Mat3 {
    [[c0[0], c1[0], c2[0]],
     [c0[1], c1[1], c2[1]],
     [c0[2], c1[2], c2[2]]]
  }

  function Transpose3(m: Mat3): Mat3 {
    [Col(m, 0), Col(m, 1), Col(m, 2)]
  }

  function Mul3(a: Mat3, b: Mat3): Mat3 {
    [[Dot3(a[0], Col(b, 0)), Dot3(a[0], Col(b, 1)), Dot3(a[0], Col(b, 2))],
     [Dot3(a[1], Col(b, 0)), Dot3(a[1], Col(b, 1)), Dot3(a[1], Col(b, 2))],
     [Dot3(a[2], Col(b, 0)), Dot3(a[2], Col(b, 1)), Dot3(a[2], Col(b, 2))]]
  }

  function Det3(m: Mat3): real {
    m[0][0] * (m[1][1] * m[2][2] - m[1][2] * m[2][1])
    - m[0][1] * (m[1][0] * m[2][2] - m[1][2] * m[2][0])
    + m[0][2] * (m[1][0] * m[2][1] - m[1][1] * m[2][0])
  }

  /** A 4x4 matrix with rotation block r, translation column p and last row (0, 0, 0, 1). */
  function Homogeneous(r: Mat3, p: Vec3): Mat4 {
    [r[0] + [p[0]], r[1] + [p[1]], r[2] + [p[2]], AffineLastRow]
  }

  /** Eigen's affine.linear(): the upper-left 3x3 block. */
  function Linear(m: Mat4): Mat3 {
    [m[0][..3], m[1][..3], m[2][..3]]
  }

  /** Eigen's affine.translation(): the first three entries of the last column. */
  function Translation(m: Mat4): Vec3 {
    [m[0][3], m[1][3], m[2][3]]
  }

  /** Eigen's `affine.linear() = r`: overwrite the rotation block only. */
  function WithLinear(m: Mat4, r: Mat3): Mat4 {
    [r[0] + [m[0][3]], r[1] + [m[1][3]], r[2] + [m[2][3]], m[3]]
  }

  /** Eigen's `affine.translation() << p`: overwrite the translation column only. */
  function WithTranslation(m: Mat4, p: Vec3): Mat4 {
    [m[0][..3] + [p[0]], m[1][..3] + [p[1]], m[2][..3] + [p[2]], m[3]]
  }

  /** The plain 4x4 matrix product. */
  function Mul4(a: Mat4, b: Mat4): Mat4 {
    seq(4, i requires 0 <= i < 4 =>
      seq(4, j requires 0 <= j < 4 =>
        a[i][0] * b[0][j] + a[i][1] * b[1][j] + a[i][2] * b[2][j] + a[i][3] * b[3][j]))
  }

  /**
   * Eigen's Affine3d * Affine3d: the upper three rows are those of the 4x4
   * product computed as if both last rows were (0, 0, 0, 1), and the last
   * row is set to (0, 0, 0, 1) whatever the operands' last rows hold.
   */
  function AffineProduct(a: Mat4, b: Mat4): Mat4 {
    seq(4, i requires 0 <= i < 4 =>
      if i == 3 then AffineLastRow
      else
        seq(4, j requires 0 <= j < 4 =>
          Dot3(a[i][..3], [b[0][j], b[1][j], b[2][j]]) + (if j == 3 then a[i][3] else 0.0)))
  }

  /** Reading the blocks back out of a homogeneous matrix returns what went in. */
  lemma HomogeneousParts(r: Mat3, p: Vec3)
    ensures Linear(Homogeneous(r, p)) == r
    ensures Translation(Homogeneous(r, p)) == p
    ensures Homogeneous(r, p)[3] == AffineLastRow
  {
    forall i | 0 <= i < 3
      ensures (r[i] + [p[i]])[..3] == r[i]
    {
      assert |r[i]| == 3;
    }
  }

  /** Conversely, an affine matrix is determined by its two blocks. */
  lemma HomogeneousOfParts(m: Mat4)
    requires m[3] == AffineLastRow
    ensures Homogeneous(Linear(m), Translation(m)) == m
  {
    forall i | 0 <= i < 3
      ensures m[i][..3] + [m[i][3]] == m[i]
    {
      assert |m[i]| == 4;
    }
  }

  /**
   * Setting linear() and translation() of an affine matrix, in either order,
   * yields the same matrix whatever its previous upper rows held.
   */
  lemma SetPartsGivesHomogeneous(m: Mat4, r: Mat3, p: Vec3)
    requires m[3] == AffineLastRow
    ensures WithLinear(WithTranslation(m, p), r) == Homogeneous(r, p)
    ensures WithTranslation(WithLinear(m, r), p) == Homogeneous(r, p)
  {
    forall i | 0 <= i < 3
      ensures (r[i] + [m[i][3]])[..3] == r[i]
    {
      assert |r[i]| == 3;
    }
  }

  /**
   * The affine product in block form: rotation Ra * Rb, translation
   * Ra * pb + pa, last row (0, 0, 0, 1).
   */
  lemma AffineProductBlocks(a: Mat4, b: Mat4)
    ensures AffineProduct(a, b)[3] == AffineLastRow
    ensures Linear(AffineProduct(a, b)) == Mul3(Linear(a), Linear(b))
    ensures Translation(AffineProduct(a, b)) == Add3(MulVec3(Linear(a), Translation(b)), Translation(a))
  {
    var r := AffineProduct(a, b);
    var la, lb := Linear(a), Linear(b);
    forall j | 0 <= j < 3 ensures Col(lb, j) == [b[0][j], b[1][j], b[2][j]] {
      assert b[0][..3][j] == b[0][j] && b[1][..3][j] == b[1][j] && b[2][..3][j] == b[2][j];
    }
    forall i | 0 <= i < 3 ensures Linear(r)[i] == Mul3(la, lb)[i] {
      assert r[i][..3] == [Dot3(la[i], Col(lb, 0)), Dot3(la[i], Col(lb, 1)), Dot3(la[i], Col(lb, 2))];
    }
    assert Translation(b) == [b[0][3], b[1][3], b[2][3]];
  }

  /**
   * On two matrices whose last rows are (0, 0, 0, 1), the affine product is
   * the full 4x4 matrix product.
   */
  lemma AffineProductIsMatrixProduct(a: Mat4, b: Mat4)
    requires a[3] == AffineLastRow && b[3] == AffineLastRow
    ensures AffineProduct(a, b) == Mul4(a, b)
  {
    var r := AffineProduct(a, b);
    var m := Mul4(a, b);
    assert r[3] == m[3];
    forall i | 0 <= i < 3 ensures r[i] == m[i] {
      forall j | 0 <= j < 4 ensures r[i][j] == m[i][j] {
        UpperEntry(a, b, i, j);
      }
    }
  }

  /** One entry of the upper three rows, for the previous lemma. */
  lemma UpperEntry(a: Mat4, b: Mat4, i: nat, j: nat)
    requires b[3] == AffineLastRow
    requires i < 3 && j < 4
    ensures AffineProduct(a, b)[i][j] == Mul4(a, b)[i][j]
  {
    var x0, x1, x2, x3 := a[i][0], a[i][1], a[i][2], a[i][3];
    var y0, y1, y2 := b[0][j], b[1][j], b[2][j];
    assert a[i][..3] == [x0, x1, x2];
    assert AffineProduct(a, b)[i][j] == x0 * y0 + x1 * y1 + x2 * y2 + (if j == 3 then x3 else 0.0);
    assert Mul4(a, b)[i][j] == x0 * y0 + x1 * y1 + x2 * y2 + x3 * b[3][j];
  }

  /** A zero difference is exactly equality, for vectors and for 3x3 blocks. */
  lemma SubZeroIffEqual(u: Vec3, v: Vec3, a: Mat3, b: Mat3)
    ensures Sub3(u, v) == ZeroVec3 <==> u == v
    ensures SubMat3(a, b) == ZeroMat3 <==> a == b
  {
    if Sub3(u, v) == ZeroVec3 {
      assert u[0] == v[0] && u[1] == v[1] && u[2] == v[2];
    }
    if SubMat3(a, b) == ZeroMat3 {
      forall i | 0 <= i < 3 ensures a[i] == b[i] {
        assert Sub3(a[i], b[i]) == ZeroVec3;
        assert a[i][0] == b[i][0] && a[i][1] == b[i][1] && a[i][2] == b[i][2];
      }
    }
  }
}
