/**
 * The conversion of a tf transform (a 3x3 basis and an origin) into Eigen's
 * 4x4 homogeneous form, as done by transformTFToEigen in the test driver.
 */
module TfConvert {
  import opened Linalg

  /** A tf::Transform: basis rows basis[i] (getBasis()[i]) and origin (getOrigin()). */
  datatype TfTransform = TfTransform(basis: Mat3, origin: Vec3)

  /**
   * Fills a 4x4 matrix entry by entry: (i, 3) from the origin and (i, j)
   * from the basis for rows 0..2, then the last row (0, 0, 0, 1). Every one
   * of the sixteen entries is written, so the result is fully determined.
   */
  method TransformTFToEigen(t: TfTransform) returns (e: Mat4)
    ensures forall i, j :: 0 <= i < 3 && 0 <= j < 3 ==> e[i][j] == t.basis[i][j]
    ensures forall i :: 0 <= i < 3 ==> e[i][3] == t.origin[i]
    ensures e[3] == AffineLastRow
    ensures e == Homogeneous(t.basis, t.origin)
    ensures Linear(e) == t.basis && Translation(e) == t.origin
  {
    var m := new real[4, 4];
    for i := 0 to 3
      invariant forall r, c :: 0 <= r < i && 0 <= c < 3 ==> m[r, c] == t.basis[r][c]
      invariant forall r :: 0 <= r < i ==> m[r, 3] == t.origin[r]
    {
      m[i, 3] := t.origin[i];
      for j := 0 to 3
        invariant m[i, 3] == t.origin[i]
        invariant forall c :: 0 <= c < j ==> m[i, c] == t.basis[i][c]
        invariant forall r, c :: 0 <= r < i && 0 <= c < 3 ==> m[r, c] == t.basis[r][c]
        invariant forall r :: 0 <= r < i ==> m[r, 3] == t.origin[r]
      {
        m[i, j] := t.basis[i][j];
      }
    }
    // The last row is (0, 0, 0, 1).
    for col := 0 to 3
      invariant forall r, c :: 0 <= r < 3 && 0 <= c < 3 ==> m[r, c] == t.basis[r][c]
      invariant forall r :: 0 <= r < 3 ==> m[r, 3] == t.origin[r]
      invariant forall c :: 0 <= c < col ==> m[3, c] == 0.0
    {
      m[3, col] := 0.0;
    }
    m[3, 3] := 1.0;
    e := [[m[0, 0], m[0, 1], m[0, 2], m[0, 3]],
          [m[1, 0], m[1, 1], m[1, 2], m[1, 3]],
          [m[2, 0], m[2, 1], m[2, 2], m[2, 3]],
          [m[3, 0], m[3, 1], m[3, 2], m[3, 3]]];
    HomogeneousParts(t.basis, t.origin);
    forall i | 0 <= i < 3 ensures e[i] == t.basis[i] + [t.origin[i]] {
      assert |t.basis[i]| == 3;
    }
  }

  /**
   * Two tf transforms convert to the same matrix only if they are equal:
   * the conversion loses nothing.
   */
  lemma {:induction false} ConversionInjective(s: TfTransform, t: TfTransform)
    requires Homogeneous(s.basis, s.origin) == Homogeneous(t.basis, t.origin)
    ensures s == t
  {
    HomogeneousParts(s.basis, s.origin);
    HomogeneousParts(t.basis, t.origin);
  }
}
