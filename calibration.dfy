/**
 * Acquiring the camera-to-PSM-base transforms: a bounded retry loop over
 * two tf lookups, and a literal default calibration used when every
 * attempt failed.
 */
module Calibration {
  import opened Options
  import opened Linalg
  import opened TfConvert

  /** The two target frames looked up from the left camera optical frame. */
  datatype PsmBase = PsmOne | PsmTwo

  /**
   * The tf listener's answer to lookup number `attempt` for a base frame:
   * Some(transform), or None when lookupTransform throws. Time, sleeping and
   * spinning are folded into the attempt number.
   */
  type Lookup = (nat, PsmBase) -> Option<TfTransform>

  /** The loop gives up once ntries exceeds 5, so at most six attempts are made. */
  const MaxAttempts: nat := 6

  /** One attempt succeeds when neither of its two lookups throws. */
  predicate AttemptSucceeds(lookup: Lookup, k: nat) {
    lookup(k, PsmOne).Some? && lookup(k, PsmTwo).Some?
  }

  /**
   * The first successful attempt at index `from` or later, or MaxAttempts
   * when attempts from..MaxAttempts-1 all fail.
   */
  function FirstSuccess(lookup: Lookup, from: nat): (n: nat)
    requires from <= MaxAttempts
    ensures from <= n <= MaxAttempts
    ensures forall k :: from <= k < n ==> !AttemptSucceeds(lookup, k)
    ensures n < MaxAttempts ==> AttemptSucceeds(lookup, n)
    decreases MaxAttempts - from
  {
    if from == MaxAttempts then MaxAttempts
    else if AttemptSucceeds(lookup, from) then from
    else FirstSuccess(lookup, from + 1)
  }

  /** FirstSuccess is the only index with its two defining properties. */
  lemma {:induction false} FirstSuccessUnique(lookup: Lookup, from: nat, n: nat)
    requires from <= n <= MaxAttempts
    requires forall k :: from <= k < n ==> !AttemptSucceeds(lookup, k)
    requires n < MaxAttempts ==> AttemptSucceeds(lookup, n)
    ensures FirstSuccess(lookup, from) == n
    decreases n - from
  {
    if from < n {
      assert !AttemptSucceeds(lookup, from);
      FirstSuccessUnique(lookup, from + 1, n);
    }
  }

  /**
   * The retry loop. Each attempt looks up PSM one, then (only if that did
   * not throw) PSM two; a throw marks the attempt failed and counts it in
   * ntries. A successful lookup writes its result even when the attempt
   * later fails. The loop stops at the first successful attempt or after
   * six failures, leaving tferr set exactly in the second case.
   */
  method AcquireCalibration(lookup: Lookup)
    returns (tferr: bool, ntries: nat, tfResultOne: TfTransform, tfResultTwo: TfTransform)
    ensures ntries == FirstSuccess(lookup, 0)
    ensures ntries <= MaxAttempts
    ensures tferr <==> ntries == MaxAttempts
    ensures tferr <==> forall k :: 0 <= k < MaxAttempts ==> !AttemptSucceeds(lookup, k)
    ensures !tferr ==> lookup(ntries, PsmOne) == Some(tfResultOne) && lookup(ntries, PsmTwo) == Some(tfResultTwo)
  {
    tferr := true;
    ntries := 0;
    tfResultOne := TfTransform(Identity3, ZeroVec3);
    tfResultTwo := TfTransform(Identity3, ZeroVec3);
    while tferr
      invariant ntries <= MaxAttempts
      invariant forall k :: 0 <= k < ntries ==> !AttemptSucceeds(lookup, k)
      invariant !tferr ==> ntries < MaxAttempts && AttemptSucceeds(lookup, ntries)
      invariant !tferr ==> lookup(ntries, PsmOne) == Some(tfResultOne) && lookup(ntries, PsmTwo) == Some(tfResultTwo)
      decreases MaxAttempts - ntries + (if tferr then 1 else 0)
    {
      if ntries > 5 {
        break;
      }
      tferr := false;
      var one := lookup(ntries, PsmOne);
      if one.None? {
        tferr := true;
        ntries := ntries + 1;
      } else {
        tfResultOne := one.value;
        var two := lookup(ntries, PsmTwo);
        if two.None? {
          tferr := true;
          ntries := ntries + 1;
        } else {
          tfResultTwo := two.value;
        }
      }
    }
    FirstSuccessUnique(lookup, 0, ntries);
  }

  /** The default rotation: columns nvec = (-1, 0, 0), tvec = (0, 1, 0), bvec = (0, 0, -1). */
  const DefaultRotation: Mat3 := FromColumns([-1.0, 0.0, 0.0], [0.0, 1.0, 0.0], [0.0, 0.0, -1.0])

  const DefaultTranslationOne: Vec3 := [-0.155, -0.03265, 0.0]

  const DefaultTranslationTwo: Vec3 := [0.145, -0.03265, 0.0]

  /**
   * Eigen's default-constructed Affine3d: its constructor sets the last row to
   * (0, 0, 0, 1) and leaves the upper rows uninitialised; SetPartsGivesHomogeneous
   * shows that their contents do not matter once linear() and translation() are set.
   */
  const UninitialisedAffine: Mat4 := Homogeneous(ZeroMat3, ZeroVec3)

  /** The default camera-to-PSM-base transform for each base. */
  function DefaultCalibration(base: PsmBase): (m: Mat4)
    ensures Linear(m) == DefaultRotation
    ensures Translation(m) == (if base == PsmOne then DefaultTranslationOne else DefaultTranslationTwo)
    ensures m[3] == AffineLastRow
  {
    var m := if base == PsmOne then Homogeneous(DefaultRotation, DefaultTranslationOne)
             else Homogeneous(DefaultRotation, DefaultTranslationTwo);
    HomogeneousParts(DefaultRotation, DefaultTranslationOne);
    HomogeneousParts(DefaultRotation, DefaultTranslationTwo);
    m
  }

  /**
   * The branch after the retry loop: the literal defaults when tferr is set,
   * otherwise both transforms converted from the lookups.
   */
  method SelectCalibration(tferr: bool, tfResultOne: TfTransform, tfResultTwo: TfTransform)
    returns (lcameraToPsmOne: Mat4, lcameraToPsmTwo: Mat4)
    ensures tferr ==> lcameraToPsmOne == DefaultCalibration(PsmOne) && lcameraToPsmTwo == DefaultCalibration(PsmTwo)
    ensures !tferr ==> lcameraToPsmOne == Homogeneous(tfResultOne.basis, tfResultOne.origin)
    ensures !tferr ==> lcameraToPsmTwo == Homogeneous(tfResultTwo.basis, tfResultTwo.origin)
  {
    if tferr {
      lcameraToPsmOne := WithTranslation(UninitialisedAffine, [-0.155, -0.03265, 0.0]);
      var nvec: Vec3, tvec: Vec3, bvec: Vec3 := [-1.0, 0.0, 0.0], [0.0, 1.0, 0.0], [0.0, 0.0, -1.0];
      var r := FromColumns(nvec, tvec, bvec);
      lcameraToPsmOne := WithLinear(lcameraToPsmOne, r);
      lcameraToPsmTwo := WithLinear(UninitialisedAffine, r);
      lcameraToPsmTwo := WithTranslation(lcameraToPsmTwo, [0.145, -0.03265, 0.0]);
      SetPartsGivesHomogeneous(UninitialisedAffine, r, DefaultTranslationOne);
      SetPartsGivesHomogeneous(UninitialisedAffine, r, DefaultTranslationTwo);
    } else {
      lcameraToPsmOne := TransformTFToEigen(tfResultOne);
      lcameraToPsmTwo := TransformTFToEigen(tfResultTwo);
    }
  }

  /** The default rotation is orthonormal (R^T R = I) with determinant +1. */
  lemma DefaultRotationIsProper()
    ensures Mul3(Transpose3(DefaultRotation), DefaultRotation) == Identity3
    ensures Det3(DefaultRotation) == 1.0
  {
  }

  /**
   * The two default transforms share the rotation and the last row, and
   * their translations differ only along x, by 0.3.
   */
  lemma DefaultsDifferOnlyInX()
    ensures Linear(DefaultCalibration(PsmOne)) == Linear(DefaultCalibration(PsmTwo)) == DefaultRotation
    ensures Translation(DefaultCalibration(PsmTwo))[0] - Translation(DefaultCalibration(PsmOne))[0] == 0.3
    ensures Translation(DefaultCalibration(PsmTwo))[1] == Translation(DefaultCalibration(PsmOne))[1]
    ensures Translation(DefaultCalibration(PsmTwo))[2] == Translation(DefaultCalibration(PsmOne))[2]
    ensures DefaultCalibration(PsmOne)[3] == DefaultCalibration(PsmTwo)[3] == AffineLastRow
  {
  }

  /** The transform one lookup of a successful attempt returned. */
  function SuccessfulLookup(lookup: Lookup, k: nat, base: PsmBase): (t: TfTransform)
    requires AttemptSucceeds(lookup, k)
    ensures lookup(k, base) == Some(t)
  {
    match base
    case PsmOne => lookup(k, PsmOne).value
    case PsmTwo => lookup(k, PsmTwo).value
  }

  /**
   * The calibration transform the driver ends up with for a base: the
   * default when every attempt failed, otherwise the conversion of that
   * base's lookup in the first successful attempt.
   */
  function CalibrationFor(lookup: Lookup, base: PsmBase): (m: Mat4)
    ensures m[3] == AffineLastRow
    ensures FirstSuccess(lookup, 0) == MaxAttempts ==> m == DefaultCalibration(base)
    ensures FirstSuccess(lookup, 0) < MaxAttempts ==>
              lookup(FirstSuccess(lookup, 0), base) == Some(TfTransform(Linear(m), Translation(m)))
  {
    var n := FirstSuccess(lookup, 0);
    if n == MaxAttempts then DefaultCalibration(base)
    else
      var t := SuccessfulLookup(lookup, n, base);
      HomogeneousParts(t.basis, t.origin);
      Homogeneous(t.basis, t.origin)
  }

  /** The retry loop followed by the default/lookup branch, as the driver runs them. */
  method AcquireAndSelect(lookup: Lookup)
    returns (usedDefault: bool, lcameraToPsmOne: Mat4, lcameraToPsmTwo: Mat4)
    ensures usedDefault <==> forall k :: 0 <= k < MaxAttempts ==> !AttemptSucceeds(lookup, k)
    ensures lcameraToPsmOne == CalibrationFor(lookup, PsmOne)
    ensures lcameraToPsmTwo == CalibrationFor(lookup, PsmTwo)
  {
    var ntries, tfResultOne, tfResultTwo;
    usedDefault, ntries, tfResultOne, tfResultTwo := AcquireCalibration(lookup);
    lcameraToPsmOne, lcameraToPsmTwo := SelectCalibration(usedDefault, tfResultOne, tfResultTwo);
  }
}
