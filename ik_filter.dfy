/**
 * The per-pose reachability filter of one needle-drive sweep: every
 * candidate gripper pose (camera frame) is mapped into the PSM one base
 * frame and handed to the inverse-kinematics solver; accepted poses are
 * kept in order, and each pose contributes a 1 or 0 to the sample status.
 */
module IkFilter {
  import opened Options
  import opened Linalg

  /** A joint vector of the 7-joint arm (Vectorq7x1). */
  type Joints = q: seq<real> | |q| == 7 witness [0.0, 0.0, 0.0, 0.0, 0.0, 0.0, 0.0]

  /**
   * The inverse-kinematics solver: ik_solve(pose) succeeds exactly when the
   * result is Some, and get_soln() is the carried joint vector.
   */
  type IkSolver = Mat4 -> Option<Joints>

  /** The forward-kinematics solver fwd_kin_solve. */
  type FkSolver = Joints -> Mat4

  /**
   * Whether the solver accepts a camera-frame pose once mapped to the PSM one
   * base frame by the affine product calib^-1 * pose.
   */
  predicate Reachable(ik: IkSolver, calibInverse: Mat4, pose: Mat4) {
    ik(AffineProduct(calibInverse, pose)).Some?
  }

  /**
   * The sample status list after the poses were visited in order: one entry
   * per pose, 1 for an accepted pose and 0 for a rejected one.
   */
  function IkFlags(ik: IkSolver, calibInverse: Mat4, poses: seq<Mat4>): (flags: seq<int>)
    ensures |flags| == |poses|
    ensures forall i :: 0 <= i < |poses| ==> (flags[i] == 1 <==> Reachable(ik, calibInverse, poses[i]))
    ensures forall i :: 0 <= i < |poses| ==> (flags[i] == 0 <==> !Reachable(ik, calibInverse, poses[i]))
    decreases |poses|
  {
    if poses == [] then []
    else
      var last := poses[|poses| - 1];
      IkFlags(ik, calibInverse, poses[..|poses| - 1]) + [if Reachable(ik, calibInverse, last) then 1 else 0]
  }

  /** The accepted poses, in the order they were visited. */
  function VettedPoses(ik: IkSolver, calibInverse: Mat4, poses: seq<Mat4>): (vetted: seq<Mat4>)
    ensures |vetted| <= |poses|
    decreases |poses|
  {
    if poses == [] then []
    else
      var last := poses[|poses| - 1];
      var rest := VettedPoses(ik, calibInverse, poses[..|poses| - 1]);
      if Reachable(ik, calibInverse, last) then rest + [last] else rest
  }

  /** A pose is in the vetted list exactly when it is a candidate the solver accepts. */
  lemma {:induction false} VettedMembership(ik: IkSolver, calibInverse: Mat4, poses: seq<Mat4>, p: Mat4)
    ensures p in VettedPoses(ik, calibInverse, poses) <==> p in poses && Reachable(ik, calibInverse, p)
    decreases |poses|
  {
    if poses != [] {
      var n := |poses| - 1;
      VettedMembership(ik, calibInverse, poses[..n], p);
      assert poses == poses[..n] + [poses[n]];
    }
  }

  /** The positions of the accepted poses, in the order they were visited. */
  function AcceptedIndices(ik: IkSolver, calibInverse: Mat4, poses: seq<Mat4>): (idx: seq<int>)
    ensures forall k :: 0 <= k < |idx| ==> 0 <= idx[k] < |poses|
    decreases |poses|
  {
    if poses == [] then []
    else
      var n := |poses| - 1;
      var rest := AcceptedIndices(ik, calibInverse, poses[..n]);
      if Reachable(ik, calibInverse, poses[n]) then rest + [n] else rest
  }

  /**
   * The accepted positions are strictly increasing and are exactly the
   * positions of the poses the solver accepts.
   */
  lemma {:induction false} AcceptedIndicesOrdered(ik: IkSolver, calibInverse: Mat4, poses: seq<Mat4>)
    ensures forall k, l :: 0 <= k < l < |AcceptedIndices(ik, calibInverse, poses)| ==>
              AcceptedIndices(ik, calibInverse, poses)[k] < AcceptedIndices(ik, calibInverse, poses)[l]
    ensures forall i :: 0 <= i < |poses| ==>
              (i in AcceptedIndices(ik, calibInverse, poses) <==> Reachable(ik, calibInverse, poses[i]))
    decreases |poses|
  {
    if poses != [] {
      var n := |poses| - 1;
      AcceptedIndicesOrdered(ik, calibInverse, poses[..n]);
      assert forall i :: 0 <= i < n ==> poses[..n][i] == poses[i];
    }
  }

  /** The number of 1 entries in a status list (the feasibility score). */
  function CountOnes(flags: seq<int>): nat
    decreases |flags|
  {
    if flags == [] then 0
    else CountOnes(flags[..|flags| - 1]) + (if flags[|flags| - 1] == 1 then 1 else 0)
  }

  /**
   * The vetted list is exactly the order-preserving subsequence of the
   * accepted poses: its k-th element is the pose at the k-th accepted index.
   */
  lemma {:induction false} VettedIsOrderedSubsequence(ik: IkSolver, calibInverse: Mat4, poses: seq<Mat4>)
    ensures |VettedPoses(ik, calibInverse, poses)| == |AcceptedIndices(ik, calibInverse, poses)|
    ensures forall k :: 0 <= k < |AcceptedIndices(ik, calibInverse, poses)| ==>
              VettedPoses(ik, calibInverse, poses)[k] == poses[AcceptedIndices(ik, calibInverse, poses)[k]]
    decreases |poses|
  {
    if poses != [] {
      var n := |poses| - 1;
      var prefix := poses[..n];
      VettedIsOrderedSubsequence(ik, calibInverse, prefix);
      var idx := AcceptedIndices(ik, calibInverse, prefix);
      var rest := VettedPoses(ik, calibInverse, prefix);
      if Reachable(ik, calibInverse, poses[n]) {
        assert AcceptedIndices(ik, calibInverse, poses) == idx + [n];
        assert VettedPoses(ik, calibInverse, poses) == rest + [poses[n]];
        forall k | 0 <= k < |idx| + 1 ensures (rest + [poses[n]])[k] == poses[(idx + [n])[k]] {
          if k < |idx| {
            assert rest[k] == prefix[idx[k]];
          }
        }
      } else {
        assert AcceptedIndices(ik, calibInverse, poses) == idx;
        assert VettedPoses(ik, calibInverse, poses) == rest;
        forall k | 0 <= k < |idx| ensures rest[k] == poses[idx[k]] {
          assert rest[k] == prefix[idx[k]];
        }
      }
    }
  }

  /** The vetted list is as long as the number of 1 entries in the status list. */
  lemma {:induction false} VettedCountMatchesFlags(ik: IkSolver, calibInverse: Mat4, poses: seq<Mat4>)
    ensures |VettedPoses(ik, calibInverse, poses)| == CountOnes(IkFlags(ik, calibInverse, poses))
    decreases |poses|
  {
    if poses != [] {
      var n := |poses| - 1;
      VettedCountMatchesFlags(ik, calibInverse, poses[..n]);
      var flags := IkFlags(ik, calibInverse, poses);
      assert flags[..n] == IkFlags(ik, calibInverse, poses[..n]);
    }
  }

  /**
   * A solver that rejects every pose yields an all-zero status list of full
   * length, a score of 0 and an empty vetted list.
   */
  lemma {:induction false} NothingReachable(ik: IkSolver, calibInverse: Mat4, poses: seq<Mat4>)
    requires forall q :: ik(q).None?
    ensures IkFlags(ik, calibInverse, poses) == seq(|poses|, _ => 0)
    ensures CountOnes(IkFlags(ik, calibInverse, poses)) == 0
    ensures VettedPoses(ik, calibInverse, poses) == []
    decreases |poses|
  {
    if poses != [] {
      var n := |poses| - 1;
      NothingReachable(ik, calibInverse, poses[..n]);
      assert !Reachable(ik, calibInverse, poses[n]);
      assert IkFlags(ik, calibInverse, poses)[..n] == IkFlags(ik, calibInverse, poses[..n]);
    }
  }

  /** The diagnostic forward-kinematics residual: origin and rotation differences. */
  datatype FkResidual = FkResidual(originErr: Vec3, rotationErr: Mat3)

  /** desired - reached, separately for the translation and the rotation block. */
  function Residual(desired: Mat4, reached: Mat4): (r: FkResidual)
    ensures r.originErr == ZeroVec3 <==> Translation(desired) == Translation(reached)
    ensures r.rotationErr == ZeroMat3 <==> Linear(desired) == Linear(reached)
  {
    SubZeroIffEqual(Translation(desired), Translation(reached), Linear(desired), Linear(reached));
    FkResidual(Sub3(Translation(desired), Translation(reached)), SubMat3(Linear(desired), Linear(reached)))
  }

  /**
   * The loop over the candidate poses of one sweep, starting from the
   * cleared lists. For an accepted pose the joint solution (with its last
   * joint zeroed) is run through forward kinematics and the residual is
   * computed for diagnostics only; neither list depends on it, and the
   * contract below does not mention the forward solver at all.
   */
  method FilterPoses(poses: seq<Mat4>, calibInverse: Mat4, ik: IkSolver, fk: FkSolver)
    returns (validIkSamps: seq<int>, vetted: seq<Mat4>)
    ensures validIkSamps == IkFlags(ik, calibInverse, poses)
    ensures vetted == VettedPoses(ik, calibInverse, poses)
    ensures |vetted| == CountOnes(validIkSamps)
  {
    validIkSamps := [];
    vetted := [];
    var nposes := |poses|;
    for i := 0 to nposes
      invariant validIkSamps == IkFlags(ik, calibInverse, poses[..i])
      invariant vetted == VettedPoses(ik, calibInverse, poses[..i])
    {
      assert poses[..i + 1][..i] == poses[..i];
      var affinePose := poses[i];
      var gripperWrtBase := AffineProduct(calibInverse, affinePose);
      var soln := ik(gripperWrtBase);
      if soln.Some? {
        validIkSamps := validIkSamps + [1];
        vetted := vetted + [affinePose];
        var q := soln.value[6 := 0.0];
        var gripperWrtBaseFk := fk(q);
        var residual := Residual(gripperWrtBase, gripperWrtBaseFk);
      } else {
        validIkSamps := validIkSamps + [0];
      }
    }
    assert poses[..nposes] == poses;
    VettedCountMatchesFlags(ik, calibInverse, poses);
  }
}
