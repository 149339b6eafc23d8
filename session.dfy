/**
 * One pass of the test driver's session: acquire the camera-to-PSM
 * calibration, then sweep the angle to the exit point over 0, 1, ..., 6,
 * filter each sweep's needle-drive poses, and hand the vetted list of the
 * sweep to the file writer.
 */
module NeedleDriveSession {
  import opened Options
  import opened Linalg
  import opened Calibration
  import opened IkFilter

  /**
   * The needle planner's gripper poses (camera frame) for one angle to the
   * exit point, with the grasp and tilt parameters of the session already
   * fixed: the output of compute_needle_drive_gripper_affines after the
   * tissue frame was recomputed for that angle.
   */
  type DrivePlanner = real -> seq<Mat4>

  /** The loop stops once the angle reaches this bound. */
  const AngleBound: real := 6.28

  /** The number of angles the sweep visits: 0.0, 1.0, ..., 6.0. */
  const SweepLength: nat := 7

  /** The status lists the sweep prints for its first n angles 0.0, ..., n - 1. */
  function SweepStatus(ik: IkSolver, calibInverse: Mat4, planner: DrivePlanner, n: nat): seq<seq<int>>
    decreases n
  {
    if n == 0 then []
    else SweepStatus(ik, calibInverse, planner, n - 1) + [IkFlags(ik, calibInverse, planner((n - 1) as real))]
  }

  /** Entry k of the printed status is the status list of the poses for angle k. */
  lemma {:induction false} SweepStatusAt(ik: IkSolver, calibInverse: Mat4, planner: DrivePlanner, n: nat)
    ensures |SweepStatus(ik, calibInverse, planner, n)| == n
    ensures forall k :: 0 <= k < n ==>
              SweepStatus(ik, calibInverse, planner, n)[k] == IkFlags(ik, calibInverse, planner(k as real))
    decreases n
  {
    if n > 0 {
      SweepStatusAt(ik, calibInverse, planner, n - 1);
    }
  }

  /**
   * The sweep over the angle to the exit point, in steps of 1.0 from 0.0
   * while the angle is below 6.28. Each iteration clears the lists and
   * refills them from that angle's poses, so after the loop the vetted list
   * holds the accepted poses of the last angle only. The angle log and the
   * status log are what the driver prints per iteration.
   */
  method ExitAngleSweep(planner: DrivePlanner, calibInverse: Mat4, ik: IkSolver, fk: FkSolver)
    returns (angleLog: seq<real>, statusLog: seq<seq<int>>, vetted: seq<Mat4>)
    ensures |angleLog| == SweepLength && |statusLog| == SweepLength
    ensures forall k :: 0 <= k < SweepLength ==> angleLog[k] == k as real
    ensures forall k :: 0 <= k < SweepLength ==> statusLog[k] == IkFlags(ik, calibInverse, planner(k as real))
    ensures vetted == VettedPoses(ik, calibInverse, planner(6.0))
  {
    angleLog, statusLog, vetted := [], [], [];
    var validIkSamps: seq<int> := [];
    var angToExit := 0.0;
    ghost var lastAngle := 0.0;
    while angToExit < AngleBound
      invariant |angleLog| <= SweepLength
      invariant angToExit == |angleLog| as real
      invariant forall k :: 0 <= k < |angleLog| ==> angleLog[k] == k as real
      invariant statusLog == SweepStatus(ik, calibInverse, planner, |angleLog|)
      invariant angleLog != [] ==> lastAngle == angleLog[|angleLog| - 1]
      invariant angleLog != [] ==> vetted == VettedPoses(ik, calibInverse, planner(lastAngle))
      decreases SweepLength - |angleLog|
    {
      assert |angleLog| < SweepLength by {
        assert |angleLog| as real < AngleBound;
      }
      angleLog := angleLog + [angToExit];
      var gripperAffines := planner(angToExit);
      vetted := [];
      validIkSamps := [];
      validIkSamps, vetted := FilterPoses(gripperAffines, calibInverse, ik, fk);
      statusLog := statusLog + [validIkSamps];
      lastAngle := angToExit;
      angToExit := angToExit + 1.0;
    }
    assert |angleLog| == SweepLength by {
      assert |angleLog| as real >= AngleBound;
    }
    SweepStatusAt(ik, calibInverse, planner, SweepLength);
  }

  /**
   * The driver from calibration to the list written to file, for one pass
   * of its interactive loop. Inverting the PSM one calibration is the
   * `invert` oracle.
   */
  method PlannerSession(lookup: Lookup, invert: Mat4 -> Mat4, planner: DrivePlanner, ik: IkSolver, fk: FkSolver)
    returns (usedDefault: bool, lcameraToPsmOne: Mat4, lcameraToPsmTwo: Mat4, written: seq<Mat4>)
    ensures usedDefault <==> forall k :: 0 <= k < MaxAttempts ==> !AttemptSucceeds(lookup, k)
    ensures usedDefault ==> lcameraToPsmOne == DefaultCalibration(PsmOne) && lcameraToPsmTwo == DefaultCalibration(PsmTwo)
    ensures lcameraToPsmOne == CalibrationFor(lookup, PsmOne) && lcameraToPsmTwo == CalibrationFor(lookup, PsmTwo)
    ensures written == VettedPoses(ik, invert(CalibrationFor(lookup, PsmOne)), planner(6.0))
  {
    usedDefault, lcameraToPsmOne, lcameraToPsmTwo := AcquireAndSelect(lookup);
    var angleLog, statusLog;
    angleLog, statusLog, written := ExitAngleSweep(planner, invert(lcameraToPsmOne), ik, fk);
  }
}
