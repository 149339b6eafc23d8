# Needle-planner test driver: calibration, reachability filter and exit-angle sweep

This project models the test driver `needle_planner_test_main_v2.cpp` of the da Vinci
needle-driving planner in Dafny. The driver does four things:

- It looks up the camera-to-PSM-base transforms for the two patient-side manipulators
  (PSM one and PSM two). It retries a bounded number of times, and if every attempt fails
  it falls back to a literal default calibration.
- It converts tf transforms into Eigen 4x4 homogeneous matrices (`transformTFToEigen`).
- For each angle to the exit point (0, 1, ..., 6 radians), it takes the needle planner's
  candidate gripper poses and maps each pose into the PSM one base frame. An
  inverse-kinematics solver then accepts or rejects the pose. The driver records a 1/0
  status per pose and keeps the accepted poses in order. A forward-kinematics residual is
  computed for diagnostics only.
- It hands the vetted list left by the sweep to the planner's file writer.

Modules, one per concern of the driver:

- `Linalg` (`linalg.dfy`): 3-vectors, 3x3 blocks and 4x4 homogeneous matrices (Eigen's
  `Affine3d`), with `linear()`, `translation()`, setting either block, and Eigen's
  affine product. `Options` holds the `Option` type used by the oracles.
- `TfConvert` (`tf_convert.dfy`): `transformTFToEigen` as a method that fills a `real`
  4x4 array with the same nested loops as the driver.
- `Calibration` (`calibration.dfy`): the `tferr`/`ntries` retry loop, the default
  calibration constants, and the branch between the defaults and the converted lookups.
- `IkFilter` (`ik_filter.dfy`): the per-pose accept/reject loop and its specification
  functions: status list, vetted list, accepted positions and feasibility count.
- `NeedleDriveSession` (`session.dfy`): the exit-angle sweep, and one pass of the
  driver's interactive loop from calibration to the list written to file.

The external parts are parameters of the model. The tf listener is `lookup(attempt, base)`.
The needle planner's output for an angle is `planner(angle)`. The IK solver is
`ik(pose): Option<Joints>`. The FK solver is `fk(joints)`. Eigen's affine inverse is
`invert`. The product that maps a pose into the base frame is Eigen's `Affine3d *
Affine3d`. It composes the rotation blocks and translations and sets the last row to
(0,0,0,1) (`AffineProduct`). When both operands have last row (0,0,0,1) it equals the
plain 4x4 product (`Mul4`).

Details of the driver that the model keeps:

- The sweep's upper bound is the literal 6.28. With a step of 1.0 it gives the seven
  angles 0.0 ... 6.0. These are exact in doubles, so the model's `real` angle and the
  comparison `< 6.28` behave as the driver's `double` does.
- Before forward kinematics, the driver zeroes the seventh joint of the IK solution
  (`q_vec1(6) = 0.0`). The model does the same.
- Only PSM one's calibration is used to map poses into a base frame.
- The file writer receives the vetted list left after the sweep. Each angle's iteration
  clears that list, so it holds only the poses accepted for the last angle, 6.0.
  `ExitAngleSweep` states this.

## Model

| member | source | states |
|---|---|---|
| `TfConvert.TransformTFToEigen` | needle_planner/src/needle_planner_test_main_v2.cpp:33-46 | entry (i,j) is basis[i][j] and entry (i,3) is origin[i] for i,j < 3; the last row is (0,0,0,1); all sixteen entries are determined, so the result is the homogeneous matrix of the tf transform, and reading back `linear()`/`translation()` gives the basis and origin |
| `TfConvert.ConversionInjective` | needle_planner/src/needle_planner_test_main_v2.cpp:35-40 | two tf transforms with the same converted matrix are equal: the conversion loses nothing |
| `Linalg.HomogeneousParts` | needle_planner/src/needle_planner_test_main_v2.cpp:35-44 | the rotation block and translation column of a homogeneous matrix are the ones it was built from, and its last row is (0,0,0,1) |
| `Linalg.HomogeneousOfParts` | needle_planner/src/needle_planner_test_main_v2.cpp:42-44 | a matrix with last row (0,0,0,1) is rebuilt exactly from its `linear()` and `translation()` |
| `Linalg.SetPartsGivesHomogeneous` | needle_planner/src/needle_planner_test_main_v2.cpp:105-116 | setting `translation()` then `linear()` (PSM one), or `linear()` then `translation()` (PSM two), gives the same homogeneous matrix whatever the upper rows held before |
| `Linalg.AffineProductBlocks` | needle_planner/src/needle_planner_test_main_v2.cpp:181 | the pose mapped into the base frame by Eigen's affine product has rotation block R_inv * R_pose, translation R_inv * p_pose + p_inv, and last row (0,0,0,1) |
| `Linalg.AffineProductIsMatrixProduct` | needle_planner/src/needle_planner_test_main_v2.cpp:181 | when both operands have last row (0,0,0,1), the affine product is the full 4x4 matrix product |
| `Calibration.FirstSuccess` | needle_planner/src/needle_planner_test_main_v2.cpp:87-102 | the index of the first attempt whose two lookups both succeed, or 6 when attempts 0..5 all fail; every earlier attempt failed |
| `Calibration.FirstSuccessUnique` | needle_planner/src/needle_planner_test_main_v2.cpp:87-102 | any index below which every attempt failed, and which succeeds or equals 6, is `FirstSuccess` |
| `Calibration.AcquireCalibration` | needle_planner/src/needle_planner_test_main_v2.cpp:84-102 | the loop makes at most 6 attempts and stops at the first successful one; `ntries` counts the failed attempts before it; `tferr` is left true exactly when all six attempts failed; on success both results come from that attempt's lookups |
| `Calibration.DefaultCalibration` | needle_planner/src/needle_planner_test_main_v2.cpp:104-117 | both defaults have the rotation with columns (-1,0,0), (0,1,0), (0,0,-1) and last row (0,0,0,1); the translations are (-0.155,-0.03265,0) for PSM one and (0.145,-0.03265,0) for PSM two |
| `Calibration.SelectCalibration` | needle_planner/src/needle_planner_test_main_v2.cpp:104-126 | when `tferr` is set both transforms are the defaults; otherwise each is `transformTFToEigen` of its lookup result |
| `Calibration.DefaultRotationIsProper` | needle_planner/src/needle_planner_test_main_v2.cpp:106-114 | the default rotation is orthonormal (R^T R = I) with determinant +1 |
| `Calibration.DefaultsDifferOnlyInX` | needle_planner/src/needle_planner_test_main_v2.cpp:105-116 | the two defaults share the rotation and the last row; their translations differ only in x, by exactly 0.3 |
| `Calibration.CalibrationFor` | needle_planner/src/needle_planner_test_main_v2.cpp:84-126 | the transform the driver ends up with: the default when all attempts failed, otherwise the matrix whose blocks are that base's lookup in the first successful attempt |
| `Calibration.AcquireAndSelect` | needle_planner/src/needle_planner_test_main_v2.cpp:84-126 | the default is used exactly when every attempt failed, and both transforms equal `CalibrationFor` |
| `IkFilter.IkFlags` | needle_planner/src/needle_planner_test_main_v2.cpp:175-206 | one status entry per pose, in pose order; entry i is 1 exactly when IK accepts pose i mapped to the PSM one base frame, and 0 exactly when it rejects it |
| `IkFilter.VettedPoses` | needle_planner/src/needle_planner_test_main_v2.cpp:185-187 | the vetted list is never longer than the candidate list |
| `IkFilter.AcceptedIndices` | needle_planner/src/needle_planner_test_main_v2.cpp:176-187 | every accepted position is a valid index into the candidate poses |
| `IkFilter.AcceptedIndicesOrdered` | needle_planner/src/needle_planner_test_main_v2.cpp:176-206 | the accepted positions are strictly increasing and are exactly the positions of the poses IK accepts |
| `IkFilter.VettedMembership` | needle_planner/src/needle_planner_test_main_v2.cpp:185-187 | a pose is in the vetted list exactly when it is a candidate that IK accepts |
| `IkFilter.VettedIsOrderedSubsequence` | needle_planner/src/needle_planner_test_main_v2.cpp:176-207 | the k-th vetted pose is the candidate at the k-th accepted position, so the vetted list is the order-preserving subsequence of the accepted poses |
| `IkFilter.VettedCountMatchesFlags` | needle_planner/src/needle_planner_test_main_v2.cpp:185-205 | the vetted list's length equals the number of 1 entries in the status list |
| `IkFilter.NothingReachable` | needle_planner/src/needle_planner_test_main_v2.cpp:203-206 | if IK rejects every pose, the status list is all zeros with one entry per pose, the count is 0 and the vetted list is empty |
| `IkFilter.Residual` | needle_planner/src/needle_planner_test_main_v2.cpp:197-198 | the origin error is zero exactly when the IK target and the FK pose have the same translation, and the rotation error is zero exactly when they have the same rotation block |
| `IkFilter.FilterPoses` | needle_planner/src/needle_planner_test_main_v2.cpp:168-207 | starting from the cleared lists, the loop leaves the status list `IkFlags` and the vetted list `VettedPoses` of the candidates, with the vetted length equal to the count of 1 entries; the contract does not involve the FK solver, so the diagnostic residual cannot change either list |
| `NeedleDriveSession.SweepStatusAt` | needle_planner/src/needle_planner_test_main_v2.cpp:156-212 | the k-th printed status list is the status list of the poses planned for angle k |
| `NeedleDriveSession.ExitAngleSweep` | needle_planner/src/needle_planner_test_main_v2.cpp:156-213 | the sweep runs exactly 7 iterations at angles 0.0, 1.0, ..., 6.0; iteration k prints the status list of angle k's poses; the vetted list left afterwards holds only the accepted poses of the last angle, 6.0 |
| `NeedleDriveSession.PlannerSession` | needle_planner/src/needle_planner_test_main_v2.cpp:84-214 | the default calibration is used exactly when every lookup attempt failed; both chosen transforms are `CalibrationFor`; the list written to file holds the camera-frame poses of angle 6.0 that IK accepts once each is mapped through the inverse of PSM one's chosen calibration |

## Left out

- ROS start-up, node handle, `ros::ok()`, `ros::Duration(0.5).sleep()` and `ros::spinOnce()`. These are process and timing plumbing; the attempt number given to `lookup` stands for the time of each attempt.
- All console output (`cout`, `ROS_INFO`, `ROS_WARN`, the `test_debug` branches) and console input (`cin` of phi_x, phi_y and the tilt). These are I/O. The sweep returns the angles and status lists it would print; the three inputs are folded into `planner`.
- The interactive loop `while (ros::ok())` is modelled for one pass (`PlannerSession`). Each pass clears both lists before refilling them, so passes do not affect each other.
- The `NeedlePlanner` library (`compute_tissue_frame_wrt_camera`, `compute_grasp_transform`, `set_psi_needle_axis_tilt_wrt_tissue`, `compute_needle_drive_gripper_affines`, `write_needle_drive_affines_to_file`). Its code is not part of this model. Its pose output per angle is the parameter `planner`, and the write is the returned `written` list.
- The cosine and sine that place the exit point for each angle (line 159). This is trigonometry on doubles, folded into `planner`.
- `Davinci_IK_solver` and `Davinci_fwd_solver` internals. Their code is not part of this model; they are the oracles `ik` and `fk`.
- Eigen's affine `inverse()`. This is floating-point numerics, so it is the oracle `invert`. The affine product with a pose is modelled on exact reals.
- `ik_ok_array`, `ik_score` and the second pose list `gripper2_affines_wrt_camera`. The planner library fills them and the driver never reads them.
- The tf lookup results after a failed run: the model starts them at an identity transform; the driver leaves them default-constructed. They are not used when `tferr` is set.
- Floating point: all arithmetic is on exact reals. The defaults' x offset of 0.3 is exact here and within rounding in the driver's doubles.
- `IkFilter.VettedPoses`: its own contract states only the length bound; membership, order and count are the lemmas `VettedMembership`, `VettedIsOrderedSubsequence` and `VettedCountMatchesFlags`.
- `IkFilter.AcceptedIndices`: its own contract states only the index range; ordering and exact membership are the lemma `AcceptedIndicesOrdered`.
