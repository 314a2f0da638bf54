/**
  The flight controller's attitude estimate and its three PID controllers,
  over the reals.  The accelerometer leveling (a normalisation, `atan2` and
  `sqrt`) is a function parameter `tilt`: it maps the scaled gravity vector
  to a roll and pitch estimate.
 */
module SensorFusion {

  // ---------------------------------------------------------------------
  // PID
  // ---------------------------------------------------------------------

  datatype Pid = Pid(kp: real, ki: real, kd: real, lastInput: real, sum: real)

  /** The controller's output for gains `kp`, `ki`, `kd`, given the error, the updated sum and the previous input. */
  function PidOutput(kp: real, ki: real, kd: real, error: real, sum: real, previous: real): real {
    kp * error + ki * sum + kd * (previous - error)
  }

  /**
    `Pid::advance`: the error is added to the sum before the output is
    formed, and remembered as the last input afterwards.  The derivative term
    is the previous input minus this one.
   */
  function Advance(p: Pid, error: real): (r: (real, Pid))
    ensures r.1.kp == p.kp && r.1.ki == p.ki && r.1.kd == p.kd
    ensures r.1.sum == p.sum + error && r.1.lastInput == error
    ensures r.0 == PidOutput(p.kp, p.ki, p.kd, error, p.sum + error, p.lastInput)
  {
    var next := p.(sum := p.sum + error);
    (PidOutput(next.kp, next.ki, next.kd, error, next.sum, next.lastInput), next.(lastInput := error))
  }

  function Total(es: seq<real>): real {
    if |es| == 0 then 0.0 else Total(es[..|es| - 1]) + es[|es| - 1]
  }

  /** A controller fed `errors` one after the other: its outputs and its final state. */
  function Feed(p: Pid, errors: seq<real>): (r: (seq<real>, Pid))
    ensures |r.0| == |errors|
    decreases |errors|
  {
    if |errors| == 0 then ([], p)
    else
      var (outs, q) := Feed(p, errors[..|errors| - 1]);
      var (out, q2) := Advance(q, errors[|errors| - 1]);
      (outs + [out], q2)
  }

  /** The input before the `k`-th one: the remembered input for the first. */
  function Previous(p: Pid, errors: seq<real>, k: nat): real
    requires k < |errors|
  {
    if k == 0 then p.lastInput else errors[k - 1]
  }

  /** The state in closed form: the sum is the starting sum plus every error, with no decay and no clamp. */
  lemma {:induction false} FeedState(p: Pid, errors: seq<real>)
    ensures var q := Feed(p, errors).1;
      q.kp == p.kp && q.ki == p.ki && q.kd == p.kd
      && q.sum == p.sum + Total(errors)
      && q.lastInput == (if |errors| == 0 then p.lastInput else errors[|errors| - 1])
    decreases |errors|
  {
    if |errors| > 0 {
      FeedState(p, errors[..|errors| - 1]);
    }
  }

  /** Feeding one more error appends one output and leaves the earlier ones alone. */
  lemma FeedSnoc(p: Pid, errors: seq<real>)
    requires |errors| > 0
    ensures var n := |errors| - 1;
      Feed(p, errors).0 == Feed(p, errors[..n]).0 + [Advance(Feed(p, errors[..n]).1, errors[n]).0]
  {
  }

  /** The last output in closed form. */
  lemma FeedLastOutput(p: Pid, errors: seq<real>)
    requires |errors| > 0
    ensures var n := |errors| - 1;
      Feed(p, errors).0[n] == PidOutput(p.kp, p.ki, p.kd, errors[n], p.sum + Total(errors), Previous(p, errors, n))
  {
    var n := |errors| - 1;
    var q := Feed(p, errors[..n]).1;
    FeedSnoc(p, errors);
    FeedState(p, errors[..n]);
    assert q.sum + errors[n] == p.sum + Total(errors);
  }

  /** The `k`-th output in closed form: it uses the sum up to and including the `k`-th error. */
  lemma {:induction false} FeedOutput(p: Pid, errors: seq<real>, k: nat)
    requires k < |errors|
    ensures Feed(p, errors).0[k]
         == PidOutput(p.kp, p.ki, p.kd, errors[k], p.sum + Total(errors[..k + 1]), Previous(p, errors, k))
    decreases |errors|
  {
    var n := |errors| - 1;
    var init := errors[..n];
    if k < n {
      FeedSnoc(p, errors);
      FeedOutput(p, init, k);
      assert init[..k + 1] == errors[..k + 1];
      assert Previous(p, init, k) == Previous(p, errors, k);
      assert Feed(p, errors).0[k] == Feed(p, init).0[k];
    } else {
      FeedLastOutput(p, errors);
      assert errors[..k + 1] == errors;
    }
  }

  function Repeat(x: real, n: nat): (xs: seq<real>)
    ensures |xs| == n
  {
    if n == 0 then [] else Repeat(x, n - 1) + [x]
  }

  lemma {:induction false} TotalOfOnes(n: nat)
    ensures Total(Repeat(1.0, n)) == n as real
  {
    if n > 0 {
      assert Repeat(1.0, n)[..n - 1] == Repeat(1.0, n - 1);
      TotalOfOnes(n - 1);
    }
  }

  /** A fresh controller fed an error of one `n` times holds a sum of exactly `n`. */
  lemma ConstantErrorAccumulates(kp: real, ki: real, kd: real, n: nat)
    ensures Feed(Pid(kp, ki, kd, 0.0, 0.0), Repeat(1.0, n)).1.sum == n as real
  {
    FeedState(Pid(kp, ki, kd, 0.0, 0.0), Repeat(1.0, n));
    TotalOfOnes(n);
  }

  // ---------------------------------------------------------------------
  // Complementary filter
  // ---------------------------------------------------------------------

  /** The IMU axis for each of roll, pitch and yaw, and its sign. */
  const AxisMap: seq<nat> := [0, 1, 2]
  const AxisScale: seq<real> := [1.0, 1.0, -1.0]

  datatype ImuSample = ImuSample(gyro: seq<real>, accel: seq<real>, dt: real) {
    predicate Valid() {
      |gyro| == 3 && |accel| == 3
    }
  }

  datatype Fusion = Fusion(alpha: real, orientation: seq<real>, target: seq<real>, pid: seq<Pid>) {
    predicate Valid() {
      |orientation| == 3 && |target| == 3 && |pid| == 3
    }
  }

  /** The accelerometer's roll and pitch for a scaled gravity vector. */
  type Tilt = ((real, real, real)) -> (real, real)

  /** `ComplementaryFilterFusion::new`: gains per axis, every controller's state zero. */
  function New(alpha: real, orientation: seq<real>, target: seq<real>, kp: seq<real>, ki: seq<real>, kd: seq<real>): (f: Fusion)
    requires |orientation| == 3 && |target| == 3 && |kp| == 3 && |ki| == 3 && |kd| == 3
    ensures f.Valid() && f.alpha == alpha && f.orientation == orientation && f.target == target
    ensures forall i :: 0 <= i < 3 ==>
      f.pid[i] == Pid(kp[i], ki[i], kd[i], 0.0, 0.0)
  {
    Fusion(alpha, orientation, target, seq(3, i requires 0 <= i < 3 => Pid(kp[i], ki[i], kd[i], 0.0, 0.0)))
  }

  /** `set_target`: only the target changes. */
  function SetTarget(f: Fusion, target: seq<real>): (g: Fusion)
    requires f.Valid() && |target| == 3
    ensures g.Valid() && g.target == target
    ensures g.alpha == f.alpha && g.orientation == f.orientation && g.pid == f.pid
  {
    f.(target := target)
  }

  /** The orientation integrated from the gyroscope alone. */
  function GyroEstimate(f: Fusion, s: ImuSample): (g: seq<real>)
    requires f.Valid() && s.Valid()
    ensures |g| == 3
  {
    seq(3, i requires 0 <= i < 3 => f.orientation[i] + AxisScale[i] * s.gyro[AxisMap[i]] * s.dt)
  }

  /** The gravity vector the leveling works from. */
  function Gravity(s: ImuSample): (g: (real, real, real))
    requires s.Valid()
  {
    (AxisScale[0] * s.accel[AxisMap[0]] * s.dt,
     AxisScale[1] * s.accel[AxisMap[1]] * s.dt,
     AxisScale[2] * s.accel[AxisMap[2]] * s.dt)
  }

  function Blend(alpha: real, gyro: real, accel: real): real {
    alpha * gyro + (1.0 - alpha) * accel
  }

  /**
    `advance`: roll and pitch blend the gyroscope integration with the
    accelerometer leveling; yaw follows the gyroscope alone.  Each controller
    is then fed its target minus the new orientation.
   */
  function Step(f: Fusion, s: ImuSample, tilt: Tilt): (r: (seq<real>, Fusion))
    requires f.Valid() && s.Valid()
    ensures r.1.Valid() && |r.0| == 3
    ensures r.1.alpha == f.alpha && r.1.target == f.target
    ensures r.1.orientation[2] == f.orientation[2] - s.gyro[2] * s.dt
    ensures forall i :: 0 <= i < 3 ==>
      (r.0[i], r.1.pid[i]) == Advance(f.pid[i], f.target[i] - r.1.orientation[i])
  {
    var g := GyroEstimate(f, s);
    var (accRoll, accPitch) := tilt(Gravity(s));
    var o := [Blend(f.alpha, g[0], accRoll), Blend(f.alpha, g[1], accPitch), g[2]];
    var steps := seq(3, i requires 0 <= i < 3 => Advance(f.pid[i], f.target[i] - o[i]));
    (seq(3, i requires 0 <= i < 3 => steps[i].0),
     f.(orientation := o, pid := seq(3, i requires 0 <= i < 3 => steps[i].1)))
  }

  /** Yaw takes nothing from the accelerometer: samples differing only there give the same yaw. */
  lemma YawIgnoresAccelerometer(f: Fusion, s: ImuSample, accel: seq<real>, tilt: Tilt, tilt2: Tilt)
    requires f.Valid() && s.Valid() && |accel| == 3
    ensures Step(f, s, tilt).1.orientation[2] == Step(f, s.(accel := accel), tilt2).1.orientation[2]
  {
  }

  /** Roll and pitch are the blend of the gyroscope integration and the leveling estimate. */
  lemma RollPitchBlend(f: Fusion, s: ImuSample, tilt: Tilt)
    requires f.Valid() && s.Valid()
    ensures var o := Step(f, s, tilt).1.orientation;
      o[0] == Blend(f.alpha, f.orientation[0] + s.gyro[0] * s.dt, tilt(Gravity(s)).0)
      && o[1] == Blend(f.alpha, f.orientation[1] + s.gyro[1] * s.dt, tilt(Gravity(s)).1)
  {
  }

  /** With `alpha` between 0 and 1 the new roll lies between the two estimates. */
  lemma BlendBetween(alpha: real, gyro: real, accel: real)
    requires 0.0 <= alpha <= 1.0
    ensures (gyro <= accel ==> gyro <= Blend(alpha, gyro, accel) <= accel)
    ensures (accel <= gyro ==> accel <= Blend(alpha, gyro, accel) <= gyro)
  {
    var d := accel - gyro;
    var c := 1.0 - alpha;
    assert Blend(alpha, gyro, accel) == gyro + c * d;
    assert d - c * d == alpha * d;
    if d >= 0.0 {
      assert alpha * d >= 0.0 && c * d >= 0.0;
    } else {
      assert alpha * d <= 0.0 && c * d <= 0.0;
    }
  }

  /** The fusion the flight loop starts with: `alpha` 0.95, level, proportional gain 15 on every axis. */
  function Initial(): (f: Fusion)
    ensures f.Valid() && f.alpha == 0.95
    ensures forall i :: 0 <= i < 3 ==>
      f.orientation[i] == 0.0 && f.target[i] == 0.0 && f.pid[i] == Pid(15.0, 0.0, 0.0, 0.0, 0.0)
  {
    New(0.95, [0.0, 0.0, 0.0], [0.0, 0.0, 0.0], [15.0, 15.0, 15.0], [0.0, 0.0, 0.0], [0.0, 0.0, 0.0])
  }

  /** Without integral and derivative gains, each controller's output is fifteen times its error. */
  lemma InitialIsProportional(s: ImuSample, tilt: Tilt)
    requires s.Valid()
    ensures var (outs, g) := Step(Initial(), s, tilt);
      forall i :: 0 <= i < 3 ==> outs[i] == 15.0 * (0.0 - g.orientation[i])
  {
    var f := Initial();
    assert forall i :: 0 <= i < 3 ==> f.pid[i] == Pid(15.0, 0.0, 0.0, 0.0, 0.0) && f.target[i] == 0.0;
  }
}
