/**
  One turn of the drone's main loop: the sensor fusion's three controller
  outputs are mixed into four motor throttles for a quad in X layout,
  clamped, mapped onto the 1000..2000 ESC range (one motor turns the other
  way round), and held at idle during the first two seconds.  A waiting
  remote request is then answered.  Throttles are reals until the final cast
  to `u16`, which truncates and saturates as Rust's `as` does.
 */
module FlightLoop {
  import opened Wrappers
  import opened Clock
  import EscProtocol
  import SensorFusion

  // ---------------------------------------------------------------------
  // Mixer
  // ---------------------------------------------------------------------

  /** Motor positions, by index into the throttle array. */
  const FrontLeft: nat := 0
  const FrontRight: nat := 1
  const BackRight: nat := 2
  const BackLeft: nat := 3

  /** Only the back-left motor is mounted reversed. */
  const Reversed: seq<bool> := [false, false, false, true]

  /** The loop flies with no collective thrust. */
  const Thrust: real := 0.0

  /**
    The quad-X sign table.  The four equations determine the mix: thrust is
    the mean, roll pushes the left side against the right, pitch the front
    against the back, and yaw one diagonal against the other.
   */
  function Mix(thrust: real, roll: real, pitch: real, yaw: real): (m: seq<real>)
    ensures |m| == 4
    ensures m[FrontLeft] + m[FrontRight] + m[BackRight] + m[BackLeft] == 4.0 * thrust
    ensures (m[FrontLeft] + m[BackLeft]) - (m[FrontRight] + m[BackRight]) == 4.0 * roll
    ensures (m[FrontLeft] + m[FrontRight]) - (m[BackRight] + m[BackLeft]) == 4.0 * pitch
    ensures (m[FrontRight] + m[BackLeft]) - (m[FrontLeft] + m[BackRight]) == 4.0 * yaw
  {
    [thrust + roll + pitch - yaw,
     thrust - roll + pitch + yaw,
     thrust - roll - pitch - yaw,
     thrust + roll - pitch + yaw]
  }

  /** The thrust, roll, pitch and yaw that a mix of four throttles carries. */
  function Unmix(m: seq<real>): (c: (real, real, real, real))
    requires |m| == 4
  {
    ((m[0] + m[1] + m[2] + m[3]) / 4.0,
     (m[0] + m[3] - m[1] - m[2]) / 4.0,
     (m[0] + m[1] - m[2] - m[3]) / 4.0,
     (m[1] + m[3] - m[0] - m[2]) / 4.0)
  }

  lemma UnmixMix(thrust: real, roll: real, pitch: real, yaw: real)
    ensures Unmix(Mix(thrust, roll, pitch, yaw)) == (thrust, roll, pitch, yaw)
  {
  }

  /** Every four throttles are the mix of exactly one command: the sign table is invertible. */
  lemma MixUnmix(m: seq<real>)
    requires |m| == 4
    ensures var (t, r, p, y) := Unmix(m); Mix(t, r, p, y) == m
  {
    var (t, r, p, y) := Unmix(m);
    var n := Mix(t, r, p, y);
    assert n[0] == m[0] && n[1] == m[1] && n[2] == m[2] && n[3] == m[3];
  }

  // ---------------------------------------------------------------------
  // Clamp, reversal, cast
  // ---------------------------------------------------------------------

  /** `f32::clamp(0.0, 1000.0)`; there is no NaN among the reals. */
  function Clamp(x: real): (c: real)
    ensures 0.0 <= c <= 1000.0
    ensures 0.0 <= x <= 1000.0 ==> c == x
    ensures x < 0.0 ==> c == 0.0
    ensures x > 1000.0 ==> c == 1000.0
  {
    if x < 0.0 then 0.0 else if x > 1000.0 then 1000.0 else x
  }

  lemma ClampIdempotent(x: real)
    ensures Clamp(Clamp(x)) == Clamp(x)
  {
  }

  lemma ClampMonotone(x: real, y: real)
    requires x <= y
    ensures Clamp(x) <= Clamp(y)
  {
  }

  /** A reversed motor gets the negated throttle; then every throttle is offset by 1000. */
  function MapThrottle(clamped: real, reversed: bool): (t: real)
    requires 0.0 <= clamped <= 1000.0
    ensures reversed ==> 0.0 <= t <= 1000.0 && t + clamped == 1000.0
    ensures !reversed ==> 1000.0 <= t <= 2000.0 && t - clamped == 1000.0
  {
    (if reversed then -clamped else clamped) + 1000.0
  }

  /** The values of a `u16`. */
  type U16 = n: int | 0 <= n <= 0xFFFF

  /** Rust's `f32 as u16`: toward zero, then saturating at both ends. */
  function CastU16(x: real): (r: U16)
    ensures x < 1.0 ==> r == 0
    ensures 0.0 <= x < 65536.0 ==> r as real <= x < r as real + 1.0
    ensures x >= 65535.0 ==> r == 0xFFFF
  {
    if x <= 0.0 then 0 else if x >= 65535.0 then 0xFFFF else x.Floor
  }

  /** A whole number of the `u16` range survives the cast unchanged. */
  lemma CastWhole(n: nat)
    requires n <= 0xFFFF
    ensures CastU16(n as real) == n
  {
  }

  lemma CastMonotone(x: real, y: real)
    requires x <= y
    ensures CastU16(x) <= CastU16(y)
  {
    if 0.0 < x && y < 65535.0 {
      assert x.Floor <= y.Floor;
    }
  }

  /** The command one motor is sent, from its mixed value. */
  function MotorCommand(mixed: real, reversed: bool): (t: U16)
    ensures !reversed ==> 1000 <= t <= 2000
    ensures reversed ==> t <= 1000
  {
    var c := Clamp(mixed);
    var u := MapThrottle(c, reversed);
    CastU16(u)
  }

  /** The four motor commands for a controller output. */
  function Throttles(thrust: real, roll: real, pitch: real, yaw: real): (t: seq<U16>)
    ensures |t| == 4
    ensures forall k :: 0 <= k < 4 ==> t[k] == MotorCommand(Mix(thrust, roll, pitch, yaw)[k], Reversed[k])
  {
    var m := Mix(thrust, roll, pitch, yaw);
    seq(4, k requires 0 <= k < 4 => MotorCommand(m[k], Reversed[k]))
  }

  /** The three unreversed motors lie in 1000..2000 and the reversed one in 0..1000. */
  lemma ThrottleRanges(thrust: real, roll: real, pitch: real, yaw: real)
    ensures var t := Throttles(thrust, roll, pitch, yaw);
      1000 <= t[FrontLeft] <= 2000 && 1000 <= t[FrontRight] <= 2000 && 1000 <= t[BackRight] <= 2000
      && t[BackLeft] <= 1000
  {
  }

  /** An unreversed motor is sent 1000 plus the whole part of its clamped mix. */
  lemma ForwardCommand(mixed: real)
    ensures MotorCommand(mixed, false) == 1000 + Clamp(mixed).Floor
  {
    var c := Clamp(mixed);
    var t := MotorCommand(mixed, false);
    assert t as real <= c + 1000.0 < t as real + 1.0;
  }

  /** The reversed motor is sent 1000 less the clamped mix, rounded down. */
  lemma ReversedCommand(mixed: real)
    ensures MotorCommand(mixed, true) == (1000.0 - Clamp(mixed)).Floor
  {
    var c := Clamp(mixed);
    var t := MotorCommand(mixed, true);
    if c == 1000.0 {
      assert t == 0;
    } else {
      assert t as real <= 1000.0 - c < t as real + 1.0;
    }
  }

  /** A motor whose mix is not positive idles at 1000, whichever way round it turns. */
  lemma IdleWhenNotPositive(mixed: real, reversed: bool)
    requires mixed <= 0.0
    ensures MotorCommand(mixed, reversed) == 1000
  {
    CastWhole(1000);
  }

  /** With no thrust the four mixes cancel, so at least one motor idles at exactly 1000. */
  lemma SomeMotorIdles(roll: real, pitch: real, yaw: real)
    ensures exists k :: 0 <= k < 4 && Throttles(Thrust, roll, pitch, yaw)[k] == 1000
  {
    var m := Mix(Thrust, roll, pitch, yaw);
    var t := Throttles(Thrust, roll, pitch, yaw);
    var k := if m[0] <= 0.0 then 0 else if m[1] <= 0.0 then 1 else if m[2] <= 0.0 then 2 else 3;
    assert m[k] <= 0.0;
    IdleWhenNotPositive(m[k], Reversed[k]);
    assert t[k] == 1000;
  }

  // ---------------------------------------------------------------------
  // Motors-off window
  // ---------------------------------------------------------------------

  /** The idle command: 1000 on every motor. */
  const Idle: seq<U16> := [1000, 1000, 1000, 1000]

  /** The end of the motors-off window, two seconds after `now`, saturating. */
  function MotorsOffUntil(now: Ticks): (until: Ticks)
    ensures now + Seconds(2) <= MaxTicks ==> until == now + Seconds(2)
    ensures now <= until
  {
    SaturatingAdd(now, Seconds(2))
  }

  /** Inside the window the idle command goes out whatever the controller asks for. */
  function Command(now: Ticks, offUntil: Ticks, mapped: seq<U16>): (sent: seq<U16>)
    requires |mapped| == 4
    ensures |sent| == 4
    ensures now < offUntil ==> sent == Idle
    ensures offUntil <= now ==> sent == mapped
  {
    if now < offUntil then Idle else mapped
  }

  /**
    Less than two seconds after arming only the idle command is sent.  (When
    the window's end saturates at the last instant, that instant itself falls
    outside the window.)
   */
  lemma IdleDuringWindow(start: Ticks, now: Ticks, mapped: seq<U16>)
    requires |mapped| == 4 && start <= now < start + Seconds(2) && now < MaxTicks
    ensures Command(now, MotorsOffUntil(start), mapped) == Idle
  {
  }

  /** From two seconds on (and without overflow) the mixed commands are sent. */
  lemma MixedAfterWindow(start: Ticks, now: Ticks, mapped: seq<U16>)
    requires |mapped| == 4 && start + Seconds(2) <= now
    ensures Command(now, MotorsOffUntil(start), mapped) == mapped
  {
  }

  /** On the OneShot wire the idle command is a 1500-tick pulse on every motor. */
  lemma IdleOnWire()
    ensures forall k :: 0 <= k < 4 ==> Idle[k] == 1000
    ensures EscProtocol.ThrottleTransform(EscProtocol.OneShot125, 1000) == 1500
  {
    var half: bv16 := 1000 / 2;
    assert half == 500;
  }

  // ---------------------------------------------------------------------
  // Remote requests
  // ---------------------------------------------------------------------

  /** The requests the drone's radio task hands the loop; floats are reals. */
  datatype RemoteRequest =
    | Ping
    | PowerOn
    | PowerOff
    | MotorRpm(rpm: seq<U16>)
    | Move(x: real, y: real, z: real)

  datatype DroneResponse = Pong | Log(text: string)

  /** The answers to a request, or the `todo!()` panic that every request but a ping reaches. */
  datatype Handled = Answered(responses: seq<DroneResponse>) | Unimplemented

  /** At most one request per turn: a ping is answered with one pong. */
  function Dispatch(request: Option<RemoteRequest>): (h: Handled)
    ensures h.Answered? <==> (request.None? || request.value.Ping?)
    ensures h.Answered? ==> |h.responses| <= 1
    ensures h.Answered? ==> (h.responses == [Pong] <==> request.Some?)
  {
    match request
    case None => Answered([])
    case Some(Ping) => Answered([Pong])
    case Some(_) => Unimplemented
  }

  // ---------------------------------------------------------------------
  // One turn of the loop
  // ---------------------------------------------------------------------

  datatype Loop = Loop(fusion: SensorFusion.Fusion, offUntil: Ticks)

  /** The loop's state after arming at `now`. */
  function Start(now: Ticks): (l: Loop)
    ensures l.fusion == SensorFusion.Initial() && l.fusion.Valid()
    ensures now + Seconds(2) <= MaxTicks ==> l.offUntil == now + Seconds(2)
  {
    Loop(SensorFusion.Initial(), MotorsOffUntil(now))
  }

  datatype Turn = Turn(next: Loop, sent: seq<U16>, handled: Handled)

  /**
    One turn: fuse the sample, mix the controller outputs with zero thrust,
    send either them or the idle command, then handle the waiting request.
   */
  function Step(l: Loop, s: SensorFusion.ImuSample, tilt: SensorFusion.Tilt, now: Ticks, request: Option<RemoteRequest>): (t: Turn)
    requires l.fusion.Valid() && s.Valid()
    ensures t.next.fusion.Valid() && t.next.offUntil == l.offUntil
    ensures t.next.fusion == SensorFusion.Step(l.fusion, s, tilt).1
    ensures |t.sent| == 4
    ensures now < l.offUntil ==> t.sent == Idle
    ensures l.offUntil <= now ==>
      var outs := SensorFusion.Step(l.fusion, s, tilt).0;
      t.sent == Throttles(Thrust, outs[0], outs[1], outs[2])
    ensures t.handled == Dispatch(request)
  {
    var (outs, fusion) := SensorFusion.Step(l.fusion, s, tilt);
    var mapped := Throttles(Thrust, outs[0], outs[1], outs[2]);
    Turn(Loop(fusion, l.offUntil), Command(now, l.offUntil, mapped), Dispatch(request))
  }

  /** Every command the loop sends is within the ESC input range 0..2000. */
  lemma SentInRange(l: Loop, s: SensorFusion.ImuSample, tilt: SensorFusion.Tilt, now: Ticks, request: Option<RemoteRequest>, k: nat)
    requires l.fusion.Valid() && s.Valid() && k < 4
    ensures Step(l, s, tilt, now, request).sent[k] <= 2000
    ensures k != BackLeft ==> 1000 <= Step(l, s, tilt, now, request).sent[k]
  {
    var outs := SensorFusion.Step(l.fusion, s, tilt).0;
    ThrottleRanges(Thrust, outs[0], outs[1], outs[2]);
  }
}
