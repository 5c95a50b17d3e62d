/** The hardware interface of ackermann_system.cpp: wheel odometry over measured time, the gyro
    calibration, and the two write-failure counters. Times are reals in seconds. */
module HardwareSystem {
  import opened Options
  import opened CanComms

  const ENC_STALE_LIMIT := 0.333
  const MIN_INTERVAL := 0.0001
  const SETTLE_CYCLES := 45
  const CALIBRATION_SAMPLES := 200
  const FAILURE_LIMIT := 5
  const CONGESTION_LIMIT := 90
  const STEER_MAX := 0.286
  const WHEEL_VEL_MAX := 18.77

  datatype Wheel = Wheel(enc: int, pos: real, vel: real)
  datatype Odometry = Odometry(left: Wheel, right: Wheel, dtAccum: real)
  datatype Gyro = Gyro(calibrating: bool, settle: nat, count: nat, sum: real, offset: real, z: real)
  datatype Counters = Counters(failures: nat, congestion: nat)

  // ---- One cycle ----

  function Turn(w: Wheel, radsPerCount: real, enc: int, dt: real): Wheel {
    var pos := enc as real * radsPerCount;
    Wheel(enc, pos, if dt > MIN_INTERVAL then (pos - w.pos) / dt else w.vel)
  }

  function ReadEncoder(o: Odometry, radsPerCount: real, enc: Option<(int, int)>, period: real): Odometry {
    var dt := o.dtAccum + period;
    match enc
    case Some((l, r)) => Odometry(Turn(o.left, radsPerCount, l, dt), Turn(o.right, radsPerCount, r, dt), 0.0)
    case None => o.(dtAccum := dt)
  }

  /** Whether the read reports an error. */
  predicate EncoderLost(o: Odometry, enc: Option<(int, int)>, period: real) {
    enc.None? && o.dtAccum + period >= ENC_STALE_LIMIT
  }

  function ReadGyro(g: Gyro, z: real, reset: bool): Gyro {
    if !g.calibrating then g.(z := if reset then 0.0 else z - g.offset)
    else if g.settle > 0 then g.(settle := g.settle - 1, z := 0.0)
    else if reset then g.(z := 0.0)
    else
      var sum, count := g.sum + z, g.count + 1;
      if count >= CALIBRATION_SAMPLES
      then Gyro(false, 0, count, sum, sum / CALIBRATION_SAMPLES as real, 0.0)
      else g.(sum := sum, count := count, z := 0.0)
  }

  datatype WriteClass = Sent | Transient | Hard

  /** Only the motor write, the last of the cycle, decides what kind of failure it was. */
  function ClassOf(steer: WriteOutcome, motor: WriteOutcome): WriteClass {
    if steer.Written? && motor.Written? then Sent else if motor.Momentary? then Transient else Hard
  }

  function CountWrite(c: Counters, w: WriteClass): Counters {
    match w
    case Sent => Counters(0, 0)
    case Transient => Counters(0, c.congestion + 1)
    case Hard => Counters(c.failures + 1, c.congestion)
  }

  predicate WriteError(c: Counters, w: WriteClass) {
    (w.Transient? && c.congestion + 1 >= CONGESTION_LIMIT) || (w.Hard? && c.failures + 1 >= FAILURE_LIMIT)
  }

  function Clamp(x: real, lo: real, hi: real): (r: real)
    requires lo <= hi
    ensures lo <= r <= hi && (lo <= x <= hi ==> r == x) && (x < lo ==> r == lo) && (hi < x ==> r == hi)
  {
    if x < lo then lo else if hi < x then hi else x
  }

  function EncOf(s: Sample): Option<(int, int)> {
    if s.enc.Some? && s.enc.value.VelocityFeedback? then Some((s.enc.value.left, s.enc.value.right)) else None
  }

  /** What reading knows: both sensors' state and the number of the last accepted IMU sample. */
  datatype Sensed = Sensed(odometry: Odometry, gyro: Gyro, accepted: Option<Seq8>)

  function ReadCycle(r: Sensed, radsPerCount: real, queue: seq<Frame>, period: real): Sensed {
    var s := Drain(queue);
    Sensed(ReadEncoder(r.odometry, radsPerCount, EncOf(s), period),
           if StatusOf(s, r.accepted).imu then ReadGyro(r.gyro, s.gyro.value.z, s.gyro.value.imuReset) else r.gyro,
           AcceptedAfter(s, r.accepted))
  }

  predicate ReadFails(r: Sensed, queue: seq<Frame>, period: real) {
    EncoderLost(r.odometry, EncOf(Drain(queue)), period)
  }

  lemma {:induction false} LastIsWanted(queue: seq<Frame>, wanted: Frame -> bool)
    ensures Last(queue, wanted).Some? ==> wanted(Last(queue, wanted).value)
  {
    if queue != [] {
      LastIsWanted(queue[..|queue| - 1], wanted);
    }
  }

  class AckermannSystem {
    const can: CanLink
    const radsPerCount: real
    var odometry: Odometry
    var gyro: Gyro
    var counters: Counters

    constructor (can: CanLink, radsPerCount: real)
      ensures this.can == can && this.radsPerCount == radsPerCount && counters == Counters(0, 0)
    {
      this.can, this.radsPerCount := can, radsPerCount;
      odometry := Odometry(Wheel(0, 0.0, 0.0), Wheel(0, 0.0, 0.0), 0.0);
      gyro := Gyro(true, 0, 0, 0.0, 0.0, 0.0);
      counters := Counters(0, 0);
    }

    function View(): Sensed
      reads this, can
    {
      Sensed(odometry, gyro, can.Accepted())
    }

    /** Re-baselines odometry and calibration. The write counters keep their values. */
    method OnActivate(connected: bool) returns (ok: bool)
      modifies this
      ensures ok == connected && counters == old(counters)
      ensures odometry == if connected then Rest() else old(odometry)
      ensures gyro == if connected then Uncalibrated(old(gyro.z)) else old(gyro)
    {
      if !connected {
        return false;
      }
      odometry := Odometry(Wheel(0, 0.0, 0.0), Wheel(0, 0.0, 0.0), 0.0);
      gyro := gyro.(settle := SETTLE_CYCLES, calibrating := true, count := 0, sum := 0.0, offset := 0.0);
      return true;
    }

    /** One read cycle over the frames received since the last. */
    method Read(connected: bool, queue: seq<Frame>, period: real) returns (ok: bool)
      modifies this, can
      ensures !connected ==> !ok && View() == old(View())
      ensures connected ==>
                && View() == ReadCycle(old(View()), radsPerCount, queue, period)
                && ok == !ReadFails(old(View()), queue, period)
      ensures counters == old(counters)
    {
      if !connected {
        return false;
      }
      var sample, status := can.ReadSensorValues(queue);
      LastIsWanted(queue, (f: Frame) => f.VelocityFeedback?);
      if status.imu {
        UpdateGyro(sample.gyro.value.z, sample.gyro.value.imuReset);
      }
      ok := UpdateOdometry(EncOf(sample), period);
    }

    method UpdateGyro(raw: real, reset: bool)
      modifies this`gyro
      ensures gyro == ReadGyro(old(gyro), raw, reset)
    {
      if gyro.calibrating {
        if gyro.settle > 0 {
          gyro := gyro.(settle := gyro.settle - 1);
        } else if !reset {
          gyro := gyro.(sum := gyro.sum + raw, count := gyro.count + 1);
          if gyro.count >= CALIBRATION_SAMPLES {
            gyro := gyro.(offset := gyro.sum / CALIBRATION_SAMPLES as real, calibrating := false);
          }
        }
        gyro := gyro.(z := 0.0);
      } else if reset {
        gyro := gyro.(z := 0.0);
      } else {
        gyro := gyro.(z := raw - gyro.offset);
      }
    }

    method UpdateOdometry(enc: Option<(int, int)>, period: real) returns (ok: bool)
      modifies this`odometry
      ensures odometry == ReadEncoder(old(odometry), radsPerCount, enc, period)
      ensures ok == !EncoderLost(old(odometry), enc, period)
    {
      var dt := odometry.dtAccum + period;
      odometry := odometry.(dtAccum := dt);
      if enc.Some? {
        var left, right := odometry.left, odometry.right;
        var leftPos, rightPos := enc.value.0 as real * radsPerCount, enc.value.1 as real * radsPerCount;
        var leftVel, rightVel := left.vel, right.vel;
        if dt > MIN_INTERVAL {
          leftVel, rightVel := (leftPos - left.pos) / dt, (rightPos - right.pos) / dt;
        }
        odometry := Odometry(Wheel(enc.value.0, leftPos, leftVel), Wheel(enc.value.1, rightPos, rightVel), 0.0);
        return true;
      }
      return dt < ENC_STALE_LIMIT;
    }

    /** One write cycle. Both frames are attempted, steering first; the outcomes are the kernel's. */
    method Write(connected: bool, steerCmd: real, leftCmd: real, rightCmd: real,
                 steerOutcome: WriteOutcome, motorOutcome: WriteOutcome)
      returns (ok: bool, steer: real, left: real, right: real)
      modifies this`counters, can
      ensures !connected ==> !ok && counters == old(counters)
      ensures connected ==>
                var w := ClassOf(steerOutcome, motorOutcome);
                && counters == CountWrite(old(counters), w) && ok == !WriteError(old(counters), w)
                && steer == Clamp(steerCmd, -0.286, 0.286)
                && left == Clamp(leftCmd, -18.77, 18.77) && right == Clamp(rightCmd, -18.77, 18.77)
      ensures connected && steerOutcome.Written? && motorOutcome.Written? ==> ok && counters == Counters(0, 0)
    {
      if !connected {
        return false, 0.0, 0.0, 0.0;
      }
      steer := Clamp(steerCmd, -STEER_MAX, STEER_MAX);
      left, right := Clamp(leftCmd, -WHEEL_VEL_MAX, WHEEL_VEL_MAX), Clamp(rightCmd, -WHEEL_VEL_MAX, WHEEL_VEL_MAX);
      var steerOk := can.Write(steerOutcome);
      var motorOk := can.Write(motorOutcome);
      if !steerOk || !motorOk {
        if can.lastWriteTransient {
          counters := Counters(0, counters.congestion + 1);
          if counters.congestion >= CONGESTION_LIMIT {
            return false, steer, left, right;
          }
        } else {
          counters := counters.(failures := counters.failures + 1);
          if counters.failures >= FAILURE_LIMIT {
            return false, steer, left, right;
          }
        }
      } else {
        counters := Counters(0, 0);
      }
      ok := true;
    }
  }

  function Rest(): Odometry { Odometry(Wheel(0, 0.0, 0.0), Wheel(0, 0.0, 0.0), 0.0) }
  function Uncalibrated(z: real): Gyro { Gyro(true, SETTLE_CYCLES, 0, 0.0, 0.0, z) }

  // ---- Odometry since activation ----

  datatype Cycle = Cycle(period: real, enc: Option<(int, int)>)

  function Drive(radsPerCount: real, cs: seq<Cycle>): Odometry {
    if cs == [] then Rest()
    else
      var c := cs[|cs| - 1];
      ReadEncoder(Drive(radsPerCount, cs[..|cs| - 1]), radsPerCount, c.enc, c.period)
  }

  /** Measured time over a stretch of cycles. */
  function Elapsed(cs: seq<Cycle>): real {
    if cs == [] then 0.0 else Elapsed(cs[..|cs| - 1]) + cs[|cs| - 1].period
  }

  /** The number of cycles up to and including the last fresh encoder frame. */
  function LastFresh(cs: seq<Cycle>): (n: nat)
    ensures n <= |cs| && (n > 0 ==> cs[n - 1].enc.Some?)
    ensures forall k :: n <= k < |cs| ==> cs[k].enc.None?
  {
    if cs == [] then 0 else if cs[|cs| - 1].enc.Some? then |cs| else LastFresh(cs[..|cs| - 1])
  }

  /** The accumulator is the measured time since the last fresh frame, or since activation; so a
      connected read fails exactly when no frame arrived and that age is at least 0.333 s. */
  lemma {:induction false} AccumulatorIsAge(radsPerCount: real, cs: seq<Cycle>)
    ensures Drive(radsPerCount, cs).dtAccum == Elapsed(cs[LastFresh(cs)..])
    ensures forall c: Cycle :: EncoderLost(Drive(radsPerCount, cs), c.enc, c.period) <==>
                         c.enc.None? && Elapsed(cs[LastFresh(cs)..]) + c.period >= 0.333
  {
    if cs != [] {
      var n := |cs| - 1;
      AccumulatorIsAge(radsPerCount, cs[..n]);
      if cs[n].enc.None? {
        var since := cs[LastFresh(cs)..];
        assert since[..|since| - 1] == cs[..n][LastFresh(cs)..];
      }
    }
  }

  /** The wheel under test, left or right. */
  function Side(o: Odometry, left: bool): Wheel { if left then o.left else o.right }

  /** What one cycle takes odometry o to. */
  function After(radsPerCount: real, o: Odometry, c: Cycle): Odometry { ReadEncoder(o, radsPerCount, c.enc, c.period) }

  /** The velocity a cycle publishes times the interval it covers, if it publishes one. */
  function Gain(radsPerCount: real, o: Odometry, c: Cycle, left: bool): real {
    var dt := o.dtAccum + c.period;
    if c.enc.Some? && dt > MIN_INTERVAL then Side(After(radsPerCount, o, c), left).vel * dt else 0.0
  }

  /** The position change of a cycle with a frame too soon after the last to publish a velocity. */
  function Slip(radsPerCount: real, o: Odometry, c: Cycle, left: bool): real {
    if c.enc.Some? && !(o.dtAccum + c.period > MIN_INTERVAL)
    then Side(After(radsPerCount, o, c), left).pos - Side(o, left).pos else 0.0
  }

  function Integrated(radsPerCount: real, cs: seq<Cycle>, left: bool): real {
    if cs == [] then 0.0
    else
      var before := cs[..|cs| - 1];
      Integrated(radsPerCount, before, left) + Gain(radsPerCount, Drive(radsPerCount, before), cs[|cs| - 1], left)
  }

  function Unpublished(radsPerCount: real, cs: seq<Cycle>, left: bool): real {
    if cs == [] then 0.0
    else
      var before := cs[..|cs| - 1];
      Unpublished(radsPerCount, before, left) + Slip(radsPerCount, Drive(radsPerCount, before), cs[|cs| - 1], left)
  }

  lemma TurnCovers(w: Wheel, radsPerCount: real, enc: int, dt: real)
    requires dt > MIN_INTERVAL
    ensures var t := Turn(w, radsPerCount, enc, dt); t.vel * dt == t.pos - w.pos
  {
    var d := Turn(w, radsPerCount, enc, dt).pos - w.pos;
    assert d / dt * dt == d;
  }

  lemma CycleIntegrates(radsPerCount: real, o: Odometry, c: Cycle, left: bool)
    ensures Gain(radsPerCount, o, c, left) + Slip(radsPerCount, o, c, left) ==
              Side(After(radsPerCount, o, c), left).pos - Side(o, left).pos
  {
    var dt := o.dtAccum + c.period;
    if c.enc.Some? && dt > MIN_INTERVAL {
      TurnCovers(o.left, radsPerCount, c.enc.value.0, dt);
      TurnCovers(o.right, radsPerCount, c.enc.value.1, dt);
    }
  }

  /** Over any pattern of missed frames, the published velocities integrate to the position, less
      exactly what fell into intervals of at most 0.1 ms. */
  lemma {:induction false} VelocityIntegrates(radsPerCount: real, cs: seq<Cycle>, left: bool)
    ensures Integrated(radsPerCount, cs, left) + Unpublished(radsPerCount, cs, left) ==
              Side(Drive(radsPerCount, cs), left).pos
  {
    if cs != [] {
      var n := |cs| - 1;
      VelocityIntegrates(radsPerCount, cs[..n], left);
      CycleIntegrates(radsPerCount, Drive(radsPerCount, cs[..n]), cs[n], left);
    }
  }

  /** With periods above 0.1 ms nothing is lost, however many frames were missed. */
  lemma {:induction false} NothingLost(radsPerCount: real, cs: seq<Cycle>, left: bool)
    requires forall k :: 0 <= k < |cs| ==> cs[k].period > 0.0001
    ensures Drive(radsPerCount, cs).dtAccum >= 0.0
    ensures Unpublished(radsPerCount, cs, left) == 0.0
    ensures Integrated(radsPerCount, cs, left) == Side(Drive(radsPerCount, cs), left).pos
  {
    if cs != [] {
      NothingLost(radsPerCount, cs[..|cs| - 1], left);
    }
    VelocityIntegrates(radsPerCount, cs, left);
  }

  function CountOf(enc: (int, int), left: bool): int { if left then enc.0 else enc.1 }

  /** Where a wheel stands by its own count in the last fresh frame, in radians. */
  function LastAngle(radsPerCount: real, cs: seq<Cycle>, left: bool): real {
    if LastFresh(cs) == 0 then 0.0 else CountOf(cs[LastFresh(cs) - 1].enc.value, left) as real * radsPerCount
  }

  /** What a cycle makes of a wheel's position. */
  lemma PositionAfter(radsPerCount: real, o: Odometry, c: Cycle, left: bool)
    ensures Side(After(radsPerCount, o, c), left).pos ==
              if c.enc.Some? then CountOf(c.enc.value, left) as real * radsPerCount else Side(o, left).pos
  {
  }

  lemma LastAngleNext(radsPerCount: real, cs: seq<Cycle>, left: bool)
    requires cs != []
    ensures var n := |cs| - 1;
            LastAngle(radsPerCount, cs, left) ==
              if cs[n].enc.Some? then CountOf(cs[n].enc.value, left) as real * radsPerCount
              else LastAngle(radsPerCount, cs[..n], left)
  {
    var n := |cs| - 1;
    assert LastFresh(cs) == if cs[n].enc.Some? then |cs| else LastFresh(cs[..n]);
  }

  lemma {:induction false} PositionIsLastCount(radsPerCount: real, cs: seq<Cycle>, left: bool)
    ensures Side(Drive(radsPerCount, cs), left).pos == LastAngle(radsPerCount, cs, left)
  {
    if cs != [] {
      var before, c := cs[..|cs| - 1], cs[|cs| - 1];
      PositionIsLastCount(radsPerCount, before, left);
      PositionAfter(radsPerCount, Drive(radsPerCount, before), c, left);
      LastAngleNext(radsPerCount, cs, left);
      assert Drive(radsPerCount, cs) == After(radsPerCount, Drive(radsPerCount, before), c);
    }
  }

  /** With periods above 0.1 ms the published velocities add up to that angle, in every run. */
  lemma VelocityAddsUp(radsPerCount: real, cs: seq<Cycle>, left: bool)
    requires forall k :: 0 <= k < |cs| ==> cs[k].period > 0.0001
    ensures Integrated(radsPerCount, cs, left) == LastAngle(radsPerCount, cs, left)
  {
    NothingLost(radsPerCount, cs, left);
    PositionIsLastCount(radsPerCount, cs, left);
  }

  // ---- Gyro calibration since activation ----

  datatype GyroSample = GyroSample(z: real, reset: bool)

  function Calibrate(z0: real, ss: seq<GyroSample>): Gyro {
    if ss == [] then Uncalibrated(z0)
    else ReadGyro(Calibrate(z0, ss[..|ss| - 1]), ss[|ss| - 1].z, ss[|ss| - 1].reset)
  }

  /** The samples that calibration may use: those after the settle window, crashes left out. */
  function Usable(ss: seq<GyroSample>): seq<real> {
    if |ss| <= SETTLE_CYCLES then []
    else Usable(ss[..|ss| - 1]) + if ss[|ss| - 1].reset then [] else [ss[|ss| - 1].z]
  }

  function Total(zs: seq<real>): real {
    if zs == [] then 0.0 else Total(zs[..|zs| - 1]) + zs[|zs| - 1]
  }

  /** The offset is the mean of the first 200 usable samples; until they have arrived calibration
      goes on. */
  lemma {:induction false} OffsetIsMean(z0: real, ss: seq<GyroSample>)
    ensures var g, usable := Calibrate(z0, ss), Usable(ss);
            && (g.calibrating <==> |usable| < 200)
            && (g.calibrating ==> g.sum == Total(usable) && g.count == |usable|)
            && (g.calibrating ==> g.settle == if |ss| < 45 then 45 - |ss| else 0)
            && (!g.calibrating ==> g.offset == Total(usable[..200]) / 200.0)
  {
    if ss != [] {
      var n := |ss| - 1;
      OffsetIsMean(z0, ss[..n]);
      var before, after := Usable(ss[..n]), Usable(ss);
      if after != before {
        assert after == before + [ss[n].z] && after[..|before|] == before;
        if |before| < 200 {
          assert |after| == 200 ==> after[..200] == after;
        } else {
          assert after[..200] == before[..200];
        }
      }
    }
  }

  /** What is published as yaw rate: zero until the sample after calibration, zero during an IMU
      crash, and otherwise the raw rate less the mean of the first 200 usable samples. */
  lemma PublishedRate(z0: real, ss: seq<GyroSample>, s: GyroSample)
    ensures var usable := Usable(ss);
            Calibrate(z0, ss + [s]).z == if |usable| < 200 || s.reset then 0.0 else s.z - Total(usable[..200]) / 200.0
  {
    assert (ss + [s])[..|ss|] == ss;
    OffsetIsMean(z0, ss);
  }

  // ---- Write failures ----

  function CountAll(c: Counters, ws: seq<WriteClass>): Counters {
    if ws == [] then c else CountWrite(CountAll(c, ws[..|ws| - 1]), ws[|ws| - 1])
  }

  /** No write of the run reports an error. */
  ghost predicate Quiet(c: Counters, ws: seq<WriteClass>) {
    forall k :: 0 <= k < |ws| ==> !WriteError(CountAll(c, ws[..k]), ws[k])
  }

  function Transients(ws: seq<WriteClass>): nat {
    if ws == [] then 0 else Transients(ws[..|ws| - 1]) + if ws[|ws| - 1].Transient? then 1 else 0
  }

  /** After a fully successful cycle followed by failing ones, one counter is the trailing run of
      hard-classified cycles and the other counts the transient ones since that success. */
  lemma {:induction false} CountersMean(c: Counters, before: seq<WriteClass>, ws: seq<WriteClass>)
    requires forall k :: 0 <= k < |ws| ==> !ws[k].Sent?
    ensures var d := CountAll(c, before + [Sent] + ws);
            && d.congestion == Transients(ws)
            && d.failures <= |ws|
            && (forall k :: |ws| - d.failures <= k < |ws| ==> ws[k].Hard?)
            && (d.failures < |ws| ==> ws[|ws| - d.failures - 1].Transient?)
  {
    if ws == [] {
      assert before + [Sent] + ws == before + [Sent];
    } else {
      var n := |ws| - 1;
      CountersMean(c, before, ws[..n]);
      assert (before + [Sent] + ws)[..|before| + 1 + n] == before + [Sent] + ws[..n];
    }
  }

  /** Each failing cycle without an error uses up one of 449 possibilities. */
  lemma {:induction false} FailuresUseUp(ws: seq<WriteClass>)
    requires Quiet(Counters(0, 0), ws) && forall k :: 0 <= k < |ws| ==> !ws[k].Sent?
    ensures var c := CountAll(Counters(0, 0), ws);
            |ws| <= 5 * c.congestion + c.failures && c.congestion <= 89 && c.failures <= 4
  {
    if ws != [] {
      var n := |ws| - 1;
      forall k | 0 <= k < n ensures !WriteError(CountAll(Counters(0, 0), ws[..n][..k]), ws[..n][k]) {
        assert ws[..n][..k] == ws[..k];
      }
      FailuresUseUp(ws[..n]);
      assert !WriteError(CountAll(Counters(0, 0), ws[..n]), ws[n]);
    }
  }

  /** From a successful cycle on, 450 failing cycles in a row always raise an error... */
  lemma FailuresAreReported(ws: seq<WriteClass>)
    requires |ws| >= 450 && forall k :: 0 <= k < |ws| ==> !ws[k].Sent?
    ensures exists k :: 0 <= k < |ws| && WriteError(CountAll(Counters(0, 0), ws[..k]), ws[k])
  {
    if Quiet(Counters(0, 0), ws) {
      FailuresUseUp(ws);
    }
  }

  /** Four hard failures and a transient one, over and over. */
  function Stutter(n: nat): (ws: seq<WriteClass>)
    ensures |ws| == n && forall k :: 0 <= k < n ==> !ws[k].Sent?
  {
    if n == 0 then [] else Stutter(n - 1) + [if n % 5 == 0 then Transient else Hard]
  }

  lemma NextInRound(n: nat)
    requires n > 0
    ensures if n % 5 == 0 then (n - 1) % 5 == 4 && n / 5 == (n - 1) / 5 + 1
            else n % 5 == (n - 1) % 5 + 1 && n / 5 == (n - 1) / 5
  {
  }

  lemma {:induction false} StutterCounts(n: nat)
    ensures CountAll(Counters(0, 0), Stutter(n)) == Counters(n % 5, n / 5)
  {
    if n > 0 {
      var before := Stutter(n - 1);
      StutterCounts(n - 1);
      NextInRound(n);
      assert Stutter(n)[..n - 1] == before;
      assert CountAll(Counters(0, 0), Stutter(n)) == CountWrite(CountAll(Counters(0, 0), before), Stutter(n)[n - 1]);
    }
  }

  lemma {:induction false} StutterPrefix(n: nat, k: nat)
    requires k < n
    ensures Stutter(n)[..k] == Stutter(k) && Stutter(n)[k] == if (k + 1) % 5 == 0 then Transient else Hard
  {
    if k < n - 1 {
      StutterPrefix(n - 1, k);
      assert Stutter(n)[..k] == Stutter(n - 1)[..k];
    } else {
      assert Stutter(n)[..k] == Stutter(k);
    }
  }

  /** ...and 449 need not. */
  lemma StutterIsQuiet(n: nat)
    requires n <= 449
    ensures Quiet(Counters(0, 0), Stutter(n))
  {
    forall k | 0 <= k < n ensures !WriteError(CountAll(Counters(0, 0), Stutter(n)[..k]), Stutter(n)[k]) {
      StutterPrefix(n, k);
      StutterCounts(k);
      NextInRound(k + 1);
    }
  }

  function Repeat(w: WriteClass, n: nat): (ws: seq<WriteClass>)
    ensures |ws| == n && forall k :: 0 <= k < n ==> ws[k] == w
  {
    if n == 0 then [] else Repeat(w, n - 1) + [w]
  }

  lemma {:induction false} RepeatCounts(w: WriteClass, n: nat)
    requires !w.Sent?
    ensures CountAll(Counters(0, 0), Repeat(w, n)) == if w.Hard? then Counters(n, 0) else Counters(0, n)
  {
    if n > 0 {
      RepeatCounts(w, n - 1);
      assert Repeat(w, n)[..n - 1] == Repeat(w, n - 1);
    }
  }

  /** A lasting failure raises an error at the fifth cycle or at the ninetieth, by what the motor write
      alone shows: with only the steering frame refused for the moment, it is the fifth. */
  lemma LastingFailure(steer: WriteOutcome, motor: WriteOutcome, n: nat)
    requires !(steer.Written? && motor.Written?)
    ensures Quiet(Counters(0, 0), Repeat(ClassOf(steer, motor), n)) <==> n < if motor.Momentary? then 90 else 5
  {
    var w := ClassOf(steer, motor);
    forall k | 0 <= k < n
      ensures CountAll(Counters(0, 0), Repeat(w, n)[..k]) == if w.Hard? then Counters(k, 0) else Counters(0, k)
    {
      RepeatCounts(w, k);
      assert Repeat(w, n)[..k] == Repeat(w, k);
    }
    var limit := if motor.Momentary? then 90 else 5;
    if n >= limit {
      assert WriteError(CountAll(Counters(0, 0), Repeat(w, n)[..limit - 1]), Repeat(w, n)[limit - 1]);
    }
  }
}
