/** Wheel odometry and yaw rate told from the frames received since activation: which field of which frame moves
    which wheel, over what time, and which samples calibrate the gyro. */
module ReadRuns {
  import opened Options
  import opened CanComms
  import opened HardwareSystem

  /** One connected read: the frames received since the last, and the measured time. */
  datatype Reading = Reading(queue: seq<Frame>, period: real)

  /** The state after some reads since activation. The link keeps the number of its last IMU sample over an
      activation. */
  function After(radsPerCount: real, z0: real, accepted: Option<Seq8>, rs: seq<Reading>): Sensed {
    if rs == [] then Sensed(Rest(), Uncalibrated(z0), accepted)
    else
      var r := rs[|rs| - 1];
      ReadCycle(After(radsPerCount, z0, accepted, rs[..|rs| - 1]), radsPerCount, r.queue, r.period)
  }

  /** All frames received, in order. */
  function Received(rs: seq<Reading>): seq<Frame> {
    if rs == [] then [] else Received(rs[..|rs| - 1]) + rs[|rs| - 1].queue
  }

  ghost predicate LastCount(queue: seq<Frame>, i: int) {
    && 0 <= i < |queue| && queue[i].VelocityFeedback?
    && forall j :: i < j < |queue| ==> !queue[j].VelocityFeedback?
  }

  ghost predicate HasCount(queue: seq<Frame>) { exists i :: 0 <= i < |queue| && queue[i].VelocityFeedback? }

  // ---- One read ----

  /** Each wheel takes the angle of its own count. */
  predicate Stands(o: Odometry, radsPerCount: real, left: int, right: int) {
    && o.left.enc == left && o.left.pos == left as real * radsPerCount
    && o.right.enc == right && o.right.pos == right as real * radsPerCount
  }

  predicate Unmoved(o: Odometry, o': Odometry) { o'.left == o.left && o'.right == o.right }

  /** What the counts of a queue are. */
  lemma EncIs(queue: seq<Frame>, i: int)
    ensures !HasCount(queue) <==> EncOf(Drain(queue)).None?
    ensures LastCount(queue, i) ==> EncOf(Drain(queue)) == Some((queue[i].left, queue[i].right))
    ensures HasCount(queue) ==> exists j :: LastCount(queue, j)
  {
    var counts := (f: Frame) => f.VelocityFeedback?;
    DrainHoldsEach(queue);
    LastIsWanted(queue, counts);
    assert LastCount(queue, i) ==> IsLast(queue, i, counts);
    if HasCount(queue) {
      var j :| IsLast(queue, j, counts);
      assert LastCount(queue, j);
    }
  }

  lemma ReadMoves(r: Sensed, radsPerCount: real, queue: seq<Frame>, period: real, i: int)
    ensures var o := ReadCycle(r, radsPerCount, queue, period).odometry;
            && (!HasCount(queue) ==> Unmoved(r.odometry, o))
            && (LastCount(queue, i) ==> Stands(o, radsPerCount, queue[i].left, queue[i].right))
  {
    EncIs(queue, i);
  }

  // ---- Positions ----

  lemma LastInTwo(before: seq<Frame>, queue: seq<Frame>, i: int)
    requires LastCount(before + queue, i)
    ensures if i < |before| then LastCount(before, i) && !HasCount(queue) else LastCount(queue, i - |before|)
  {
    var all := before + queue;
    assert forall j :: 0 <= j < |before| ==> all[j] == before[j];
    assert forall j :: 0 <= j < |queue| ==> all[j + |before|] == queue[j];
  }

  lemma NoneInTwo(before: seq<Frame>, queue: seq<Frame>)
    requires !HasCount(before + queue)
    ensures !HasCount(before) && !HasCount(queue)
  {
    var all := before + queue;
    assert forall j :: 0 <= j < |before| ==> all[j] == before[j];
    assert forall j :: 0 <= j < |queue| ==> all[j + |before|] == queue[j];
  }

  /** After any reads since activation the left wheel stands at the left count, and the right wheel at the right
      count, of the last velocity frame received... */
  lemma {:induction false} WheelsFollowFrames(radsPerCount: real, z0: real, accepted: Option<Seq8>, rs: seq<Reading>,
                                              i: int)
    requires LastCount(Received(rs), i)
    ensures var o := After(radsPerCount, z0, accepted, rs).odometry;
            Stands(o, radsPerCount, Received(rs)[i].left, Received(rs)[i].right)
  {
    if rs != [] {
      var before, r := rs[..|rs| - 1], rs[|rs| - 1];
      var k := i - |Received(before)|;
      LastInTwo(Received(before), r.queue, i);
      ReadMoves(After(radsPerCount, z0, accepted, before), radsPerCount, r.queue, r.period, k);
      if k < 0 {
        WheelsFollowFrames(radsPerCount, z0, accepted, before, i);
      }
    }
  }

  /** ...and both at zero, at rest, if none was. */
  lemma {:induction false} WheelsStartAtRest(radsPerCount: real, z0: real, accepted: Option<Seq8>, rs: seq<Reading>)
    requires !HasCount(Received(rs))
    ensures Unmoved(Rest(), After(radsPerCount, z0, accepted, rs).odometry)
    ensures Rest().left == Wheel(0, 0.0, 0.0) && Rest().right == Wheel(0, 0.0, 0.0)
  {
    if rs != [] {
      var before, r := rs[..|rs| - 1], rs[|rs| - 1];
      NoneInTwo(Received(before), r.queue);
      WheelsStartAtRest(radsPerCount, z0, accepted, before);
      ReadMoves(After(radsPerCount, z0, accepted, before), radsPerCount, r.queue, r.period, 0);
    }
  }

  // ---- Time since the last count ----

  function Time(rs: seq<Reading>): real {
    if rs == [] then 0.0 else Time(rs[..|rs| - 1]) + rs[|rs| - 1].period
  }

  /** The last read with a count is the n-th, counted from one; n is 0 if there was none. */
  ghost predicate LastCountRead(rs: seq<Reading>, n: nat) {
    && n <= |rs| && (n > 0 ==> HasCount(rs[n - 1].queue))
    && forall k :: n <= k < |rs| ==> !HasCount(rs[k].queue)
  }

  lemma {:induction false} AgeIsTime(radsPerCount: real, z0: real, accepted: Option<Seq8>, rs: seq<Reading>, n: nat)
    requires LastCountRead(rs, n)
    ensures After(radsPerCount, z0, accepted, rs).odometry.dtAccum == Time(rs[n..])
  {
    if rs != [] {
      var m := |rs| - 1;
      EncIs(rs[m].queue, 0);
      if n <= m {
        AgeIsTime(radsPerCount, z0, accepted, rs[..m], n);
        assert rs[n..][..m - n] == rs[..m][n..];
      }
    }
  }

  /** In every run a read fails if and only if it brings no velocity frame and the time since the last read that
      did, or since activation, has reached 0.333 s. */
  lemma ReadFailsIff(radsPerCount: real, z0: real, accepted: Option<Seq8>, rs: seq<Reading>, n: nat, r: Reading)
    requires LastCountRead(rs, n)
    ensures ReadFails(After(radsPerCount, z0, accepted, rs), r.queue, r.period) <==>
              !HasCount(r.queue) && Time(rs[n..]) + r.period >= 0.333
  {
    AgeIsTime(radsPerCount, z0, accepted, rs, n);
    EncIs(r.queue, 0);
  }

  // ---- Velocities ----

  /** A wheel's velocity from w to w', over time dt: the angle turned over that time, or held. */
  predicate Moves(w: Wheel, w': Wheel, radsPerCount: real, count: int, dt: real) {
    if dt > 0.0001 then w'.vel * dt == count as real * radsPerCount - w.pos else w'.vel == w.vel
  }

  lemma TurnMoves(w: Wheel, radsPerCount: real, count: int, dt: real)
    ensures Moves(w, Turn(w, radsPerCount, count, dt), radsPerCount, count, dt)
  {
    if dt > MIN_INTERVAL {
      TurnCovers(w, radsPerCount, count, dt);
    }
  }

  /** In every run a read with a velocity frame publishes for each wheel the angle it turned since the last one
      over the time since then, or holds what it had if that is at most 0.1 ms; a read without holds everything. */
  lemma VelocityIsTurnOverTime(radsPerCount: real, z0: real, accepted: Option<Seq8>, rs: seq<Reading>, n: nat,
                               r: Reading, i: int)
    requires LastCountRead(rs, n)
    ensures var o := After(radsPerCount, z0, accepted, rs).odometry;
            var o' := After(radsPerCount, z0, accepted, rs + [r]).odometry;
            var dt := Time(rs[n..]) + r.period;
            && (LastCount(r.queue, i) ==>
                  && Moves(o.left, o'.left, radsPerCount, r.queue[i].left, dt)
                  && Moves(o.right, o'.right, radsPerCount, r.queue[i].right, dt))
            && (!HasCount(r.queue) ==> Unmoved(o, o'))
  {
    var o, dt := After(radsPerCount, z0, accepted, rs).odometry, Time(rs[n..]) + r.period;
    assert (rs + [r])[..|rs|] == rs;
    AgeIsTime(radsPerCount, z0, accepted, rs, n);
    EncIs(r.queue, i);
    if LastCount(r.queue, i) {
      TurnMoves(o.left, radsPerCount, r.queue[i].left, dt);
      TurnMoves(o.right, radsPerCount, r.queue[i].right, dt);
    }
  }

  // ---- Yaw rate ----

  ghost predicate LastAccel(queue: seq<Frame>, i: int) {
    0 <= i < |queue| && queue[i].ImuAccel? && forall j :: i < j < |queue| ==> !queue[j].ImuAccel?
  }

  ghost predicate LastGyro(queue: seq<Frame>, i: int) {
    0 <= i < |queue| && queue[i].ImuGyro? && forall j :: i < j < |queue| ==> !queue[j].ImuGyro?
  }

  /** The last halves of a queue are at i and j and carry one sequence number. */
  ghost predicate Pair(queue: seq<Frame>, i: int, j: int) {
    LastAccel(queue, i) && LastGyro(queue, j) && queue[i].sequence == queue[j].sequence
  }

  /** The number of a queue's pair, or the last one before. */
  ghost function NumberAfter(last: Option<Seq8>, queue: seq<Frame>): Option<Seq8> {
    if i, j :| Pair(queue, i, j) then Some(queue[i].sequence) else last
  }

  /** The number of the last pair received, before activation if none since. */
  ghost function LastNumber(accepted: Option<Seq8>, rs: seq<Reading>): Option<Seq8> {
    if rs == [] then accepted else NumberAfter(LastNumber(accepted, rs[..|rs| - 1]), rs[|rs| - 1].queue)
  }

  /** What one read gives the gyro: the rate and the crash mark of a pair with a new number. */
  ghost function NewSample(last: Option<Seq8>, queue: seq<Frame>): seq<GyroSample> {
    if i, j :| Pair(queue, i, j) && last != Some(queue[i].sequence)
    then [GyroSample(queue[j].z, queue[j].imuReset)] else []
  }

  ghost function Samples(accepted: Option<Seq8>, rs: seq<Reading>): seq<GyroSample> {
    if rs == [] then []
    else
      var before := rs[..|rs| - 1];
      Samples(accepted, before) + NewSample(LastNumber(accepted, before), rs[|rs| - 1].queue)
  }

  lemma PairIs(queue: seq<Frame>, i: int, j: int)
    ensures Pair(queue, i, j) ==> Drain(queue).accel == Some(queue[i]) && Drain(queue).gyro == Some(queue[j])
    ensures Paired(Drain(queue)) <==> exists i, j :: Pair(queue, i, j)
  {
    var accels, gyros := (f: Frame) => f.ImuAccel?, (f: Frame) => f.ImuGyro?;
    DrainHoldsEach(queue);
    assert forall k :: LastAccel(queue, k) <==> IsLast(queue, k, accels);
    assert forall k :: LastGyro(queue, k) <==> IsLast(queue, k, gyros);
    if Paired(Drain(queue)) {
      var k, l :| IsLast(queue, k, accels) && IsLast(queue, l, gyros);
      assert Pair(queue, k, l);
    }
  }

  lemma ReadSamples(r: Sensed, radsPerCount: real, queue: seq<Frame>, period: real)
    ensures var t, added := ReadCycle(r, radsPerCount, queue, period), NewSample(r.accepted, queue);
            && t.gyro == (if added == [] then r.gyro else ReadGyro(r.gyro, added[0].z, added[0].reset))
            && t.accepted == NumberAfter(r.accepted, queue)
  {
    PairIs(queue, 0, 0);
    forall i, j | Pair(queue, i, j)
      ensures Drain(queue).accel == Some(queue[i]) && Drain(queue).gyro == Some(queue[j])
    {
      PairIs(queue, i, j);
    }
  }

  lemma CalibrateNext(z0: real, seen: seq<GyroSample>, added: seq<GyroSample>)
    requires |added| <= 1
    ensures Calibrate(z0, seen + added) ==
              if added == [] then Calibrate(z0, seen) else ReadGyro(Calibrate(z0, seen), added[0].z, added[0].reset)
  {
    if added == [] {
      assert seen + added == seen;
    } else {
      assert (seen + added)[..|seen|] == seen;
    }
  }

  /** In every run the gyro has seen exactly the pairs with new numbers, one per read. */
  lemma {:induction false} GyroFollowsFrames(radsPerCount: real, z0: real, accepted: Option<Seq8>, rs: seq<Reading>)
    ensures var r := After(radsPerCount, z0, accepted, rs);
            r.gyro == Calibrate(z0, Samples(accepted, rs)) && r.accepted == LastNumber(accepted, rs)
  {
    if rs != [] {
      var before, queue := rs[..|rs| - 1], rs[|rs| - 1].queue;
      GyroFollowsFrames(radsPerCount, z0, accepted, before);
      ReadSamples(After(radsPerCount, z0, accepted, before), radsPerCount, queue, rs[|rs| - 1].period);
      CalibrateNext(z0, Samples(accepted, before), NewSample(LastNumber(accepted, before), queue));
    }
  }

  /** In every run a read whose last two IMU halves match under a new number publishes zero until 200 usable
      samples came and during a crash, and otherwise its own z rate less the mean of those 200; every other read
      leaves the published rate alone. */
  lemma YawRateFollowsFrames(radsPerCount: real, z0: real, accepted: Option<Seq8>, rs: seq<Reading>, r: Reading,
                             i: int, j: int)
    ensures var z := After(radsPerCount, z0, accepted, rs + [r]).gyro.z;
            var usable := Usable(Samples(accepted, rs));
            && (Pair(r.queue, i, j) && LastNumber(accepted, rs) != Some(r.queue[i].sequence) ==>
                  z == if |usable| < 200 || r.queue[j].imuReset then 0.0
                       else r.queue[j].z - Total(usable[..200]) / 200.0)
            && (NewSample(LastNumber(accepted, rs), r.queue) == [] ==>
                  z == After(radsPerCount, z0, accepted, rs).gyro.z)
  {
    var last := LastNumber(accepted, rs);
    assert (rs + [r])[..|rs|] == rs;
    GyroFollowsFrames(radsPerCount, z0, accepted, rs);
    GyroFollowsFrames(radsPerCount, z0, accepted, rs + [r]);
    ReadSamples(After(radsPerCount, z0, accepted, rs), radsPerCount, r.queue, r.period);
    if Pair(r.queue, i, j) && last != Some(r.queue[i].sequence) {
      OnePair(r.queue, i, j, last);
      PublishedRate(z0, Samples(accepted, rs), GyroSample(r.queue[j].z, r.queue[j].imuReset));
    }
  }

  lemma OnePair(queue: seq<Frame>, i: int, j: int, last: Option<Seq8>)
    requires Pair(queue, i, j) && last != Some(queue[i].sequence)
    ensures NewSample(last, queue) == [GyroSample(queue[j].z, queue[j].imuReset)]
  {
    var k, l :| Pair(queue, k, l) && last != Some(queue[k].sequence)
                && NewSample(last, queue) == [GyroSample(queue[l].z, queue[l].imuReset)];
    assert Pair(queue, k, l);
    assert LastGyro(queue, j) && LastGyro(queue, l);
  }
}
