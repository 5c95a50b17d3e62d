/** The CAN link of can_comms.cpp: draining the receive queue into one sample per source, IMU
    freshness by sequence number, and the classification of failed writes. Frames are full
    ones, already decoded. */
module CanComms {
  import opened Options

  type Seq8 = x: int | 0 <= x < 256

  datatype Frame =
    | VelocityFeedback(left: int, right: int)
    | SteeringFeedback(angle: real, atTarget: bool, potFault: bool, outOfRange: bool, saturated: bool)
    | ImuAccel(x: real, y: real, z: real, sequence: Seq8)
    | ImuGyro(x: real, y: real, z: real, imuReset: bool, sequence: Seq8)
    | OtherFrame

  /** The outputs of a drain, per source: the last frame of each kind, if any arrived. */
  datatype Sample = Sample(enc: Option<Frame>, steer: Option<Frame>, accel: Option<Frame>, gyro: Option<Frame>)

  function Last(queue: seq<Frame>, wanted: Frame -> bool): Option<Frame> {
    if queue == [] then None
    else if wanted(queue[|queue| - 1]) then Some(queue[|queue| - 1])
    else Last(queue[..|queue| - 1], wanted)
  }

  function Drain(queue: seq<Frame>): Sample {
    Sample(Last(queue, (f: Frame) => f.VelocityFeedback?), Last(queue, (f: Frame) => f.SteeringFeedback?),
           Last(queue, (f: Frame) => f.ImuAccel?), Last(queue, (f: Frame) => f.ImuGyro?))
  }

  /** Freshness of one read. */
  datatype Status = Status(enc: bool, imu: bool, imuStale: bool)

  /** Both halves arrived and carry the same sequence number. */
  predicate Paired(s: Sample) {
    s.accel.Some? && s.gyro.Some? && s.accel.value.ImuAccel? && s.gyro.value.ImuGyro?
    && s.accel.value.sequence == s.gyro.value.sequence
  }

  /** `accepted` is the sequence number of the last accepted IMU sample. */
  function StatusOf(s: Sample, accepted: Option<Seq8>): Status {
    Status(s.enc.Some?,
           Paired(s) && accepted != Some(s.accel.value.sequence),
           Paired(s) && accepted == Some(s.accel.value.sequence))
  }

  function AcceptedAfter(s: Sample, accepted: Option<Seq8>): Option<Seq8> {
    if Paired(s) then Some(s.accel.value.sequence) else accepted
  }

  /** A write may succeed, be refused for the moment (a full queue, or a signal: ENOBUFS, EAGAIN, EWOULDBLOCK,
      EINTR), or fail otherwise. */
  datatype WriteOutcome = Written | Momentary | Broken

  class CanLink {
    var expectedSeq: Seq8
    var seqInitialized: bool
    var lastWriteTransient: bool

    function Accepted(): Option<Seq8>
      reads this
    {
      if seqInitialized then Some(expectedSeq) else None
    }

    constructor ()
      ensures Accepted() == None && !lastWriteTransient
    {
      expectedSeq, seqInitialized, lastWriteTransient := 0, false, false;
    }

    /** Drains the queue; every frame of a kind overwrites the one before. */
    method ReadSensorValues(queue: seq<Frame>) returns (sample: Sample, status: Status)
      modifies this`expectedSeq, this`seqInitialized
      ensures sample == Drain(queue)
      ensures status == StatusOf(sample, old(Accepted())) && Accepted() == AcceptedAfter(sample, old(Accepted()))
    {
      sample := Sample(None, None, None, None);
      for k := 0 to |queue|
        invariant sample == Drain(queue[..k])
        invariant sample.accel.Some? ==> sample.accel.value.ImuAccel?
        invariant sample.gyro.Some? ==> sample.gyro.value.ImuGyro?
      {
        assert queue[..k + 1][..k] == queue[..k];
        match queue[k] {
          case VelocityFeedback(_, _) => sample := sample.(enc := Some(queue[k]));
          case SteeringFeedback(_, _, _, _, _) => sample := sample.(steer := Some(queue[k]));
          case ImuAccel(_, _, _, _) => sample := sample.(accel := Some(queue[k]));
          case ImuGyro(_, _, _, _, _) => sample := sample.(gyro := Some(queue[k]));
          case OtherFrame =>
        }
      }
      assert queue[..|queue|] == queue;
      status := Status(sample.enc.Some?, false, false);
      if sample.accel.Some? && sample.gyro.Some? && sample.accel.value.sequence == sample.gyro.value.sequence {
        var seq1 := sample.accel.value.sequence;
        if !seqInitialized || seq1 != expectedSeq {
          status := status.(imu := true);
          expectedSeq := seq1;
          seqInitialized := true;
        } else {
          status := status.(imuStale := true);
        }
      }
    }

    /** One frame written, or refused for the moment, or refused for another reason. */
    method Write(outcome: WriteOutcome) returns (ok: bool)
      modifies this`lastWriteTransient
      ensures ok == outcome.Written? && lastWriteTransient == outcome.Momentary?
    {
      if !outcome.Written? {
        lastWriteTransient := outcome.Momentary?;
        return false;
      }
      lastWriteTransient := false;
      return true;
    }
  }

  // ---- Sources are independent ----

  function Keep(queue: seq<Frame>, wanted: Frame -> bool): seq<Frame> {
    if queue == [] then []
    else Keep(queue[..|queue| - 1], wanted) + if wanted(queue[|queue| - 1]) then [queue[|queue| - 1]] else []
  }

  /** Draining a queue gives for each kind what draining only that kind's frames gives: the last
      one. What arrives for one source never shows in another's result. */
  lemma {:induction false} LastOfKept(queue: seq<Frame>, wanted: Frame -> bool)
    ensures var kept := Keep(queue, wanted);
            && Last(queue, wanted) == Last(kept, wanted)
            && Last(queue, wanted) == (if kept == [] then None else Some(kept[|kept| - 1]))
            && (forall k :: 0 <= k < |kept| ==> wanted(kept[k]))
  {
    if queue != [] {
      var n := |queue| - 1;
      LastOfKept(queue[..n], wanted);
      var kept := Keep(queue[..n], wanted);
      if wanted(queue[n]) {
        assert Keep(queue, wanted) == kept + [queue[n]];
      } else {
        assert Keep(queue, wanted) == kept;
      }
    }
  }

  /** Position i holds the last wanted frame. */
  ghost predicate IsLast(queue: seq<Frame>, i: int, wanted: Frame -> bool) {
    0 <= i < |queue| && wanted(queue[i]) && forall j :: i < j < |queue| ==> !wanted(queue[j])
  }

  ghost predicate NoneOf(queue: seq<Frame>, wanted: Frame -> bool) {
    forall j :: 0 <= j < |queue| ==> !wanted(queue[j])
  }

  /** The slot of a source holds exactly the last of its frames. */
  ghost predicate Holds(slot: Option<Frame>, queue: seq<Frame>, wanted: Frame -> bool) {
    && (slot.None? <==> NoneOf(queue, wanted))
    && (forall i :: IsLast(queue, i, wanted) ==> slot == Some(queue[i]))
    && (slot.Some? ==> exists i :: IsLast(queue, i, wanted))
  }

  lemma {:induction false} LastHolds(queue: seq<Frame>, wanted: Frame -> bool)
    ensures Holds(Last(queue, wanted), queue, wanted)
  {
    if queue != [] {
      var n := |queue| - 1;
      var before := queue[..n];
      LastHolds(before, wanted);
      if wanted(queue[n]) {
        assert IsLast(queue, n, wanted);
      } else {
        assert forall i :: IsLast(queue, i, wanted) <==> IsLast(before, i, wanted);
        assert NoneOf(before, wanted) <==> NoneOf(queue, wanted);
      }
    }
  }

  /** A drain leaves in each source's slot exactly the last frame of that source. */
  lemma DrainHoldsEach(queue: seq<Frame>)
    ensures var s := Drain(queue);
            && Holds(s.enc, queue, (f: Frame) => f.VelocityFeedback?)
            && Holds(s.steer, queue, (f: Frame) => f.SteeringFeedback?)
            && Holds(s.accel, queue, (f: Frame) => f.ImuAccel?)
            && Holds(s.gyro, queue, (f: Frame) => f.ImuGyro?)
  {
    LastHolds(queue, (f: Frame) => f.VelocityFeedback?);
    LastHolds(queue, (f: Frame) => f.SteeringFeedback?);
    LastHolds(queue, (f: Frame) => f.ImuAccel?);
    LastHolds(queue, (f: Frame) => f.ImuGyro?);
  }

  /** The encoder result of any queue is that of its 0x110 frames alone, so no IMU or steering
      fault can change it. */
  lemma EncoderStandsAlone(queue: seq<Frame>, accepted: Option<Seq8>, accepted': Option<Seq8>)
    ensures var only := Keep(queue, (f: Frame) => f.VelocityFeedback?);
            && Drain(queue).enc == Drain(only).enc
            && StatusOf(Drain(queue), accepted).enc == StatusOf(Drain(only), accepted').enc == (only != [])
  {
    LastOfKept(queue, (f: Frame) => f.VelocityFeedback?);
  }

  // ---- IMU freshness over a run of reads ----

  function AcceptedBy(cycles: seq<seq<Frame>>): Option<Seq8> {
    if cycles == [] then None else AcceptedAfter(Drain(cycles[|cycles| - 1]), AcceptedBy(cycles[..|cycles| - 1]))
  }

  /** The sequence numbers of the accepted samples, oldest first. */
  function Fresh(cycles: seq<seq<Frame>>): seq<Seq8> {
    if cycles == [] then []
    else
      var n := |cycles| - 1;
      var s := Drain(cycles[n]);
      Fresh(cycles[..n]) + if StatusOf(s, AcceptedBy(cycles[..n])).imu then [s.accel.value.sequence] else []
  }

  /** A read accepts an IMU sample exactly when the last frames of both halves carry one sequence
      number and it differs from the last accepted one; so successive accepted numbers
      always differ, 255 to 0 included. */
  lemma {:induction false} FreshSamplesAdvance(cycles: seq<seq<Frame>>)
    ensures var numbers := Fresh(cycles);
            && AcceptedBy(cycles) == (if numbers == [] then None else Some(numbers[|numbers| - 1]))
            && (forall k :: 0 < k < |numbers| ==> numbers[k] != numbers[k - 1])
  {
    if cycles != [] {
      FreshSamplesAdvance(cycles[..|cycles| - 1]);
    }
  }

  lemma ImuValidIff(cycles: seq<seq<Frame>>, queue: seq<Frame>)
    ensures var accels, gyros := Keep(queue, (f: Frame) => f.ImuAccel?), Keep(queue, (f: Frame) => f.ImuGyro?);
            StatusOf(Drain(queue), AcceptedBy(cycles)).imu <==>
              && accels != [] && gyros != []
              && accels[|accels| - 1].ImuAccel? && gyros[|gyros| - 1].ImuGyro?
              && accels[|accels| - 1].sequence == gyros[|gyros| - 1].sequence
              && (Fresh(cycles) == [] || Fresh(cycles)[|Fresh(cycles)| - 1] != accels[|accels| - 1].sequence)
  {
    LastOfKept(queue, (f: Frame) => f.ImuAccel?);
    LastOfKept(queue, (f: Frame) => f.ImuGyro?);
    FreshSamplesAdvance(cycles);
  }

  /** In every run the IMU is called stale exactly if the last halves of the pair match and repeat the number of
      the last valid sample. */
  lemma ImuStaleIff(cycles: seq<seq<Frame>>, queue: seq<Frame>)
    ensures var accels, gyros := Keep(queue, (f: Frame) => f.ImuAccel?), Keep(queue, (f: Frame) => f.ImuGyro?);
            StatusOf(Drain(queue), AcceptedBy(cycles)).imuStale <==>
              && accels != [] && gyros != []
              && accels[|accels| - 1].ImuAccel? && gyros[|gyros| - 1].ImuGyro?
              && accels[|accels| - 1].sequence == gyros[|gyros| - 1].sequence
              && Fresh(cycles) != [] && Fresh(cycles)[|Fresh(cycles)| - 1] == accels[|accels| - 1].sequence
  {
    LastOfKept(queue, (f: Frame) => f.ImuAccel?);
    LastOfKept(queue, (f: Frame) => f.ImuGyro?);
    FreshSamplesAdvance(cycles);
  }
}
