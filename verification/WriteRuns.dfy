/** When a connected write reports an error, told from the outcomes of the two frames of every cycle so far,
    successful cycles included. */
module WriteRuns {
  import opened CanComms
  import opened HardwareSystem

  /** The kernel's answers to the steering and the motor frame of one cycle. */
  datatype Outcomes = Outcomes(steer: WriteOutcome, motor: WriteOutcome)

  predicate BothWritten(o: Outcomes) { o.steer == Written && o.motor == Written }

  /** The motor frame, the last of the cycle, was refused for the moment. */
  predicate Congested(o: Outcomes) { o.motor == Momentary }

  predicate Failed(o: Outcomes) { !BothWritten(o) && !Congested(o) }

  /** No cycle from the k-th on had both frames written. */
  ghost predicate FailingSince(os: seq<Outcomes>, k: nat) {
    forall j :: k <= j < |os| ==> !BothWritten(os[j])
  }

  /** The congested cycles since the last cycle with both frames written. */
  ghost function CongestedSince(os: seq<Outcomes>): set<nat> {
    set k: nat | k < |os| && Congested(os[k]) && FailingSince(os, k)
  }

  /** The last n cycles all failed, and not for the moment. */
  ghost predicate LastFailed(os: seq<Outcomes>, n: nat) {
    n <= |os| && forall k :: |os| - n <= k < |os| ==> Failed(os[k])
  }

  function CountersAfter(os: seq<Outcomes>): Counters {
    if os == [] then Counters(0, 0)
    else CountWrite(CountersAfter(os[..|os| - 1]), ClassOf(os[|os| - 1].steer, os[|os| - 1].motor))
  }

  lemma CongestedNext(os: seq<Outcomes>)
    requires os != []
    ensures var n := |os| - 1;
            CongestedSince(os) == if BothWritten(os[n]) then {}
                                  else CongestedSince(os[..n]) + if Congested(os[n]) then {n} else {}
  {
    var n := |os| - 1;
    if !BothWritten(os[n]) {
      forall k: nat | k < n ensures FailingSince(os, k) <==> FailingSince(os[..n], k) {
        assert FailingSince(os[..n], k) ==> forall j :: k <= j < n ==> !BothWritten(os[..n][j]);
        assert FailingSince(os, k) ==> forall j :: k <= j < n ==> os[..n][j] == os[j];
      }
      assert FailingSince(os, n);
      forall k: nat ensures k in CongestedSince(os) <==>
                              k in CongestedSince(os[..n]) || (k == n && Congested(os[n])) {}
    } else {
      forall k: nat | k < |os| ensures !FailingSince(os, k) {}
    }
  }

  lemma LastFailedNext(os: seq<Outcomes>, m: nat)
    requires os != [] && m > 0
    ensures var n := |os| - 1; LastFailed(os, m) <==> Failed(os[n]) && LastFailed(os[..n], m - 1)
  {
  }

  /** In every run, one counter is the longest stretch of such failures at the end, the other the number of
      congested cycles since the last success. */
  lemma {:induction false} CountersAreRuns(os: seq<Outcomes>)
    ensures CountersAfter(os).congestion == |CongestedSince(os)|
    ensures forall m: nat :: LastFailed(os, m) <==> m <= CountersAfter(os).failures
  {
    if os == [] {
      assert CongestedSince(os) == {};
    } else {
      var n := |os| - 1;
      CountersAreRuns(os[..n]);
      CongestedNext(os);
      assert n !in CongestedSince(os[..n]);
      forall m: nat ensures LastFailed(os, m) <==> m <= CountersAfter(os).failures {
        if m > 0 {
          LastFailedNext(os, m);
        }
      }
    }
  }

  /** In every run a connected write reports an error if and only if not both of its frames were written and
      either the motor frame was refused for the moment, as in at least 90 cycles since the last with both
      written, or it was not, and the last five cycles were all failures of that kind. */
  lemma WriteErrorIff(os: seq<Outcomes>, o: Outcomes)
    ensures WriteError(CountersAfter(os), ClassOf(o.steer, o.motor)) <==>
              !BothWritten(o) && if Congested(o) then |CongestedSince(os + [o])| >= 90 else LastFailed(os + [o], 5)
  {
    var all := os + [o];
    assert all[..|os|] == os;
    CountersAreRuns(os);
    CongestedNext(all);
    LastFailedNext(all, 5);
    assert |os| !in CongestedSince(os);
  }

  /** So the first cycle with both frames written is never reported, whatever went before. */
  lemma SuccessIsNeverReported(os: seq<Outcomes>)
    ensures !WriteError(CountersAfter(os), ClassOf(Written, Written))
    ensures CountersAfter(os + [Outcomes(Written, Written)]) == Counters(0, 0)
  {
    WriteErrorIff(os, Outcomes(Written, Written));
    assert (os + [Outcomes(Written, Written)])[..|os|] == os;
  }
}
