/** One poll, request by request: which requests it decides and how, and at which of them it calls the stop
    server. */
module PollRuns {
  import opened Options
  import opened Coordinator
  import opened CoordinatorRuns
  import ApprovalRuns
  import LockRuns

  /** What a poll at time now decides about n: the driver's answer, the default once the deadline is past, or
      nothing yet. */
  function Decision(cfg: Config, s: State, n: Ecu, now: real): Option<bool> {
    if n !in s.pending then None
    else if s.pending[n].id in s.answers then Some(s.answers[s.pending[n].id] == Approve)
    else if now >= s.pending[n].deadline then Some(cfg.approveOnNoVerdict)
    else None
  }

  function BasisOf(s: State, n: Ecu): Basis
    requires n in s.pending
  {
    if s.pending[n].id in s.answers then Driver(s.pending[n].id, s.answers[s.pending[n].id]) else NoAnswer
  }

  lemma PollOneDecides(cfg: Config, s: State, n: Ecu, now: real, ready: bool)
    ensures var d := Decision(cfg, s, n, now);
            PollOne(cfg, s, n, now, ready) == if d.None? then s else Resolve(s, n, d.value, BasisOf(s, n), now, ready)
  {
  }

  /** What a decision takes away. */
  lemma ResolveTakes(s: State, n: Ecu, approved: bool, basis: Basis, now: real, ready: bool)
    requires n in s.pending
    ensures var t := Resolve(s, n, approved, basis, now, ready);
            t.pending == s.pending - {n} && t.answers == s.answers - {s.pending[n].id}
  {
    var p := s.pending[n];
    var s2 := SendVerdict(Removed(s, n), p.req, p.flow, p.slot, approved, basis, now);
    LockLeavesRest(if approved then s2.(active := s2.active[n := now]) else s2, ready);
  }

  /** The poll decides about each name what it would have decided at its start. */
  ghost predicate Undecided(cfg: Config, s: State, names: seq<Ecu>, now: real, t: State) {
    && (forall n :: n in t.pending <==> n in s.pending && (n in names ==> Decision(cfg, s, n, now).None?))
    && (forall n :: n in t.pending ==> t.pending[n] == s.pending[n])
    && (forall n :: n in t.pending ==> Decision(cfg, t, n, now) == Decision(cfg, s, n, now))
    && (forall n :: n in t.pending ==> BasisOf(t, n) == BasisOf(s, n))
  }

  /** With one request and its answer gone, the others stand as they did. */
  lemma OthersUndecided(cfg: Config, s: State, t: State, n: Ecu, now: real)
    requires Decision(cfg, s, n, now).Some?
    requires t.pending == s.pending - {n} && t.answers == s.answers - {s.pending[n].id}
    requires forall m :: m in s.pending && m != n ==> s.pending[m].id != s.pending[n].id
    ensures Undecided(cfg, s, [n], now, t)
  {
  }

  lemma DecidedLeaves(cfg: Config, s: State, n: Ecu, approved: bool, basis: Basis, now: real, ready: bool)
    requires ApprovalRuns.Inv(s, {}) && Decision(cfg, s, n, now).Some?
    ensures Undecided(cfg, s, [n], now, Resolve(s, n, approved, basis, now, ready))
  {
    ApprovalRuns.OffersApart(s, {}, n);
    ResolveTakes(s, n, approved, basis, now, ready);
    OthersUndecided(cfg, s, Resolve(s, n, approved, basis, now, ready), n, now);
  }

  lemma PollOneLeaves(cfg: Config, s: State, n: Ecu, now: real, ready: bool)
    requires ApprovalRuns.Inv(s, {})
    ensures Undecided(cfg, s, [n], now, PollOne(cfg, s, n, now, ready))
  {
    var d := Decision(cfg, s, n, now);
    PollOneDecides(cfg, s, n, now, ready);
    if d.Some? {
      DecidedLeaves(cfg, s, n, d.value, BasisOf(s, n), now, ready);
    }
  }

  lemma {:induction false} PollEachLeaves(cfg: Config, s: State, names: seq<Ecu>, now: real, ready: bool)
    requires ApprovalRuns.Inv(s, {})
    ensures Undecided(cfg, s, names, now, PollEach(cfg, s, names, now, ready))
  {
    if names != [] {
      var k := |names| - 1;
      PollEachLeaves(cfg, s, names[..k], now, ready);
      ApprovalRuns.PollEachKeeps(cfg, s, names[..k], now, ready);
      PollOneLeaves(cfg, PollEach(cfg, s, names[..k], now, ready), names[k], now, ready);
      assert forall n :: n in names <==> n in names[..k] || n == names[k];
    }
  }

  // ---- At which request the call is made ----

  /** The poll's call is made at one request: right after it, and at no other, the call matches the set. */
  ghost predicate CalledAt(cfg: Config, s: State, names: seq<Ecu>, now: real, ready: bool, k: nat, m: State) {
    && k < |names| && m == PollEach(cfg, s, names[..k + 1], now, ready)
    && !PollEach(cfg, s, names[..k], now, ready).lockPending && m.lockPending
  }

  /** A call is made right after the set it matches was looked at. */
  ghost predicate CallFor(s: State, m: State) {
    var call := if m.active == map[] then Unlock else Lock;
    && m.calls == s.calls + [call]
    && m.log != [] && m.log[|m.log| - 1] == Called(call, m.active)
  }

  predicate SameCalls(s: State, t: State) { t.lockPending == s.lockPending && t.calls == s.calls }

  lemma UpdateCalls(s: State, ready: bool)
    ensures var t := UpdateLockState(s, ready);
            SameCalls(s, t) || (!s.lockPending && t.lockPending && CallFor(s, t))
  {
  }

  lemma ResolveCalls(s: State, n: Ecu, approved: bool, basis: Basis, now: real, ready: bool)
    requires n in s.pending
    ensures var t := Resolve(s, n, approved, basis, now, ready);
            SameCalls(s, t) || (!s.lockPending && t.lockPending && CallFor(s, t))
  {
    var p := s.pending[n];
    var s2 := SendVerdict(Removed(s, n), p.req, p.flow, p.slot, approved, basis, now);
    UpdateCalls(if approved then s2.(active := s2.active[n := now]) else s2, ready);
  }

  lemma PollOneCalls(cfg: Config, s: State, n: Ecu, now: real, ready: bool)
    ensures var t := PollOne(cfg, s, n, now, ready);
            SameCalls(s, t) || (!s.lockPending && t.lockPending && CallFor(s, t))
  {
    var d := Decision(cfg, s, n, now);
    PollOneDecides(cfg, s, n, now, ready);
    if d.Some? {
      ResolveCalls(s, n, d.value, BasisOf(s, n), now, ready);
    }
  }

  /** The poll's last request. */
  lemma LastCalls(cfg: Config, s: State, names: seq<Ecu>, now: real, ready: bool)
    requires names != []
    ensures var u, t := PollEach(cfg, s, names[..|names| - 1], now, ready), PollEach(cfg, s, names, now, ready);
            SameCalls(u, t) || (!u.lockPending && t.lockPending && CallFor(u, t))
  {
    PollOneCalls(cfg, PollEach(cfg, s, names[..|names| - 1], now, ready), names[|names| - 1], now, ready);
  }

  lemma {:induction false} PollCallsAt(cfg: Config, s: State, names: seq<Ecu>, now: real, ready: bool)
    returns (k: nat, m: State)
    requires !s.lockPending
    ensures var t := PollEach(cfg, s, names, now, ready);
            if t.lockPending then CalledAt(cfg, s, names, now, ready, k, m) && CallFor(s, m) && t.calls == m.calls
            else t.calls == s.calls
  {
    k, m := 0, s;
    if names != [] {
      var n := |names| - 1;
      k, m := PollCallsAt(cfg, s, names[..n], now, ready);
      LastCalls(cfg, s, names, now, ready);
      if PollEach(cfg, s, names[..n], now, ready).lockPending {
        assert names[..n][..k + 1] == names[..k + 1] && names[..n][..k] == names[..k];
        assert CalledAt(cfg, s, names, now, ready, k, m);
      } else {
        k, m := n, PollEach(cfg, s, names, now, ready);
        assert names[..n + 1] == names;
      }
    }
  }

  // ---- When an approval overtakes the unlock ----

  predicate DeniedAt(cfg: Config, s: State, names: seq<Ecu>, now: real, k: int) {
    0 <= k < |names| && Decision(cfg, s, names[k], now) == Some(false)
  }

  predicate ApprovedAt(cfg: Config, s: State, names: seq<Ecu>, now: real, k: int) {
    0 <= k < |names| && Decision(cfg, s, names[k], now) == Some(true)
  }

  /** Some request is denied before any is approved. */
  ghost predicate DenialFirst(cfg: Config, s: State, names: seq<Ecu>, now: real) {
    exists j :: DeniedAt(cfg, s, names, now, j) && forall i :: i < j ==> !ApprovedAt(cfg, s, names, now, i)
  }

  ghost predicate SomeApproval(cfg: Config, s: State, names: seq<Ecu>, now: real) {
    exists k :: ApprovedAt(cfg, s, names, now, k)
  }

  /** On a locked vehicle with nobody active, what a poll makes of the lock. */
  ghost predicate Outcome(cfg: Config, s: State, names: seq<Ecu>, now: real, t: State) {
    && t.isLocked
    && (t.active != map[] <==> SomeApproval(cfg, s, names, now))
    && (t.lockPending <==> DenialFirst(cfg, s, names, now))
  }

  lemma ApprovalsNext(cfg: Config, s: State, names: seq<Ecu>, now: real)
    requires names != []
    ensures var n := |names| - 1;
            SomeApproval(cfg, s, names, now) <==>
              SomeApproval(cfg, s, names[..n], now) || Decision(cfg, s, names[n], now) == Some(true)
  {
    var n := |names| - 1;
    assert forall k :: 0 <= k < n ==> names[..n][k] == names[k];
    if SomeApproval(cfg, s, names[..n], now) {
      var k :| ApprovedAt(cfg, s, names[..n], now, k);
      assert ApprovedAt(cfg, s, names, now, k);
    }
    if Decision(cfg, s, names[n], now) == Some(true) {
      assert ApprovedAt(cfg, s, names, now, n);
    }
    if SomeApproval(cfg, s, names, now) {
      var k :| ApprovedAt(cfg, s, names, now, k);
      assert k < n ==> ApprovedAt(cfg, s, names[..n], now, k);
    }
  }

  lemma DenialsNext(cfg: Config, s: State, names: seq<Ecu>, now: real)
    requires names != []
    ensures var n := |names| - 1;
            DenialFirst(cfg, s, names, now) <==>
              || DenialFirst(cfg, s, names[..n], now)
              || (Decision(cfg, s, names[n], now) == Some(false) && !SomeApproval(cfg, s, names[..n], now))
  {
    var n := |names| - 1;
    assert forall k :: 0 <= k < n ==> names[..n][k] == names[k];
    assert forall k :: k < n ==> (ApprovedAt(cfg, s, names[..n], now, k) <==> ApprovedAt(cfg, s, names, now, k));
    assert forall k :: k < n ==> (DeniedAt(cfg, s, names[..n], now, k) <==> DeniedAt(cfg, s, names, now, k));
    if DenialFirst(cfg, s, names[..n], now) {
      var j :| DeniedAt(cfg, s, names[..n], now, j) && forall i :: i < j ==> !ApprovedAt(cfg, s, names[..n], now, i);
      assert DeniedAt(cfg, s, names, now, j) && forall i :: i < j ==> !ApprovedAt(cfg, s, names, now, i);
    }
    if Decision(cfg, s, names[n], now) == Some(false) && !SomeApproval(cfg, s, names[..n], now) {
      assert DeniedAt(cfg, s, names, now, n) && forall i :: i < n ==> !ApprovedAt(cfg, s, names, now, i);
    }
    if DenialFirst(cfg, s, names, now) {
      var j :| DeniedAt(cfg, s, names, now, j) && forall i :: i < j ==> !ApprovedAt(cfg, s, names, now, i);
      if j < n {
        assert DeniedAt(cfg, s, names[..n], now, j) && forall i :: i < j ==> !ApprovedAt(cfg, s, names[..n], now, i);
      } else {
        assert forall i :: !ApprovedAt(cfg, s, names[..n], now, i);
      }
    }
  }

  /** What one more decision makes of it. */
  lemma OutcomeStep(u: State, n: Ecu, approved: bool, basis: Basis, now: real)
    requires u.isLocked && n in u.pending
    ensures var t := Resolve(u, n, approved, basis, now, true);
            && t.isLocked && (t.active != map[] <==> u.active != map[] || approved)
            && (t.lockPending <==> u.lockPending || (u.active == map[] && !approved))
  {
    var t := Resolve(u, n, approved, basis, now, true);
    assert approved ==> n in t.active;
  }

  lemma {:induction false} PollOutcome(cfg: Config, s: State, names: seq<Ecu>, now: real)
    requires ApprovalRuns.Inv(s, {}) && s.isLocked && !s.lockPending && s.active == map[]
    ensures Outcome(cfg, s, names, now, PollEach(cfg, s, names, now, true))
  {
    if names != [] {
      var n := |names| - 1;
      var u := PollEach(cfg, s, names[..n], now, true);
      PollOutcome(cfg, s, names[..n], now);
      PollEachLeaves(cfg, s, names[..n], now, true);
      PollOneDecides(cfg, u, names[n], now, true);
      ApprovalsNext(cfg, s, names, now);
      DenialsNext(cfg, s, names, now);
      if Decision(cfg, u, names[n], now).Some? {
        assert names[n] in u.pending;
        OutcomeStep(u, names[n], Decision(cfg, u, names[n], now).value, BasisOf(u, names[n]), now);
      } else if Decision(cfg, s, names[n], now).Some? {
        DecidedBefore(cfg, s, names[..n], now, names[n]);
      }
    }
  }

  /** A name met again was decided the first time. */
  lemma DecidedBefore(cfg: Config, s: State, names: seq<Ecu>, now: real, n: Ecu)
    requires n in names && Decision(cfg, s, n, now).Some?
    ensures if Decision(cfg, s, n, now).value then SomeApproval(cfg, s, names, now)
            else SomeApproval(cfg, s, names, now) || DenialFirst(cfg, s, names, now)
  {
    var k :| 0 <= k < |names| && names[k] == n;
    if Decision(cfg, s, n, now).value {
      assert ApprovedAt(cfg, s, names, now, k);
    } else if !SomeApproval(cfg, s, names, now) {
      assert DeniedAt(cfg, s, names, now, k) && forall i :: i < k ==> !ApprovedAt(cfg, s, names, now, i);
    }
  }

  /** A poll ends with an unlock called for and somebody active exactly if it began on a locked vehicle with
      nobody active and the service ready, denied one request and approved another, in this order. */
  lemma UnlockOvertakenIff(cfg: Config, s: State, names: seq<Ecu>, now: real, ready: bool)
    requires ApprovalRuns.Inv(s, {}) && !s.lockPending
    ensures var t := PollEach(cfg, s, names, now, ready);
            t.lockPending && t.calls == s.calls + [Unlock] && t.active != map[] <==>
              && ready && s.isLocked && s.active == map[]
              && DenialFirst(cfg, s, names, now) && SomeApproval(cfg, s, names, now)
  {
    var t := PollEach(cfg, s, names, now, ready);
    LockRuns.PollEachPolled(cfg, s, names, now, ready);
    if t.lockPending && t.calls == s.calls + [Unlock] && t.active != map[] {
      assert (s.calls + [Unlock])[|s.calls|] == Unlock && (s.calls + [Lock])[|s.calls|] == Lock;
      assert ready && s.isLocked && s.active == map[];
      PollOutcome(cfg, s, names, now);
    } else if ready && s.isLocked && s.active == map[] {
      PollOutcome(cfg, s, names, now);
    }
  }

  // ---- The mismatch at the end of a poll ----

  predicate Overtaken(s: State, t: State) { t.lockPending && t.calls == s.calls + [Unlock] && t.active != map[] }

  lemma OvertakenStep(cfg: Config, s: State, names: seq<Ecu>, now: real, ready: bool)
    requires ApprovalRuns.Inv(s, {}) && s.pollTimer && CoordinatorRuns.Lists(s, names) && !s.lockPending
    ensures Overtaken(s, Next(cfg, s, PollTick(names, now, ready))) <==>
              ready && s.isLocked && s.active == map[] && DenialFirst(cfg, s, names, now)
                && SomeApproval(cfg, s, names, now)
  {
    UnlockOvertakenIff(cfg, s, names, now, ready);
  }

  /** In every run: by the end of a poll that called for the unlock the set has filled again exactly if the poll
      began on a locked vehicle with nobody active and the service ready, and denied one request before it
      approved the first. */
  lemma PollOvertakesUnlockIff(cfg: Config, offers: set<OfferId>, answers: map<OfferId, Word>, es: seq<Event>,
                               names: seq<Ecu>, now: real, ready: bool)
    requires var s := Run(cfg, Start(offers, answers), es);
             s.pollTimer && CoordinatorRuns.Lists(s, names) && !s.lockPending
    ensures var s := Run(cfg, Start(offers, answers), es);
            Overtaken(s, Next(cfg, s, PollTick(names, now, ready))) <==>
              ready && s.isLocked && s.active == map[] && DenialFirst(cfg, s, names, now)
                && SomeApproval(cfg, s, names, now)
  {
    ApprovalRuns.RunKeepsInv(cfg, offers, answers, es);
    OvertakenStep(cfg, Run(cfg, Start(offers, answers), es), names, now, ready);
  }

  predicate Unheld(s: State) { s.active == map[] && !s.isLocked && !s.lockPending }

  const NOON := Inputs(0.0, true, true, true)

  /** Both requesters ask, a self-update locks and is over before the lock is, the driver denies the one and
      approves the other. */
  const TWO_ASK: seq<Event> :=
    [Frame(CanFrame(CAN_ID_OTA_REQ, 8, OTA_REQ_MAGIC, Some(0)), NOON),
     Frame(CanFrame(CAN_ID_ECU_OTA_REQ, 8, OTA_REQ_MAGIC, Some(0)), NOON),
     SelfStarted(0.0, true), SelfFinished(true), Done(true),
     DriverAnswers(OfferId(Cluster, 0, 1), Deny), DriverAnswers(OfferId(Esp32, 0, 2), Approve)]

  lemma RunStep(cfg: Config, s0: State, es: seq<Event>, k: nat)
    requires k < |es|
    ensures Run(cfg, s0, es[..k + 1]) == Next(cfg, Run(cfg, s0, es[..k]), es[k])
  {
    assert es[..k + 1][..k] == es[..k];
  }

  lemma AsksTheDriver(cfg: Config, s: State, f: CanFrame, i: Inputs)
    requires cfg.requireApproval && Unheld(s) && i.uiAvailable && i.offerWritten
    requires !Ignored(f) && f.magic == OTA_REQ_MAGIC && FlowOf(f.canId).value.name !in s.pending
    ensures var t, n := Next(cfg, s, Frame(f, i)), FlowOf(f.canId).value.name;
            && Unheld(t) && t.pollTimer && t.answers == s.answers && t.offerSeq == s.offerSeq + 1
            && t.pending.Keys == s.pending.Keys + {n}
                 && t.pending[n].id == OfferId(n, (i.now / 1000.0).Floor, s.offerSeq + 1)
            && forall m :: m in s.pending ==> t.pending[m] == s.pending[m]
  {
  }

  /** Both offers are out. */
  predicate BothWait(s: State) {
    && s.pollTimer && s.pending.Keys == {Cluster, Esp32}
    && s.pending[Cluster].id == OfferId(Cluster, 0, 1) && s.pending[Esp32].id == OfferId(Esp32, 0, 2)
  }

  lemma TwoOffers(cfg: Config)
    requires cfg.requireApproval
    ensures var s := Run(cfg, Start({}, map[]), TWO_ASK[..2]); BothWait(s) && Unheld(s) && s.answers == map[]
  {
    var s0 := Start({}, map[]);
    assert TWO_ASK[..0] == [];
    RunStep(cfg, s0, TWO_ASK, 0);
    RunStep(cfg, s0, TWO_ASK, 1);
    AsksTheDriver(cfg, s0, TWO_ASK[0].frame, NOON);
    AsksTheDriver(cfg, Run(cfg, s0, TWO_ASK[..1]), TWO_ASK[1].frame, NOON);
  }

  lemma LocksForNobody(cfg: Config, s: State)
    requires Unheld(s)
    ensures var t := Next(cfg, Next(cfg, Next(cfg, s, SelfStarted(0.0, true)), SelfFinished(true)), Done(true));
            && t.isLocked && !t.lockPending && t.active == map[]
            && t.pending == s.pending && t.pollTimer == s.pollTimer && t.answers == s.answers
  {
    assert Jetson in s.active[Jetson := 0.0];
    assert s.active[Jetson := 0.0] - {Jetson} == map[];
  }

  lemma LockedUnderOffers(cfg: Config)
    requires cfg.requireApproval
    ensures var s := Run(cfg, Start({}, map[]), TWO_ASK[..5]);
            BothWait(s) && s.isLocked && !s.lockPending && s.active == map[] && s.answers == map[]
  {
    TwoOffers(cfg);
    ThreeMore(cfg, Start({}, map[]));
    LocksForNobody(cfg, Run(cfg, Start({}, map[]), TWO_ASK[..2]));
  }

  lemma ThreeMore(cfg: Config, s0: State)
    ensures Run(cfg, s0, TWO_ASK[..5]) ==
              Next(cfg, Next(cfg, Next(cfg, Run(cfg, s0, TWO_ASK[..2]), SelfStarted(0.0, true)),
                  SelfFinished(true)), Done(true))
  {
    RunStep(cfg, s0, TWO_ASK, 2);
    RunStep(cfg, s0, TWO_ASK, 3);
    RunStep(cfg, s0, TWO_ASK, 4);
  }

  lemma BothAnswered(cfg: Config)
    requires cfg.requireApproval
    ensures var s := Run(cfg, Start({}, map[]), TWO_ASK);
            && BothWait(s) && s.isLocked && !s.lockPending && s.active == map[]
            && s.answers == map[OfferId(Cluster, 0, 1) := Deny, OfferId(Esp32, 0, 2) := Approve]
  {
    var s0 := Start({}, map[]);
    LockedUnderOffers(cfg);
    RunStep(cfg, s0, TWO_ASK, 5);
    RunStep(cfg, s0, TWO_ASK, 6);
    assert TWO_ASK[..7] == TWO_ASK;
  }

  /** A run in which it does. */
  lemma PollOvertakesUnlock(cfg: Config)
    requires cfg.requireApproval
    ensures var s := Run(cfg, Start({}, map[]), TWO_ASK);
            Overtaken(s, Next(cfg, s, PollTick([Cluster, Esp32], 100.0, true)))
  {
    var names, s := [Cluster, Esp32], Run(cfg, Start({}, map[]), TWO_ASK);
    BothAnswered(cfg);
    assert DeniedAt(cfg, s, names, 100.0, 0) && forall i :: i < 0 ==> !ApprovedAt(cfg, s, names, 100.0, i);
    assert ApprovedAt(cfg, s, names, 100.0, 1);
    PollOvertakesUnlockIff(cfg, {}, map[], TWO_ASK, names, 100.0, true);
  }
}
