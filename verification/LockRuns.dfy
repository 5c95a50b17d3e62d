/** The coordinator's side of the lock: when the lock state may disagree with the active set. */
module LockRuns {
  import opened Coordinator
  import opened CoordinatorRuns

  predicate Busy(s: State) { s.active != map[] }

  /** Nothing in flight, locked exactly while some update is active, and then with the timeout
      timer running. */
  predicate Agrees(s: State) {
    !s.lockPending && (s.isLocked <==> Busy(s)) && (Busy(s) ==> s.timeoutTimer)
  }

  /** What an observer has seen since the last agreement: the active set became empty or non-empty
      while a call was in flight; a handler ran with the stop service not ready; a call failed. */
  datatype Excuse = Excuse(changedDuringCall: bool, notReady: bool, callFailed: bool)

  predicate Excused(x: Excuse) { x.changedDuringCall || x.notReady || x.callFailed }

  predicate Unready(e: Event) {
    match e
    case Frame(_, i) => !i.ready
    case Drained(ready) => !ready
    case PollTick(_, _, ready) => !ready
    case TimeoutTick(_, ready) => !ready
    case SelfStarted(_, ready) => !ready
    case SelfFinished(ready) => !ready
    case _ => false
  }

  /** What the observer has seen once event e took the coordinator from s to t. */
  function Notice(x: Excuse, s: State, e: Event, t: State): Excuse {
    if Agrees(t) then Excuse(false, false, false)
    else Excuse(x.changedDuringCall || (s.lockPending && Busy(s) != Busy(t)),
                x.notReady || (!s.lockPending && Unready(e)),
                x.callFailed || e == Done(false))
  }

  ghost function Excuses(cfg: Config, s0: State, es: seq<Event>): Excuse {
    if es == [] then Excuse(false, false, false)
    else
      var n := |es| - 1;
      Notice(Excuses(cfg, s0, es[..n]), Run(cfg, s0, es[..n]), es[n], Run(cfg, s0, es))
  }

  /** While a call is in flight it asks for the opposite of the known lock state, and the timeout
      timer runs exactly for a lock; with none in flight, disagreement has an excuse. */
  ghost predicate Inv(s: State, x: Excuse) {
    if s.lockPending then
      && s.calls != []
      && var asked := s.calls[|s.calls| - 1] == Lock;
         && asked != s.isLocked && s.timeoutTimer == asked
         && (Busy(s) == asked || Excused(x))
    else Agrees(s) || Excused(x)
  }

  // ---- The handlers reach UpdateLockState ----

  /** What a handler that ends in UpdateLockState leaves, from any state. */
  ghost predicate Updated(s: State, t: State, ready: bool) {
    if s.lockPending then
      t.lockPending && t.calls == s.calls && t.isLocked == s.isLocked && t.timeoutTimer == s.timeoutTimer
    else
      && t.isLocked == s.isLocked && t.timeoutTimer == Busy(t)
      && (t.lockPending <==> ready && s.isLocked != Busy(t))
      && t.calls == s.calls + if t.lockPending then [if Busy(t) then Lock else Unlock] else []
  }

  ghost predicate SameLock(s: State, t: State) {
    t.isLocked == s.isLocked && t.lockPending == s.lockPending && t.timeoutTimer == s.timeoutTimer && t.calls == s.calls
  }

  lemma UpdateUpdates(s: State, t: State, ready: bool)
    requires SameLock(s, t)
    ensures Updated(s, UpdateLockState(t, ready), ready)
  {
  }

  /** Every handler that changes the active set re-checks the lock on the way out. */
  lemma HandlersUpdate(cfg: Config, s: State, e: Event)
    requires e.Frame? || e.TimeoutTick? || e.SelfStarted? || e.SelfFinished? || e.Drained?
    ensures var t := Next(cfg, s, e);
            (t.active == s.active && SameLock(s, t)) || Updated(s, t, !Unready(e))
  {
    match e {
      case Frame(f, i) =>
        if !Ignored(f) {
          var flow := FlowOf(f.canId).value;
          DispatchKeepsLock(cfg, s, flow, f.magic, f.slot.value, i);
          UpdateUpdates(s, Dispatch(cfg, s, flow, f.magic, f.slot.value, i), i.ready);
        }
      case TimeoutTick(now, ready) => UpdateUpdates(s, s.(active := s.active - Expired(cfg, s, now)), ready);
      case SelfStarted(now, ready) => UpdateUpdates(s, Begun(s, now), ready);
      case SelfFinished(ready) => UpdateUpdates(s, s.(active := s.active - {Jetson}), ready);
      case Drained(ready) => UpdateUpdates(s, s, ready);
    }
  }

  lemma DispatchKeepsLock(cfg: Config, s: State, flow: Flow, magic: int, slot: int, i: Inputs)
    ensures SameLock(s, Dispatch(cfg, s, flow, magic, slot, i))
  {
    if magic == OTA_REQ_MAGIC {
      var req, s0 := |s.journal.requests|, Accept(s, flow, slot, i.now);
      if cfg.requireApproval && i.uiAvailable {
        assert SameLock(s0, Supersede(s0, flow.name));
        OfferKeepsLock(Supersede(s0, flow.name), req, flow, slot, i);
      } else {
        assert SameLock(s0, ApproveUnasked(s0, req, flow, slot, i.now));
      }
    }
  }

  lemma OfferKeepsLock(s: State, req: nat, flow: Flow, slot: int, i: Inputs)
    ensures SameLock(s, MakeOffer(s, req, flow, slot, i))
  {
  }

  /** What a poll leaves. It may resolve several requests, but the active set only grows: a lock call
      stands, and an unlock call can be overtaken only if the set was empty while locked before. */
  ghost predicate Polled(s: State, t: State, ready: bool) {
    && t.isLocked == s.isLocked && (Busy(s) ==> Busy(t))
    && (s.lockPending ==> SameLock(s, t))
    && (!s.lockPending ==>
          || (SameLock(s, t) && t.active == s.active)
          || (!t.lockPending && t.calls == s.calls && t.timeoutTimer == Busy(t) && (t.isLocked == Busy(t) || !ready))
          || (t.lockPending && ready && t.calls == s.calls + [if s.isLocked then Unlock else Lock]
              && t.timeoutTimer == !s.isLocked && (Busy(t) == !s.isLocked || (s.isLocked && !Busy(s)))))
  }

  lemma PolledTwice(s: State, t: State, u: State, ready: bool)
    requires Polled(s, t, ready) && Polled(t, u, ready)
    ensures Polled(s, u, ready)
  {
  }

  lemma UpdatePolled(s: State, t: State, ready: bool)
    requires SameLock(s, t) && (Busy(s) ==> Busy(t))
    ensures Polled(s, UpdateLockState(t, ready), ready)
  {
  }

  lemma PollOnePolled(cfg: Config, s: State, n: Ecu, now: real, ready: bool)
    ensures Polled(s, PollOne(cfg, s, n, now, ready), ready)
  {
    if n in s.pending {
      var p := s.pending[n];
      if p.id in s.answers {
        ResolvePolled(s, n, s.answers[p.id] == Approve, Driver(p.id, s.answers[p.id]), now, ready);
      } else if now >= p.deadline {
        ResolvePolled(s, n, cfg.approveOnNoVerdict, NoAnswer, now, ready);
      }
    }
  }

  lemma ResolvePolled(s: State, name: Ecu, approved: bool, basis: Basis, now: real, ready: bool)
    ensures Polled(s, Resolve(s, name, approved, basis, now, ready), ready)
  {
    if name in s.pending {
      var p := s.pending[name];
      var s2 := SendVerdict(Removed(s, name), p.req, p.flow, p.slot, approved, basis, now);
      UpdatePolled(s, if approved then s2.(active := s2.active[name := now]) else s2, ready);
    }
  }

  lemma {:induction false} PollEachPolled(cfg: Config, s: State, names: seq<Ecu>, now: real, ready: bool)
    ensures Polled(s, PollEach(cfg, s, names, now, ready), ready)
  {
    if names != [] {
      var k := |names| - 1;
      var t := PollEach(cfg, s, names[..k], now, ready);
      PollEachPolled(cfg, s, names[..k], now, ready);
      PollOnePolled(cfg, t, names[k], now, ready);
      PolledTwice(s, t, PollOne(cfg, t, names[k], now, ready), ready);
    }
  }

  // ---- Runs ----

  lemma NextKeepsInv(cfg: Config, s: State, x: Excuse, e: Event)
    requires Inv(s, x)
    ensures Inv(Next(cfg, s, e), Notice(x, s, e, Next(cfg, s, e)))
  {
    match e {
      case PollTick(names, now, ready) =>
        PollNextPolled(cfg, s, names, now, ready);
        PolledKeepsInv(s, Next(cfg, s, e), x, e);
      case Done(success) =>
      case DriverAnswers(_, _) =>
      case Stop =>
      case _ =>
        HandlersUpdate(cfg, s, e);
        UpdatedKeepsInv(s, Next(cfg, s, e), x, e);
    }
  }

  lemma PollNextPolled(cfg: Config, s: State, names: seq<Ecu>, now: real, ready: bool)
    ensures Polled(s, Next(cfg, s, PollTick(names, now, ready)), ready)
  {
    PollEachPolled(cfg, s, names, now, ready);
  }

  lemma PolledKeepsInv(s: State, t: State, x: Excuse, e: Event)
    requires Inv(s, x) && e.PollTick? && Polled(s, t, e.ready)
    ensures Inv(t, Notice(x, s, e, t))
  {
  }

  lemma UpdatedKeepsInv(s: State, t: State, x: Excuse, e: Event)
    requires Inv(s, x) && !e.Done?
    requires (t.active == s.active && SameLock(s, t)) || Updated(s, t, !Unready(e))
    ensures Inv(t, Notice(x, s, e, t))
  {
  }

  /** In every run, a state with no call in flight in which the lock disagrees with the active set,
      or a non-empty set lacks its timeout timer, is one where since the last agreement the
      set's emptiness changed during a call, the service was not ready, or a call failed. */
  lemma {:induction false} MismatchIsExcused(cfg: Config, offers: set<OfferId>, answers: map<OfferId, Word>,
                                             es: seq<Event>)
    ensures var s, x := Run(cfg, Start(offers, answers), es), Excuses(cfg, Start(offers, answers), es);
            Inv(s, x) && (!s.lockPending && !Agrees(s) ==> Excused(x))
  {
    if es != [] {
      var n := |es| - 1;
      MismatchIsExcused(cfg, offers, answers, es[..n]);
      var s0 := Start(offers, answers);
      NextKeepsInv(cfg, Run(cfg, s0, es[..n]), Excuses(cfg, s0, es[..n]), es[n]);
    }
  }

  /** Completion of a successful call leaves agreement exactly when the set is as it was when the
      call was made: the completion handler does not look at the set again. */
  lemma CompletionAgreesIff(s: State, x: Excuse)
    requires s.lockPending && Inv(s, x)
    ensures var asked := s.calls[|s.calls| - 1];
            Agrees(ServiceDone(s, asked, true)) <==> (Busy(s) <==> asked == Lock)
  {
  }

  lemma RunAppend(cfg: Config, s0: State, es: seq<Event>, e: Event)
    ensures Run(cfg, s0, es + [e]) == Next(cfg, Run(cfg, s0, es), e)
  {
    assert (es + [e])[..|es|] == es;
  }

  /** Both mismatches occur. A self-update that is over before its lock call completes leaves the vehicle
      locked for nobody... */
  lemma LockedForNobody(cfg: Config, offers: set<OfferId>, answers: map<OfferId, Word>, t: real)
    ensures var s := Run(cfg, Start(offers, answers), [SelfStarted(t, true), SelfFinished(true), Done(true)]);
            !s.lockPending && s.isLocked && !Busy(s)
  {
    var s0, a := Start(offers, answers), SelfStarted(t, true);
    FirstLock(cfg, s0, t);
    RunAppend(cfg, s0, [a], SelfFinished(true));
    RunAppend(cfg, s0, [a, SelfFinished(true)], Done(true));
    assert [a] + [SelfFinished(true)] == [a, SelfFinished(true)];
    assert [a, SelfFinished(true)] + [Done(true)] == [a, SelfFinished(true), Done(true)];
    assert map[Jetson := t] - {Jetson} == map[];
  }

  lemma FirstLock(cfg: Config, s0: State, t: real)
    requires !s0.lockPending && !s0.isLocked && s0.active == map[] && s0.calls == []
    ensures Run(cfg, s0, [SelfStarted(t, true)]) ==
              s0.(active := map[Jetson := t], timeoutTimer := true, lockPending := true, calls := [Lock],
                  log := s0.log + [Began(t)] + [Called(Lock, map[Jetson := t])])
  {
    RunAppend(cfg, s0, [], SelfStarted(t, true));
    assert Jetson in map[Jetson := t];
  }

  /** ...and one that starts before the unlock call of the last completes runs on an unlocked vehicle, with
      no timeout timer to end it. */
  lemma UpdateRunsUnlocked(cfg: Config, offers: set<OfferId>, answers: map<OfferId, Word>, t: real, u: real)
    ensures var s := Run(cfg, Start(offers, answers),
                         [SelfStarted(t, true), Done(true), SelfFinished(true), SelfStarted(u, true), Done(true)]);
            !s.lockPending && !s.isLocked && s.active == map[Jetson := u] && !s.timeoutTimer
  {
    var s0 := Start(offers, answers);
    var a, b, c, d := SelfStarted(t, true), Done(true), SelfFinished(true), SelfStarted(u, true);
    FirstLock(cfg, s0, t);
    RunAppend(cfg, s0, [a], b);
    assert [a] + [b] == [a, b];
    var locked := Run(cfg, s0, [a, b]);
    assert locked == s0.(active := map[Jetson := t], timeoutTimer := true, calls := [Lock], isLocked := true,
        log := locked.log);
    UnlockCrossed(cfg, locked, t, u);
    RunAppend(cfg, s0, [a, b], c);
    RunAppend(cfg, s0, [a, b, c], d);
    RunAppend(cfg, s0, [a, b, c, d], b);
    assert [a, b] + [c] == [a, b, c] && [a, b, c] + [d] == [a, b, c, d] && [a, b, c, d] + [b] == [a, b, c, d, b];
  }

  lemma UnlockCrossed(cfg: Config, s: State, t: real, u: real)
    requires !s.lockPending && s.isLocked && s.active == map[Jetson := t] && s.calls == [Lock]
    ensures var s1 := Next(cfg, s, SelfFinished(true));
            var s2 := Next(cfg, Next(cfg, s1, SelfStarted(u, true)), Done(true));
            !s2.lockPending && !s2.isLocked && s2.active == map[Jetson := u] && !s2.timeoutTimer
  {
    assert s.active - {Jetson} == map[];
    var s1 := Next(cfg, s, SelfFinished(true));
    assert s1 == s.(active := map[], timeoutTimer := false, lockPending := true, calls := [Lock, Unlock],
        log := s1.log);
  }

  /** Nor are the other two excuses idle: with the service not ready a self-update runs unlocked... */
  lemma UnlockedForNotReady(cfg: Config, offers: set<OfferId>, answers: map<OfferId, Word>, t: real)
    ensures var es := [SelfStarted(t, false)];
            var s, x := Run(cfg, Start(offers, answers), es), Excuses(cfg, Start(offers, answers), es);
            !s.lockPending && !s.isLocked && s.active == map[Jetson := t] && x == Excuse(false, true, false)
  {
    var s0, e := Start(offers, answers), SelfStarted(t, false);
    RunAppend(cfg, s0, [], e);
    assert [] + [e] == [e] && [e][..0] == [];
    assert Jetson in map[Jetson := t];
  }

  /** ...and so it does after a failed call. */
  lemma UnlockedForFailedCall(cfg: Config, offers: set<OfferId>, answers: map<OfferId, Word>, t: real)
    ensures var es := [SelfStarted(t, true), Done(false)];
            var s, x := Run(cfg, Start(offers, answers), es), Excuses(cfg, Start(offers, answers), es);
            !s.lockPending && !s.isLocked && s.active == map[Jetson := t] && x.callFailed && !x.changedDuringCall
  {
    var s0, e := Start(offers, answers), SelfStarted(t, true);
    FirstLock(cfg, s0, t);
    RunAppend(cfg, s0, [e], Done(false));
    assert [e] + [Done(false)] == [e, Done(false)] && [e, Done(false)][..1] == [e] && [e][..0] == [];
    assert Jetson in map[Jetson := t];
    assert Excuses(cfg, s0, [e]) == Notice(Excuse(false, false, false), s0, e, Run(cfg, s0, [e]));
  }

  /** A lock left over after such a completion is not undone by any timer... */
  lemma TimersDoNotRepair(cfg: Config, s: State, e: Event)
    requires !s.lockPending && s.isLocked && !Busy(s) && s.pending == map[]
    requires e.TimeoutTick? || e.PollTick? || e.Done? || e.DriverAnswers? || e.Stop?
    ensures var t := Next(cfg, s, e);
            t.isLocked && !t.lockPending && t.calls == s.calls && !Busy(t) && t.pending == map[]
  {
    match e {
      case PollTick(names, now, ready) => PollNothing(cfg, s, names, now, ready);
      case _ =>
    }
  }

  lemma {:induction false} PollNothing(cfg: Config, s: State, names: seq<Ecu>, now: real, ready: bool)
    requires s.pending == map[]
    ensures PollEach(cfg, s, names, now, ready) == s
  {
    if names != [] {
      PollNothing(cfg, s, names[..|names| - 1], now, ready);
    }
  }

  /** ...but by the next CAN traffic, whatever it carries: agreement, or the right call. */
  lemma TrafficRepairs(cfg: Config, s: State)
    requires !s.lockPending
    ensures var t := Next(cfg, s, Drained(true));
            Agrees(t) || (t.lockPending && t.calls == s.calls + [if Busy(t) then Lock else Unlock])
  {
  }

  /** A timeout tick ends exactly the updates older than the limit, and if none is left over, asks at once
      for the unlock. */
  lemma ExpiryReleases(cfg: Config, s: State, now: real)
    requires s.timeoutTimer && s.isLocked && !s.lockPending && Busy(s)
    ensures var t := Next(cfg, s, TimeoutTick(now, true));
            && (forall n :: n in t.active <==> n in s.active && now - s.active[n] <= cfg.timeoutMs)
            && (forall n :: n in t.active ==> t.active[n] == s.active[n])
            && (t.calls == s.calls + [Unlock] <==> forall n :: n in s.active ==> now - s.active[n] > cfg.timeoutMs)
            && (t.calls == s.calls || t.calls == s.calls + [Unlock])
  {
    var t := Next(cfg, s, TimeoutTick(now, true));
    var expired := Expired(cfg, s, now);
    if expired == {} {
      assert t == s && t.calls != s.calls + [Unlock] by { assert |s.calls| != |s.calls + [Unlock]|; }
      assert forall n :: n in s.active ==> n !in expired;
      var n :| n in s.active;
    } else {
      var t0 := s.(active := s.active - expired);
      if t0.active == map[] {
        assert forall n :: n in s.active ==> n in expired by {
          assert forall n :: n in s.active && n !in expired ==> n in t0.active;
        }
      } else {
        var n :| n in t0.active;
        assert n !in expired;
        assert t.calls != s.calls + [Unlock] by { assert |s.calls| != |s.calls + [Unlock]|; }
      }
    }
  }

  /** The call that follows an approval sent in the same handler, if one does. */
  function LockCall(s: State, t: State, ready: bool): seq<Act> {
    if !s.lockPending && ready && !s.isLocked then [Called(Lock, t.active)] else []
  }

  /** A poll's approval goes out first, and the lock is asked for after it in the same handler exactly if no
      call is in flight, the service is ready and the vehicle is not locked yet. */
  lemma ApprovedBeforeLocked(s: State, n: Ecu, basis: Basis, now: real, ready: bool)
    requires n in s.pending
    ensures var t := Resolve(s, n, true, basis, now, ready);
            && t.journal.verdicts != []
            && var v := t.journal.verdicts[|t.journal.verdicts| - 1];
               && v.approved && v.at == now && v.req == s.pending[n].req
               && t.log == s.log + [Said(v)] + LockCall(s, t, ready)
               && (t.calls == s.calls <==> s.lockPending || !ready || s.isLocked)
  {
    var t := Resolve(s, n, true, basis, now, ready);
    assert n in t.active;
    assert |s.calls + [Lock]| != |s.calls|;
  }

  /** The same of an approval given without asking. */
  lemma UnaskedBeforeLocked(cfg: Config, s: State, f: CanFrame, i: Inputs)
    requires !Ignored(f) && f.magic == OTA_REQ_MAGIC && (!cfg.requireApproval || !i.uiAvailable || !i.offerWritten)
    ensures var t := HandleFrame(cfg, s, f, i);
            && t.journal.verdicts != []
            && var v := t.journal.verdicts[|t.journal.verdicts| - 1];
               && v.approved && v.at == i.now && v.req == |s.journal.requests|
               && t.log == s.log + [Said(v)] + LockCall(s, t, i.ready)
               && (t.calls == s.calls <==> s.lockPending || !i.ready || s.isLocked)
  {
    var flow := FlowOf(f.canId).value;
    var u := BeginApproval(cfg, s, flow, f.slot.value, i);
    DispatchKeepsLock(cfg, s, flow, f.magic, f.slot.value, i);
    UnaskedLog(cfg, s, flow, f.slot.value, i);
    LockLeavesRest(u, i.ready);
    assert |s.calls + [Lock]| != |s.calls|;
  }

  lemma UnaskedLog(cfg: Config, s: State, flow: Flow, slot: int, i: Inputs)
    requires !cfg.requireApproval || !i.uiAvailable || !i.offerWritten
    ensures var u := BeginApproval(cfg, s, flow, slot, i);
            && flow.name in u.active && u.journal.verdicts != []
            && var v := u.journal.verdicts[|u.journal.verdicts| - 1];
               v.approved && v.at == i.now && v.req == |s.journal.requests| && u.log == s.log + [Said(v)]
  {
  }
}
