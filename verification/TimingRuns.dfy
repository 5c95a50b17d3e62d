/** Deadlines: with the verdict poll at most 100 ms apart while its timer lives, every request is
    resolved before its requester stops waiting. */
module TimingRuns {
  import opened Coordinator
  import opened CoordinatorRuns
  import opened ApprovalRuns

  const POLL_MS := 100.0

  /** The time of the last event, and of the last poll or of the poll timer's creation. */
  datatype Clock = Clock(now: real, lastPoll: real)

  function TimeOf(e: Event, c: Clock): real {
    match e
    case Frame(_, i) => i.now
    case PollTick(_, now, _) => now
    case TimeoutTick(now, _) => now
    case SelfStarted(now, _) => now
    case _ => c.now
  }

  /** Time does not run backwards, and no event is later than the poll that is due. */
  ghost predicate Timely(s: State, c: Clock, e: Event) {
    c.now <= TimeOf(e, c) && (s.pollTimer ==> TimeOf(e, c) <= c.lastPoll + POLL_MS)
  }

  ghost function Tick(cfg: Config, s: State, c: Clock, e: Event): Clock {
    var polled := e.PollTick? && s.pollTimer && Lists(s, e.names);
    var created := !s.pollTimer && Next(cfg, s, e).pollTimer;
    Clock(TimeOf(e, c), if polled || created then TimeOf(e, c) else c.lastPoll)
  }

  ghost function ClockAfter(cfg: Config, s0: State, es: seq<Event>, start: real): Clock {
    if es == [] then Clock(start, start)
    else
      var n := |es| - 1;
      Tick(cfg, Run(cfg, s0, es[..n]), ClockAfter(cfg, s0, es[..n], start), es[n])
  }

  ghost predicate AllTimely(cfg: Config, s0: State, es: seq<Event>, start: real) {
    forall k :: 0 <= k < |es| ==> Timely(Run(cfg, s0, es[..k]), ClockAfter(cfg, s0, es[..k], start), es[k])
  }

  ghost predicate VerdictOnTime(qs: seq<Request>, v: Verdict) {
    && v.req < |qs|
    && v.at - qs[v.req].at < BudgetOf(qs[v.req].flow.name).deadlineMs + POLL_MS
  }

  ghost predicate AllOnTime(s: State) {
    forall k :: 0 <= k < |s.journal.verdicts| ==> VerdictOnTime(s.journal.requests, s.journal.verdicts[k])
  }

  ghost predicate PollCovers(pending: map<Ecu, Pending>, lastPoll: real) {
    forall n :: n in pending ==> lastPoll < pending[n].deadline
  }

  ghost predicate InTime(s: State, c: Clock) {
    && AllOnTime(s) && PollCovers(s.pending, c.lastPoll)
    && c.lastPoll <= c.now && (s.pollTimer ==> c.now <= c.lastPoll + POLL_MS)
  }

  lemma AddOnTime(s: State, t: State, v: Verdict)
    requires AllOnTime(s) && t.journal.verdicts == s.journal.verdicts + [v] && s.journal.requests <= t.journal.requests
    requires VerdictOnTime(t.journal.requests, v)
    ensures AllOnTime(t)
  {
    forall k | 0 <= k < |t.journal.verdicts| ensures VerdictOnTime(t.journal.requests, t.journal.verdicts[k]) {
      if k < |s.journal.verdicts| {
        assert VerdictOnTime(s.journal.requests, s.journal.verdicts[k]);
      }
    }
  }

  // ---- One poll ----

  lemma ResolveOnTime(s: State, n: Ecu, approved: bool, basis: Basis, now: real, ready: bool)
    requires Inv(s, {}) && AllOnTime(s) && n in s.pending && now < s.pending[n].deadline + POLL_MS
    ensures AllOnTime(Resolve(s, n, approved, basis, now, ready))
    ensures Resolve(s, n, approved, basis, now, ready).pending == s.pending - {n}
  {
    var p := s.pending[n];
    assert PendingCarries(s.journal.requests, s.journal.offered, n, p);
    var v := Verdict(p.req, p.flow.approveCanId, p.flow.didApprove, p.slot, approved, basis, now);
    AddOnTime(s, Resolve(s, n, approved, basis, now, ready), v);
  }

  lemma PollOneOnTime(cfg: Config, s: State, n: Ecu, now: real, ready: bool)
    requires Inv(s, {}) && AllOnTime(s)
    requires forall m :: m in s.pending ==> now < s.pending[m].deadline + POLL_MS
    ensures var t := PollOne(cfg, s, n, now, ready);
            && AllOnTime(t)
            && t.pending.Keys <= s.pending.Keys && (forall m :: m in t.pending ==> t.pending[m] == s.pending[m])
            && (n in t.pending ==> now < t.pending[n].deadline)
  {
    if n in s.pending {
      var p := s.pending[n];
      if p.id in s.answers {
        ResolveOnTime(s, n, s.answers[p.id] == Approve, Driver(p.id, s.answers[p.id]), now, ready);
      } else if now >= p.deadline {
        ResolveOnTime(s, n, cfg.approveOnNoVerdict, NoAnswer, now, ready);
      }
    }
  }

  lemma {:induction false} PollEachOnTime(cfg: Config, s: State, names: seq<Ecu>, now: real, ready: bool)
    requires Inv(s, {}) && AllOnTime(s)
    requires forall m :: m in s.pending ==> now < s.pending[m].deadline + POLL_MS
    ensures var t := PollEach(cfg, s, names, now, ready);
            && AllOnTime(t)
            && t.pending.Keys <= s.pending.Keys && (forall m :: m in t.pending ==> t.pending[m] == s.pending[m])
            && (forall n :: n in names && n in t.pending ==> now < t.pending[n].deadline)
  {
    if names != [] {
      var k := |names| - 1;
      PollEachOnTime(cfg, s, names[..k], now, ready);
      PollEachKeeps(cfg, s, names[..k], now, ready);
      PollOneOnTime(cfg, PollEach(cfg, s, names[..k], now, ready), names[k], now, ready);
      assert forall n :: n in names ==> n in names[..k] || n == names[k];
    }
  }

  // ---- Frames ----

  /** What a frame does to the pending map: nothing new but a request made now, with the poll
      timer running. */
  ghost predicate OnlyFresh(s: State, t: State, now: real) {
    && (s.pollTimer ==> t.pollTimer)
    && forall n :: n in t.pending ==> (n in s.pending && t.pending[n] == s.pending[n]) || now < t.pending[n].deadline
  }

  lemma DispatchOnTime(cfg: Config, s: State, flow: Flow, magic: int, slot: int, i: Inputs)
    requires AllOnTime(s)
    ensures var t := Dispatch(cfg, s, flow, magic, slot, i); AllOnTime(t) && OnlyFresh(s, t, i.now)
  {
    if magic == OTA_REQ_MAGIC {
      BeginIsFresh(cfg, s, flow, slot, i);
      var req, t := |s.journal.requests|, BeginApproval(cfg, s, flow, slot, i);
      if t.journal.verdicts == s.journal.verdicts {
        forall k | 0 <= k < |t.journal.verdicts| ensures VerdictOnTime(t.journal.requests, t.journal.verdicts[k]) {
          assert VerdictOnTime(s.journal.requests, s.journal.verdicts[k]);
        }
      } else {
        AddOnTime(s, t, Verdict(req, flow.approveCanId, flow.didApprove, slot, true, FailOpen, i.now));
      }
    }
  }

  /** A request is answered at once or waits from now on. */
  lemma BeginIsFresh(cfg: Config, s: State, flow: Flow, slot: int, i: Inputs)
    ensures var t, req := BeginApproval(cfg, s, flow, slot, i), |s.journal.requests|;
            && OnlyFresh(s, t, i.now)
            && t.journal.requests == s.journal.requests + [Request(flow, slot, i.now)]
            && (t.journal.verdicts == s.journal.verdicts || t.journal.verdicts == s.journal.verdicts +
                  [Verdict(req, flow.approveCanId, flow.didApprove, slot, true, FailOpen, i.now)])
  {
    var req, s0 := |s.journal.requests|, Accept(s, flow, slot, i.now);
    if cfg.requireApproval && i.uiAvailable {
      var s1 := Supersede(s0, flow.name);
      SupersedeIsFresh(s0, flow.name, i.now);
      OfferIsFresh(s1, req, flow, slot, i);
    }
  }

  lemma SupersedeIsFresh(s: State, name: Ecu, now: real)
    ensures var t := Supersede(s, name);
            OnlyFresh(s, t, now) && t.journal.requests == s.journal.requests && t.journal.verdicts == s.journal.verdicts
  {
  }

  lemma OfferIsFresh(s: State, req: nat, flow: Flow, slot: int, i: Inputs)
    ensures var t := MakeOffer(s, req, flow, slot, i);
            && OnlyFresh(s, t, i.now) && t.journal.requests == s.journal.requests
            && (t.journal.verdicts == s.journal.verdicts || t.journal.verdicts == s.journal.verdicts +
                  [Verdict(req, flow.approveCanId, flow.didApprove, slot, true, FailOpen, i.now)])
  {
  }

  // ---- Runs ----

  lemma DispatchedInTime(s: State, t: State, c: Clock, i: Inputs)
    requires SpoolFollows(s.pending, s.offers, s.pollTimer) && InTime(s, c) && AllOnTime(t) && OnlyFresh(s, t, i.now)
    requires c.now <= i.now && (s.pollTimer ==> i.now <= c.lastPoll + POLL_MS)
    ensures InTime(t, Clock(i.now, if !s.pollTimer && t.pollTimer then i.now else c.lastPoll))
  {
  }

  lemma FrameInTime(cfg: Config, s: State, c: Clock, f: CanFrame, i: Inputs)
    requires SpoolFollows(s.pending, s.offers, s.pollTimer) && InTime(s, c) && Timely(s, c, Frame(f, i))
    ensures InTime(Next(cfg, s, Frame(f, i)), Tick(cfg, s, c, Frame(f, i)))
  {
    if !Ignored(f) {
      var flow := FlowOf(f.canId).value;
      var t := Dispatch(cfg, s, flow, f.magic, f.slot.value, i);
      DispatchOnTime(cfg, s, flow, f.magic, f.slot.value, i);
      DispatchedInTime(s, t, c, i);
      LockLeavesRest(t, i.ready);
      assert UpdateLockState(t, i.ready) == Next(cfg, s, Frame(f, i));
    }
  }

  lemma PollInTime(cfg: Config, s: State, c: Clock, names: seq<Ecu>, now: real, ready: bool)
    requires Inv(s, {}) && InTime(s, c) && Timely(s, c, PollTick(names, now, ready))
    ensures InTime(Next(cfg, s, PollTick(names, now, ready)), Tick(cfg, s, c, PollTick(names, now, ready)))
  {
    if s.pollTimer && Lists(s, names) {
      PollEachOnTime(cfg, s, names, now, ready);
      var t := PollEach(cfg, s, names, now, ready);
      assert PollCovers(t.pending, now);
      var u := Poll(cfg, s, names, now, ready);
      assert u.journal == t.journal && u.pending == t.pending;
    }
  }

  /** The other events send no verdict and start no wait. */
  lemma OthersAreQuiet(cfg: Config, s: State, e: Event)
    requires !e.Frame? && !e.PollTick?
    ensures var t := Next(cfg, s, e);
            && t.journal.verdicts == s.journal.verdicts && t.journal.requests == s.journal.requests
            && t.pollTimer == s.pollTimer && t.pending == if e.Stop? then map[] else s.pending
  {
    match e {
      case Drained(ready) => LockLeavesRest(s, ready);
      case TimeoutTick(now, ready) => LockLeavesRest(s.(active := s.active - Expired(cfg, s, now)), ready);
      case SelfStarted(now, ready) => LockLeavesRest(Begun(s, now), ready);
      case SelfFinished(ready) => LockLeavesRest(s.(active := s.active - {Jetson}), ready);
      case Done(success) =>
      case DriverAnswers(id, word) =>
      case Stop =>
    }
  }

  lemma NextInTime(cfg: Config, s: State, c: Clock, e: Event)
    requires Inv(s, {}) && InTime(s, c) && Timely(s, c, e)
    ensures InTime(Next(cfg, s, e), Tick(cfg, s, c, e))
  {
    match e {
      case Frame(f, i) => FrameInTime(cfg, s, c, f, i);
      case PollTick(names, now, ready) => PollInTime(cfg, s, c, names, now, ready);
      case _ =>
        OthersAreQuiet(cfg, s, e);
        QuietInTime(cfg, s, c, e, Next(cfg, s, e));
    }
  }

  lemma QuietInTime(cfg: Config, s: State, c: Clock, e: Event, t: State)
    requires InTime(s, c) && Timely(s, c, e) && !e.PollTick? && t == Next(cfg, s, e) && t.pollTimer == s.pollTimer
    requires t.journal.verdicts == s.journal.verdicts && t.journal.requests == s.journal.requests
    requires t.pending == map[] || t.pending == s.pending
    ensures InTime(t, Tick(cfg, s, c, e))
  {
    var d := Tick(cfg, s, c, e);
    assert d == Clock(TimeOf(e, c), c.lastPoll);
    assert AllOnTime(t);
    assert PollCovers(t.pending, c.lastPoll);
  }

  lemma {:induction false} RunInTime(cfg: Config, offers: set<OfferId>, answers: map<OfferId, Word>, es: seq<Event>,
                                     start: real)
    requires AllTimely(cfg, Start(offers, answers), es, start)
    ensures InTime(Run(cfg, Start(offers, answers), es), ClockAfter(cfg, Start(offers, answers), es, start))
  {
    if es != [] {
      var n, s0 := |es| - 1, Start(offers, answers);
      forall k | 0 <= k < n
        ensures Timely(Run(cfg, s0, es[..n][..k]), ClockAfter(cfg, s0, es[..n][..k], start), es[..n][k])
      {
        assert es[..n][..k] == es[..k];
      }
      RunInTime(cfg, offers, answers, es[..n], start);
      RunKeepsInv(cfg, offers, answers, es[..n]);
      assert Timely(Run(cfg, s0, es[..n]), ClockAfter(cfg, s0, es[..n], start), es[n]);
      NextInTime(cfg, Run(cfg, s0, es[..n]), ClockAfter(cfg, s0, es[..n], start), es[n]);
    }
  }

  /** Every verdict goes out less than 30.1 s after a request of the cluster and 9.6 s after one of the ESP32,
      nothing stays pending longer than that, and for both that is before they stop waiting. */
  lemma VerdictsBeatThePeer(cfg: Config, offers: set<OfferId>, answers: map<OfferId, Word>, es: seq<Event>, start: real)
    requires AllTimely(cfg, Start(offers, answers), es, start)
    ensures var s, c := Run(cfg, Start(offers, answers), es), ClockAfter(cfg, Start(offers, answers), es, start);
            var j := s.journal;
            && (forall k :: 0 <= k < |j.verdicts| ==>
                  && j.verdicts[k].req < |j.requests|
                  && var q := j.requests[j.verdicts[k].req];
                     && (q.flow.name == Cluster ==> j.verdicts[k].at - q.at < 30100.0)
                     && (q.flow.name != Cluster ==> j.verdicts[k].at - q.at < 9600.0))
            && (forall n :: n in s.pending ==>
                  c.now - s.pending[n].t0 < if n == Cluster then 30100.0 else 9600.0)
            && 30100.0 < BudgetOf(Cluster).peerWaitMs == 60000.0 && 9600.0 < BudgetOf(Esp32).peerWaitMs == 10000.0
  {
    RunInTime(cfg, offers, answers, es, start);
    RunKeepsInv(cfg, offers, answers, es);
    var s := Run(cfg, Start(offers, answers), es);
    forall k | 0 <= k < |s.journal.verdicts|
      ensures VerdictOnTime(s.journal.requests, s.journal.verdicts[k]) {}
    forall n | n in s.pending ensures PendingCarries(s.journal.requests, s.journal.offered, n, s.pending[n]) {}
  }
}
