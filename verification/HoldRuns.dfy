/** Whom the vehicle is held for, and in what order: an update is active only by its own approval, already
    sent, or as the computer's own self-update; and a call is made for exactly those then active. */
module HoldRuns {
  import opened Coordinator
  import opened CoordinatorRuns
  import ApprovalRuns

  /** Act a makes n active at time t: the verdict that approves it, or the start of a self-update. */
  predicate Starts(a: Act, qs: seq<Request>, n: Ecu, t: real) {
    match a
    case Said(v) => v.approved && v.at == t && v.req < |qs| && qs[v.req].flow.name == n
    case Began(at) => n == Jetson && at == t
    case Called(_, _) => false
  }

  ghost predicate StartedIn(log: seq<Act>, qs: seq<Request>, n: Ecu, t: real) {
    exists j: nat :: j < |log| && Starts(log[j], qs, n, t)
  }

  /** Everyone active was started by an act of the log. */
  ghost predicate Justified(log: seq<Act>, qs: seq<Request>, active: map<Ecu, real>) {
    forall n :: n in active ==> StartedIn(log, qs, n, active[n])
  }

  /** If act k is a call, it asks for the lock exactly if someone was active, each started by an earlier act. */
  ghost predicate CallFits(log: seq<Act>, qs: seq<Request>, k: nat)
    requires k < |log|
  {
    log[k].Called? ==>
      && (log[k].call == Lock <==> log[k].holders != map[])
      && Justified(log[..k], qs, log[k].holders)
  }

  function VerdictsIn(log: seq<Act>): seq<Verdict> {
    if log == [] then []
    else VerdictsIn(log[..|log| - 1]) + if log[|log| - 1].Said? then [log[|log| - 1].verdict] else []
  }

  function CallsIn(log: seq<Act>): seq<Label> {
    if log == [] then []
    else CallsIn(log[..|log| - 1]) + if log[|log| - 1].Called? then [log[|log| - 1].call] else []
  }

  /** The log is the verdicts and the calls, merged. */
  ghost predicate Merges(log: seq<Act>, verdicts: seq<Verdict>, calls: seq<Label>) {
    VerdictsIn(log) == verdicts && CallsIn(log) == calls
  }

  ghost predicate Inv(s: State) {
    && Justified(s.log, s.journal.requests, s.active)
    && (forall k: nat :: k < |s.log| ==> CallFits(s.log, s.journal.requests, k))
    && Merges(s.log, s.journal.verdicts, s.calls)
  }

  // ---- Moves ----

  lemma JustifiedStays(log: seq<Act>, qs: seq<Request>, active: map<Ecu, real>,
                       log': seq<Act>, qs': seq<Request>, active': map<Ecu, real>)
    requires Justified(log, qs, active) && log <= log' && qs <= qs'
    requires forall n :: n in active' ==> n in active && active'[n] == active[n]
    ensures Justified(log', qs', active')
  {
    forall n | n in active' ensures StartedIn(log', qs', n, active'[n]) {
      var j: nat :| j < |log| && Starts(log[j], qs, n, active[n]);
      assert log'[j] == log[j] && Starts(log'[j], qs', n, active'[n]);
    }
  }

  lemma CallsStayFit(log: seq<Act>, qs: seq<Request>, more: seq<Act>, qs': seq<Request>)
    requires forall k: nat :: k < |log| ==> CallFits(log, qs, k)
    requires qs <= qs'
    ensures forall k: nat :: k < |log| ==> CallFits(log + more, qs', k)
  {
    forall k: nat | k < |log| ensures CallFits(log + more, qs', k) {
      assert CallFits(log, qs, k) && (log + more)[..k] == log[..k];
      if log[k].Called? {
        JustifiedStays(log[..k], qs, log[k].holders, log[..k], qs', log[k].holders);
      }
    }
  }

  lemma MergesOneMore(log: seq<Act>, verdicts: seq<Verdict>, calls: seq<Label>, a: Act)
    requires Merges(log, verdicts, calls)
    ensures Merges(log + [a], if a.Said? then verdicts + [a.verdict] else verdicts,
                   if a.Called? then calls + [a.call] else calls)
  {
    assert (log + [a])[..|log|] == log;
  }

  /** Updates may end, and requests come in, without an act. */
  lemma QuietKeeps(s: State, t: State)
    requires Inv(s) && t.log == s.log && t.calls == s.calls
    requires t.journal.verdicts == s.journal.verdicts && s.journal.requests <= t.journal.requests
    requires forall n :: n in t.active ==> n in s.active && t.active[n] == s.active[n]
    ensures Inv(t)
  {
    JustifiedStays(s.log, s.journal.requests, s.active, t.log, t.journal.requests, t.active);
    CallsStayFit(s.log, s.journal.requests, [], t.journal.requests);
    assert s.log + [] == t.log;
  }

  /** An update may start with the act that starts it. */
  lemma ActKeeps(s: State, t: State, a: Act)
    requires Inv(s) && !a.Called? && t.log == s.log + [a] && t.calls == s.calls
    requires t.journal.requests == s.journal.requests
    requires t.journal.verdicts == if a.Said? then s.journal.verdicts + [a.verdict] else s.journal.verdicts
    requires forall n :: n in t.active ==>
               (n in s.active && t.active[n] == s.active[n]) || Starts(a, t.journal.requests, n, t.active[n])
    ensures Inv(t)
  {
    var qs := t.journal.requests;
    JustifiedStays(s.log, qs, s.active, t.log, qs, s.active);
    forall n | n in t.active ensures StartedIn(t.log, qs, n, t.active[n]) {
      if !(n in s.active && t.active[n] == s.active[n]) {
        assert t.log[|s.log|] == a;
      }
    }
    CallsStayFit(s.log, qs, [a], qs);
    MergesOneMore(s.log, s.journal.verdicts, s.calls, a);
  }

  /** Re-checking the lock calls for exactly those active. */
  lemma LockKeeps(s: State, ready: bool)
    requires Inv(s)
    ensures Inv(UpdateLockState(s, ready))
  {
    var t := UpdateLockState(s, ready);
    if t.log != s.log {
      var a := Called(if s.active != map[] then Lock else Unlock, s.active);
      assert t.log == s.log + [a];
      JustifiedStays(s.log, s.journal.requests, s.active, t.log, s.journal.requests, s.active);
      CallsStayFit(s.log, s.journal.requests, [a], s.journal.requests);
      assert t.log[..|s.log|] == s.log && CallFits(t.log, s.journal.requests, |s.log|);
      MergesOneMore(s.log, s.journal.verdicts, s.calls, a);
    }
  }

  // ---- The handlers ----

  lemma ResolveHolds(s: State, name: Ecu, approved: bool, basis: Basis, now: real, ready: bool)
    requires Inv(s) && ApprovalRuns.Inv(s, {}) && name in s.pending
    ensures Inv(Resolve(s, name, approved, basis, now, ready))
  {
    var p := s.pending[name];
    assert ApprovalRuns.PendingCarries(s.journal.requests, s.journal.offered, name, p);
    var v := Verdict(p.req, p.flow.approveCanId, p.flow.didApprove, p.slot, approved, basis, now);
    var s2 := SendVerdict(Removed(s, name), p.req, p.flow, p.slot, approved, basis, now);
    var s3 := if approved then s2.(active := s2.active[name := now]) else s2;
    ActKeeps(s, s3, Said(v));
    LockKeeps(s3, ready);
  }

  lemma PollOneHolds(cfg: Config, s: State, n: Ecu, now: real, ready: bool)
    requires Inv(s) && ApprovalRuns.Inv(s, {})
    ensures Inv(PollOne(cfg, s, n, now, ready))
  {
    if n in s.pending {
      var p := s.pending[n];
      if p.id in s.answers {
        ResolveHolds(s, n, s.answers[p.id] == Approve, Driver(p.id, s.answers[p.id]), now, ready);
      } else if now >= p.deadline {
        ResolveHolds(s, n, cfg.approveOnNoVerdict, NoAnswer, now, ready);
      }
    }
  }

  lemma {:induction false} PollEachHolds(cfg: Config, s: State, names: seq<Ecu>, now: real, ready: bool)
    requires Inv(s) && ApprovalRuns.Inv(s, {})
    ensures Inv(PollEach(cfg, s, names, now, ready))
  {
    if names != [] {
      var k := |names| - 1;
      PollEachHolds(cfg, s, names[..k], now, ready);
      ApprovalRuns.PollEachKeeps(cfg, s, names[..k], now, ready);
      PollOneHolds(cfg, PollEach(cfg, s, names[..k], now, ready), names[k], now, ready);
    }
  }

  lemma UnaskedHolds(s: State, req: nat, flow: Flow, slot: int, now: real)
    requires Inv(s) && req < |s.journal.requests| && s.journal.requests[req].flow == flow
    ensures Inv(ApproveUnasked(s, req, flow, slot, now))
  {
    var v := Verdict(req, flow.approveCanId, flow.didApprove, slot, true, FailOpen, now);
    ActKeeps(s, ApproveUnasked(s, req, flow, slot, now), Said(v));
  }

  lemma OfferHolds(s: State, req: nat, flow: Flow, slot: int, i: Inputs)
    requires Inv(s) && req < |s.journal.requests| && s.journal.requests[req].flow == flow
    ensures Inv(MakeOffer(s, req, flow, slot, i))
  {
    if i.offerWritten {
      QuietKeeps(s, MakeOffer(s, req, flow, slot, i));
    } else {
      QuietKeeps(s, s.(offerSeq := s.offerSeq + 1));
      UnaskedHolds(s.(offerSeq := s.offerSeq + 1), req, flow, slot, i.now);
    }
  }

  /** A request either only adds to the journal, or is approved at once for its own requester. */
  lemma BeginHolds(cfg: Config, s: State, flow: Flow, slot: int, i: Inputs)
    requires Inv(s)
    ensures Inv(BeginApproval(cfg, s, flow, slot, i))
  {
    var req, s0 := |s.journal.requests|, Accept(s, flow, slot, i.now);
    QuietKeeps(s, s0);
    if cfg.requireApproval && i.uiAvailable {
      QuietKeeps(s0, Supersede(s0, flow.name));
      OfferHolds(Supersede(s0, flow.name), req, flow, slot, i);
    } else {
      UnaskedHolds(s0, req, flow, slot, i.now);
    }
  }

  lemma FrameHolds(cfg: Config, s: State, f: CanFrame, i: Inputs)
    requires Inv(s)
    ensures Inv(HandleFrame(cfg, s, f, i))
  {
    if !Ignored(f) {
      var flow := FlowOf(f.canId).value;
      if f.magic == OTA_REQ_MAGIC {
        BeginHolds(cfg, s, flow, f.slot.value, i);
      } else {
        QuietKeeps(s, s.(active := s.active - {flow.name}));
      }
      LockKeeps(Dispatch(cfg, s, flow, f.magic, f.slot.value, i), i.ready);
    }
  }

  lemma NextHolds(cfg: Config, s: State, e: Event)
    requires Inv(s) && ApprovalRuns.Inv(s, {})
    ensures Inv(Next(cfg, s, e))
  {
    match e {
      case Frame(f, i) => FrameHolds(cfg, s, f, i);
      case PollTick(names, now, ready) => PollEachHolds(cfg, s, names, now, ready);
      case TimeoutTick(now, ready) =>
        var t := s.(active := s.active - Expired(cfg, s, now));
        QuietKeeps(s, t);
        LockKeeps(t, ready);
      case SelfStarted(now, ready) =>
        ActKeeps(s, Begun(s, now), Began(now));
        LockKeeps(Begun(s, now), ready);
      case SelfFinished(ready) =>
        var t := s.(active := s.active - {Jetson});
        QuietKeeps(s, t);
        LockKeeps(t, ready);
      case Drained(ready) => LockKeeps(s, ready);
      case Done(success) =>
      case DriverAnswers(id, word) =>
      case Stop => QuietKeeps(s, Shutdown(s));
    }
  }

  lemma {:induction false} RunKeepsInv(cfg: Config, offers: set<OfferId>, answers: map<OfferId, Word>, es: seq<Event>)
    ensures Inv(Run(cfg, Start(offers, answers), es))
  {
    if es != [] {
      var n := |es| - 1;
      RunKeepsInv(cfg, offers, answers, es[..n]);
      ApprovalRuns.RunKeepsInv(cfg, offers, answers, es[..n]);
      NextHolds(cfg, Run(cfg, Start(offers, answers), es[..n]), es[n]);
    }
  }

  /** In every run, whoever has an active update was started by an act already in the log: an approval sent at
      the very time the update became active, or the computer's own start. A denied or unanswered request
      never holds the vehicle. */
  lemma OnlyApprovedHold(cfg: Config, offers: set<OfferId>, answers: map<OfferId, Word>, es: seq<Event>)
    ensures var s := Run(cfg, Start(offers, answers), es);
            forall n :: n in s.active ==> StartedIn(s.log, s.journal.requests, n, s.active[n])
  {
    RunKeepsInv(cfg, offers, answers, es);
  }

  /** In every run, before each lock call in the log stands the approving verdict of an update active at the
      call, or the start of a self-update active at the call: nothing is locked first and approved afterwards. */
  lemma LockNeedsApproval(cfg: Config, offers: set<OfferId>, answers: map<OfferId, Word>, es: seq<Event>, k: nat)
    returns (n: Ecu, j: nat)
    requires var log := Run(cfg, Start(offers, answers), es).log;
             k < |log| && log[k].Called? && log[k].call == Lock
    ensures var s := Run(cfg, Start(offers, answers), es);
            && n in s.log[k].holders && j < k && Starts(s.log[j], s.journal.requests, n, s.log[k].holders[n])
            && (s.log[j].Said? || (n == Jetson && s.log[j] == Began(s.log[k].holders[Jetson])))
  {
    RunKeepsInv(cfg, offers, answers, es);
    var s := Run(cfg, Start(offers, answers), es);
    n, j := HolderBefore(s.log, s.journal.requests, k);
  }

  lemma HolderBefore(log: seq<Act>, qs: seq<Request>, k: nat) returns (n: Ecu, j: nat)
    requires k < |log| && log[k].Called? && log[k].call == Lock && CallFits(log, qs, k)
    ensures n in log[k].holders && j < k && Starts(log[j], qs, n, log[k].holders[n])
  {
    n :| n in log[k].holders;
    assert StartedIn(log[..k], qs, n, log[k].holders[n]);
    j :| j < k && Starts(log[..k][j], qs, n, log[k].holders[n]);
  }

  /** In every run, every call asks for the lock exactly if, at that moment, some update is active. */
  lemma EveryCallFits(cfg: Config, offers: set<OfferId>, answers: map<OfferId, Word>, es: seq<Event>)
    ensures var s := Run(cfg, Start(offers, answers), es);
            && VerdictsIn(s.log) == s.journal.verdicts && CallsIn(s.log) == s.calls
            && forall k: nat :: k < |s.log| && s.log[k].Called? ==>
                 (s.log[k].call == Lock <==> s.log[k].holders != map[])
  {
    RunKeepsInv(cfg, offers, answers, es);
    var s := Run(cfg, Start(offers, answers), es);
    forall k: nat | k < |s.log| && s.log[k].Called? ensures s.log[k].call == Lock <==> s.log[k].holders != map[] {
      assert CallFits(s.log, s.journal.requests, k);
    }
  }
}
