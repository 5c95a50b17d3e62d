/** How each verdict came about: at once because nobody could be asked, from the driver's answer, or after
    the deadline as configured. */
module VerdictRuns {
  import opened Coordinator
  import opened CoordinatorRuns
  import ApprovalRuns

  /** A verdict without the driver is an approval sent with the request, or the configured default sent no
      earlier than the deadline, and then only with approval required. */
  predicate Fair(cfg: Config, qs: seq<Request>, v: Verdict) {
    && v.req < |qs|
    && (v.basis.FailOpen? ==> v.approved && v.at == qs[v.req].at)
    && (v.basis.NoAnswer? ==> cfg.requireApproval && v.approved == cfg.approveOnNoVerdict
                              && v.at >= qs[v.req].at + BudgetOf(qs[v.req].flow.name).deadlineMs)
    && (v.basis.Driver? ==> cfg.requireApproval)
  }

  ghost predicate AllFair(cfg: Config, j: Journal) {
    forall k :: 0 <= k < |j.verdicts| ==> Fair(cfg, j.requests, j.verdicts[k])
  }

  /** Somebody waits only when approval is required. */
  ghost predicate Inv(cfg: Config, s: State) {
    AllFair(cfg, s.journal) && (s.pending != map[] ==> cfg.requireApproval)
  }

  lemma FairStays(cfg: Config, j: Journal, j': Journal)
    requires AllFair(cfg, j) && j.requests <= j'.requests && j'.verdicts == j.verdicts
    ensures AllFair(cfg, j')
  {
    forall k | 0 <= k < |j.verdicts| ensures Fair(cfg, j'.requests, j.verdicts[k]) {
      assert Fair(cfg, j.requests, j.verdicts[k]);
    }
  }

  lemma FairAdded(cfg: Config, j: Journal, j': Journal, v: Verdict)
    requires AllFair(cfg, j) && j'.requests == j.requests && j'.verdicts == j.verdicts + [v] && Fair(cfg, j.requests, v)
    ensures AllFair(cfg, j')
  {
    forall k | 0 <= k < |j'.verdicts| ensures Fair(cfg, j'.requests, j'.verdicts[k]) {
      assert k < |j.verdicts| ==> j'.verdicts[k] == j.verdicts[k] && Fair(cfg, j.requests, j.verdicts[k]);
    }
  }

  lemma UnaskedFair(cfg: Config, s: State, req: nat, flow: Flow, slot: int, now: real)
    requires Inv(cfg, s) && req < |s.journal.requests| && s.journal.requests[req].at == now
    ensures Inv(cfg, ApproveUnasked(s, req, flow, slot, now))
  {
    FairAdded(cfg, s.journal, ApproveUnasked(s, req, flow, slot, now).journal,
              Verdict(req, flow.approveCanId, flow.didApprove, slot, true, FailOpen, now));
  }

  lemma OfferFair(cfg: Config, s: State, req: nat, flow: Flow, slot: int, i: Inputs)
    requires Inv(cfg, s) && cfg.requireApproval && req < |s.journal.requests| && s.journal.requests[req].at == i.now
    ensures Inv(cfg, MakeOffer(s, req, flow, slot, i))
  {
    if i.offerWritten {
      FairStays(cfg, s.journal, MakeOffer(s, req, flow, slot, i).journal);
    } else {
      UnaskedFair(cfg, s.(offerSeq := s.offerSeq + 1), req, flow, slot, i.now);
    }
  }

  lemma BeginFair(cfg: Config, s: State, flow: Flow, slot: int, i: Inputs)
    requires Inv(cfg, s)
    ensures Inv(cfg, BeginApproval(cfg, s, flow, slot, i))
  {
    var req, s0 := |s.journal.requests|, Accept(s, flow, slot, i.now);
    FairStays(cfg, s.journal, s0.journal);
    if cfg.requireApproval && i.uiAvailable {
      var s1 := Supersede(s0, flow.name);
      FairStays(cfg, s0.journal, s1.journal);
      OfferFair(cfg, s1, req, flow, slot, i);
    } else {
      UnaskedFair(cfg, s0, req, flow, slot, i.now);
    }
  }

  lemma ResolveFair(cfg: Config, s: State, name: Ecu, approved: bool, basis: Basis, now: real, ready: bool)
    requires Inv(cfg, s) && ApprovalRuns.Inv(s, {}) && name in s.pending && !basis.FailOpen?
    requires basis.NoAnswer? ==> approved == cfg.approveOnNoVerdict && now >= s.pending[name].deadline
    ensures Inv(cfg, Resolve(s, name, approved, basis, now, ready))
  {
    var p, t := s.pending[name], Resolve(s, name, approved, basis, now, ready);
    assert ApprovalRuns.PendingCarries(s.journal.requests, s.journal.offered, name, p);
    FairAdded(cfg, s.journal, t.journal,
              Verdict(p.req, p.flow.approveCanId, p.flow.didApprove, p.slot, approved, basis, now));
  }

  lemma PollOneFair(cfg: Config, s: State, n: Ecu, now: real, ready: bool)
    requires Inv(cfg, s) && ApprovalRuns.Inv(s, {})
    ensures Inv(cfg, PollOne(cfg, s, n, now, ready))
  {
    if n in s.pending {
      var p := s.pending[n];
      if p.id in s.answers {
        ResolveFair(cfg, s, n, s.answers[p.id] == Approve, Driver(p.id, s.answers[p.id]), now, ready);
      } else if now >= p.deadline {
        ResolveFair(cfg, s, n, cfg.approveOnNoVerdict, NoAnswer, now, ready);
      }
    }
  }

  lemma {:induction false} PollEachFair(cfg: Config, s: State, names: seq<Ecu>, now: real, ready: bool)
    requires Inv(cfg, s) && ApprovalRuns.Inv(s, {})
    ensures Inv(cfg, PollEach(cfg, s, names, now, ready))
  {
    if names != [] {
      var k := |names| - 1;
      PollEachFair(cfg, s, names[..k], now, ready);
      ApprovalRuns.PollEachKeeps(cfg, s, names[..k], now, ready);
      PollOneFair(cfg, PollEach(cfg, s, names[..k], now, ready), names[k], now, ready);
    }
  }

  lemma FrameFair(cfg: Config, s: State, f: CanFrame, i: Inputs)
    requires Inv(cfg, s)
    ensures Inv(cfg, HandleFrame(cfg, s, f, i))
  {
    if !Ignored(f) {
      var flow := FlowOf(f.canId).value;
      if f.magic == OTA_REQ_MAGIC {
        BeginFair(cfg, s, flow, f.slot.value, i);
      }
      LockLeavesRest(Dispatch(cfg, s, flow, f.magic, f.slot.value, i), i.ready);
    }
  }

  lemma NextFair(cfg: Config, s: State, e: Event)
    requires Inv(cfg, s) && ApprovalRuns.Inv(s, {})
    ensures Inv(cfg, Next(cfg, s, e))
  {
    match e {
      case Frame(f, i) => FrameFair(cfg, s, f, i);
      case PollTick(names, now, ready) => PollEachFair(cfg, s, names, now, ready);
      case TimeoutTick(now, ready) => LockLeavesRest(s.(active := s.active - Expired(cfg, s, now)), ready);
      case SelfStarted(now, ready) => LockLeavesRest(Begun(s, now), ready);
      case SelfFinished(ready) => LockLeavesRest(s.(active := s.active - {Jetson}), ready);
      case Drained(ready) => LockLeavesRest(s, ready);
      case Done(success) =>
      case DriverAnswers(id, word) =>
      case Stop => FairStays(cfg, s.journal, Shutdown(s).journal);
    }
  }

  /** In every run every verdict is fair; so with silence configured to deny, nobody is approved for want of
      an answer once the question was put. */
  lemma {:induction false} EveryVerdictIsFair(cfg: Config, offers: set<OfferId>, answers: map<OfferId, Word>,
                                              es: seq<Event>)
    ensures Inv(cfg, Run(cfg, Start(offers, answers), es))
  {
    if es != [] {
      var n := |es| - 1;
      EveryVerdictIsFair(cfg, offers, answers, es[..n]);
      ApprovalRuns.RunKeepsInv(cfg, offers, answers, es[..n]);
      NextFair(cfg, Run(cfg, Start(offers, answers), es[..n]), es[n]);
    }
  }

  /** In every run, with one request of a requester pending, the next one leaves it pending, card and all, if and
      only if no head unit is up then. */
  lemma OlderOfferOutlivesIff(cfg: Config, offers: set<OfferId>, answers: map<OfferId, Word>, es: seq<Event>,
                              flow: Flow, slot: int, i: Inputs)
    requires ApprovalRuns.Genuine(flow) && flow.name in Run(cfg, Start(offers, answers), es).pending
    ensures var s := Run(cfg, Start(offers, answers), es);
            var t, earlier := BeginApproval(cfg, s, flow, slot, i), s.pending[flow.name];
            && (flow.name in t.pending && t.pending[flow.name] == earlier <==> !i.uiAvailable)
            && (earlier.id in t.offers <==> !i.uiAvailable)
  {
    EveryVerdictIsFair(cfg, offers, answers, es);
    ApprovalRuns.RunKeepsInv(cfg, offers, answers, es);
    ApprovalRuns.OlderOfferSurvivesIff(cfg, Run(cfg, Start(offers, answers), es), flow, slot, i);
  }
}
