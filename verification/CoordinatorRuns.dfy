/** Runs of the coordinator: any interleaving of its callbacks with a head unit that may write any
    answer at any time. A crash ends a run; the next one starts over the spool it left. */
module CoordinatorRuns {
  import opened Coordinator

  datatype Event =
    | Frame(frame: CanFrame, inputs: Inputs)
    | Drained(ready: bool)
    | Done(success: bool)
    | PollTick(names: seq<Ecu>, now: real, ready: bool)
    | TimeoutTick(now: real, ready: bool)
    | SelfStarted(now: real, ready: bool)
    | SelfFinished(ready: bool)
    | DriverAnswers(id: OfferId, word: Word)
    | Stop

  /** The names a poll walks over are the keys of the pending dictionary. */
  ghost predicate Lists(s: State, names: seq<Ecu>) { forall n :: n in s.pending <==> n in names }

  /** A timer's callback runs only while the timer exists, and a call completes only if one is in
      flight; an event that cannot happen changes nothing. */
  ghost function Next(cfg: Config, s: State, e: Event): State {
    match e
    case Frame(f, i) => HandleFrame(cfg, s, f, i)
    case Drained(ready) => UpdateLockState(s, ready)
    case Done(success) => if s.lockPending && s.calls != [] then ServiceDone(s, s.calls[|s.calls| - 1], success) else s
    case PollTick(names, now, ready) => if s.pollTimer && Lists(s, names) then Poll(cfg, s, names, now, ready) else s
    case TimeoutTick(now, ready) => if s.timeoutTimer then TimeoutCheck(cfg, s, now, ready) else s
    case SelfStarted(now, ready) => SelfStart(s, now, ready)
    case SelfFinished(ready) => SelfDone(s, ready)
    case DriverAnswers(id, word) => s.(answers := s.answers[id := word])
    case Stop => Shutdown(s)
  }

  /** A run over an arbitrary leftover spool. */
  ghost function Run(cfg: Config, s0: State, es: seq<Event>): State {
    if es == [] then s0 else Next(cfg, Run(cfg, s0, es[..|es| - 1]), es[|es| - 1])
  }
}

/** What becomes of the accepted requests, and how the spool follows the pending map. */
module ApprovalRuns {
  import opened Coordinator
  import opened CoordinatorRuns

  ghost function Answered(vs: seq<Verdict>): set<nat> { set k | 0 <= k < |vs| :: vs[k].req }

  ghost function Waiting(pending: map<Ecu, Pending>): set<nat> { Reqs(pending, pending.Keys) }

  /** The request numbers below n fall into five disjoint groups. */
  ghost predicate Partition(n: nat, answered: set<nat>, waiting: set<nat>, superseded: set<nat>, withdrawn: set<nat>,
                            open: set<nat>)
  {
    && (forall r: nat :: r < n <==> r in answered || r in waiting || r in superseded || r in withdrawn || r in open)
    && answered !! waiting !! superseded !! withdrawn !! open
  }

  ghost predicate AnsweredOnce(vs: seq<Verdict>) {
    forall k, l :: 0 <= k < l < |vs| ==> vs[k].req != vs[l].req
  }

  ghost predicate PendingApart(pending: map<Ecu, Pending>) {
    forall m, n :: m in pending && n in pending && m != n ==> pending[m].req != pending[n].req
  }

  ghost predicate Genuine(flow: Flow) {
    flow == FlowOf(CAN_ID_OTA_REQ).value || flow == FlowOf(CAN_ID_ECU_OTA_REQ).value
  }

  ghost predicate PendingCarries(qs: seq<Request>, offered: map<nat, OfferId>, n: Ecu, p: Pending) {
    && p.flow.name == n && p.req < |qs| && qs[p.req] == Request(p.flow, p.slot, p.t0) && Genuine(p.flow)
    && p.deadline == p.t0 + BudgetOf(n).deadlineMs
    && p.req in offered && offered[p.req] == p.id
  }

  /** A verdict carries its own request's slot, identifier and CAN id, and when the driver gave it, it
      is the answer to the offer made for that very request. */
  ghost predicate VerdictCarries(qs: seq<Request>, offered: map<nat, OfferId>, v: Verdict) {
    && v.req < |qs| && Genuine(qs[v.req].flow)
    && v.slot == qs[v.req].slot && v.canId == qs[v.req].flow.approveCanId && v.did == qs[v.req].flow.didApprove
    && (v.basis.Driver? ==>
          v.req in offered && offered[v.req] == v.basis.id && (v.approved <==> v.basis.word == Approve))
  }

  ghost predicate AllCarry(qs: seq<Request>, offered: map<nat, OfferId>, pending: map<Ecu, Pending>, vs: seq<Verdict>) {
    && (forall n :: n in pending ==> PendingCarries(qs, offered, n, pending[n]))
    && (forall k :: 0 <= k < |vs| ==> VerdictCarries(qs, offered, vs[k]))
  }

  /** Offer names never recur within a run: later requests carry higher numbers. */
  ghost predicate NamesFresh(n: nat, offered: map<nat, OfferId>, seqNo: nat) {
    && (forall r :: r in offered ==> r < n && 1 <= offered[r].number <= seqNo)
    && (forall q, r :: q in offered && r in offered && q < r ==> offered[q].number < offered[r].number)
  }

  /** The spool holds exactly the offers of the pending requests, and something pending keeps the
      poll timer alive. */
  ghost predicate SpoolFollows(pending: map<Ecu, Pending>, offers: set<OfferId>, pollTimer: bool) {
    && offers == Ids(pending, pending.Keys)
    && (pending != map[] ==> pollTimer)
  }

  ghost predicate Inv(s: State, open: set<nat>) {
    var j := s.journal;
    && Partition(|j.requests|, Answered(j.verdicts), Waiting(s.pending), j.superseded, j.withdrawn, open)
    && AnsweredOnce(j.verdicts) && PendingApart(s.pending)
    && AllCarry(j.requests, j.offered, s.pending, j.verdicts)
    && NamesFresh(|j.requests|, j.offered, s.offerSeq)
    && SpoolFollows(s.pending, s.offers, s.pollTimer)
  }

  // ---- Moves on the parts ----

  lemma RemovePending(pending: map<Ecu, Pending>, name: Ecu)
    requires name in pending && PendingApart(pending)
    ensures var rest := pending - {name};
            && PendingApart(rest)
            && Waiting(rest) == Waiting(pending) - {pending[name].req} && pending[name].req in Waiting(pending)
  {
    var rest := pending - {name};
    forall r | r in Waiting(pending) && r != pending[name].req ensures r in Waiting(rest) {
      var n :| n in pending && pending[n].req == r;
      assert rest[n].req == r;
    }
  }

  lemma RemoveOffer(pending: map<Ecu, Pending>, name: Ecu)
    requires name in pending && forall n :: n in pending && n != name ==> pending[n].id != pending[name].id
    ensures Ids(pending - {name}, (pending - {name}).Keys) == Ids(pending, pending.Keys) - {pending[name].id}
  {
    var rest := pending - {name};
    forall o | o in Ids(pending, pending.Keys) && o != pending[name].id ensures o in Ids(rest, rest.Keys) {
      var n :| n in pending && pending[n].id == o;
      assert rest[n].id == o;
    }
  }

  lemma AddPending(pending: map<Ecu, Pending>, name: Ecu, p: Pending)
    requires name !in pending && PendingApart(pending) && p.req !in Waiting(pending)
    ensures var more := pending[name := p];
            PendingApart(more) && Waiting(more) == Waiting(pending) + {p.req}
  {
    var more := pending[name := p];
    forall n | n in pending ensures more[n] == pending[n] && pending[n].req in Waiting(pending) {}
    assert more[name] == p;
    forall r | r in Waiting(pending) ensures r in Waiting(more) {
      var n :| n in pending && pending[n].req == r;
      assert more[n].req == r;
    }
  }

  lemma AddOffer(pending: map<Ecu, Pending>, name: Ecu, p: Pending)
    requires name !in pending
    ensures var more := pending[name := p]; Ids(more, more.Keys) == Ids(pending, pending.Keys) + {p.id}
  {
    var more := pending[name := p];
    assert more[name] == p;
    forall o | o in Ids(pending, pending.Keys) ensures o in Ids(more, more.Keys) {
      var n :| n in pending && pending[n].id == o;
      assert more[n].id == o;
    }
  }

  lemma AddVerdict(vs: seq<Verdict>, v: Verdict)
    requires AnsweredOnce(vs) && v.req !in Answered(vs)
    ensures AnsweredOnce(vs + [v]) && Answered(vs + [v]) == Answered(vs) + {v.req}
  {
    var ws := vs + [v];
    forall k | 0 <= k < |vs| ensures ws[k] == vs[k] && vs[k].req in Answered(vs) {}
    assert ws[|vs|] == v;
    forall r | r in Answered(vs) ensures r in Answered(ws) {
      var k :| 0 <= k < |vs| && vs[k].req == r;
      assert ws[k].req == r;
    }
  }

  // ---- Moves on the state ----

  lemma Register(s: State, flow: Flow, slot: int, now: real)
    requires Inv(s, {})
    ensures Inv(Accept(s, flow, slot, now), {|s.journal.requests|})
  {
    var qs, qs' := s.journal.requests, s.journal.requests + [Request(flow, slot, now)];
    assert forall k :: 0 <= k < |qs| ==> qs'[k] == qs[k];
    assert AllCarry(qs', s.journal.offered, s.pending, s.journal.verdicts);
  }

  /** Different pending requests have different offers. */
  lemma OffersApart(s: State, open: set<nat>, name: Ecu)
    requires Inv(s, open) && name in s.pending
    ensures forall n :: n in s.pending && n != name ==> s.pending[n].id != s.pending[name].id
  {
    forall n | n in s.pending && n != name ensures s.pending[n].id != s.pending[name].id {
      var p, q := s.pending[n], s.pending[name];
      assert PendingCarries(s.journal.requests, s.journal.offered, n, p);
      assert PendingCarries(s.journal.requests, s.journal.offered, name, q);
      assert p.req != q.req;
    }
  }

  /** Takes a pending request out together with its offer, leaving it open. */
  lemma TakeOut(s: State, name: Ecu, open: set<nat>)
    requires Inv(s, open) && name in s.pending
    ensures s.pending[name].req !in open && Inv(Removed(s, name), open + {s.pending[name].req})
    ensures PendingCarries(s.journal.requests, s.journal.offered, name, s.pending[name])
  {
    RemovePending(s.pending, name);
    OffersApart(s, open, name);
    RemoveOffer(s.pending, name);
    var rest := s.pending - {name};
    assert forall n :: n in rest ==> rest[n] == s.pending[n];
  }

  lemma AnswerOpen(s: State, v: Verdict)
    requires Inv(s, {v.req}) && VerdictCarries(s.journal.requests, s.journal.offered, v)
    ensures Inv(s.(journal := s.journal.(verdicts := s.journal.verdicts + [v])), {})
  {
    AddVerdict(s.journal.verdicts, v);
    var ws := s.journal.verdicts + [v];
    assert forall k :: 0 <= k < |ws| ==> ws[k] == if k < |s.journal.verdicts| then s.journal.verdicts[k] else v;
  }

  lemma SupersedeKeeps(s: State, name: Ecu, open: set<nat>)
    requires Inv(s, open)
    ensures var t := Supersede(s, name);
            && Inv(t, open) && name !in t.pending && t.offerSeq == s.offerSeq
            && t.journal.requests == s.journal.requests && t.journal.offered == s.journal.offered
  {
    if name in s.pending {
      TakeOut(s, name, open);
    }
  }

  lemma OfferCarries(qs: seq<Request>, offered: map<nat, OfferId>, pending: map<Ecu, Pending>, vs: seq<Verdict>,
                     p: Pending)
    requires AllCarry(qs, offered, pending, vs) && p.req !in offered
    requires PendingCarries(qs, offered[p.req := p.id], p.flow.name, p)
    ensures AllCarry(qs, offered[p.req := p.id], pending[p.flow.name := p], vs)
  {
    var more := pending[p.flow.name := p];
    forall n | n in more ensures PendingCarries(qs, offered[p.req := p.id], n, more[n]) {
      if n != p.flow.name {
        assert PendingCarries(qs, offered, n, pending[n]);
      }
    }
    forall k | 0 <= k < |vs| ensures VerdictCarries(qs, offered[p.req := p.id], vs[k]) {
      assert VerdictCarries(qs, offered, vs[k]);
    }
  }

  lemma NameIsFresh(n: nat, offered: map<nat, OfferId>, seqNo: nat, id: OfferId)
    requires NamesFresh(n, offered, seqNo) && id.number == seqNo + 1
    ensures NamesFresh(n + 1, offered[n := id], seqNo + 1)
  {
  }

  /** Making an offer for the request just registered. */
  lemma AskKeeps(s: State, req: nat, flow: Flow, slot: int, id: OfferId, now: real)
    requires |s.journal.requests| == req + 1 && Inv(s, {req}) && flow.name !in s.pending && Genuine(flow)
    requires s.journal.requests[req] == Request(flow, slot, now)
    requires NamesFresh(req, s.journal.offered, s.offerSeq) && id.number == s.offerSeq + 1
    ensures Inv(AskDriver(s.(offerSeq := s.offerSeq + 1), req, flow, slot, id, now), {})
  {
    var p := Pending(id, slot, flow, now, now + BudgetOf(flow.name).deadlineMs, req);
    AddPending(s.pending, flow.name, p);
    AddOffer(s.pending, flow.name, p);
    NameIsFresh(req, s.journal.offered, s.offerSeq, id);
    OfferCarries(s.journal.requests, s.journal.offered, s.pending, s.journal.verdicts, p);
  }

  // ---- The handlers ----

  /** The lock state and the active set play no part in the invariant. */
  lemma SameApprovals(s: State, t: State, open: set<nat>)
    requires Inv(s, open)
    requires s.pending == t.pending && s.pollTimer == t.pollTimer && s.offerSeq == t.offerSeq
    requires s.offers == t.offers && s.journal == t.journal
    ensures Inv(t, open)
  {
  }

  lemma UnaskedKeeps(s: State, req: nat, flow: Flow, slot: int, now: real, seqNo: nat)
    requires Inv(s, {req}) && req < |s.journal.requests| && Genuine(flow) && s.offerSeq <= seqNo
    requires s.journal.requests[req].flow == flow && s.journal.requests[req].slot == slot
    ensures Inv(ApproveUnasked(s.(offerSeq := seqNo), req, flow, slot, now), {})
  {
    AnswerOpen(s, Verdict(req, flow.approveCanId, flow.didApprove, slot, true, FailOpen, now));
  }

  lemma MakeOfferKeeps(s: State, req: nat, flow: Flow, slot: int, i: Inputs)
    requires |s.journal.requests| == req + 1 && Inv(s, {req}) && Genuine(flow)
    requires s.journal.requests[req] == Request(flow, slot, i.now) && flow.name !in s.pending
    requires NamesFresh(req, s.journal.offered, s.offerSeq)
    ensures Inv(MakeOffer(s, req, flow, slot, i), {})
  {
    var id := OfferId(flow.name, (i.now / 1000.0).Floor, s.offerSeq + 1);
    if i.offerWritten {
      AskKeeps(s, req, flow, slot, id, i.now);
      assert MakeOffer(s, req, flow, slot, i) == AskDriver(s.(offerSeq := s.offerSeq + 1), req, flow, slot, id, i.now);
    } else {
      UnaskedKeeps(s, req, flow, slot, i.now, s.offerSeq + 1);
      assert MakeOffer(s, req, flow, slot, i) == ApproveUnasked(s.(offerSeq := s.offerSeq + 1), req, flow, slot, i.now);
    }
  }

  lemma BeginKeeps(cfg: Config, s: State, flow: Flow, slot: int, i: Inputs)
    requires Inv(s, {}) && Genuine(flow)
    ensures Inv(BeginApproval(cfg, s, flow, slot, i), {})
  {
    var req := |s.journal.requests|;
    var s0 := Accept(s, flow, slot, i.now);
    Register(s, flow, slot, i.now);
    if !cfg.requireApproval || !i.uiAvailable {
      UnaskedKeeps(s0, req, flow, slot, i.now, s0.offerSeq);
      assert s0.(offerSeq := s0.offerSeq) == s0;
    } else {
      SupersedeKeeps(s0, flow.name, {req});
      MakeOfferKeeps(Supersede(s0, flow.name), req, flow, slot, i);
    }
  }

  lemma ResolveKeeps(s: State, name: Ecu, approved: bool, basis: Basis, now: real, ready: bool)
    requires Inv(s, {}) && name in s.pending
    requires basis.Driver? ==> basis.id == s.pending[name].id && (approved <==> basis.word == Approve)
    ensures Inv(Resolve(s, name, approved, basis, now, ready), {})
  {
    var p := s.pending[name];
    TakeOut(s, name, {});
    assert {} + {p.req} == {p.req};
    var v := Verdict(p.req, p.flow.approveCanId, p.flow.didApprove, p.slot, approved, basis, now);
    AnswerOpen(Removed(s, name), v);
    var s2 := SendVerdict(Removed(s, name), p.req, p.flow, p.slot, approved, basis, now);
    SameApprovals(s2, Resolve(s, name, approved, basis, now, ready), {});
  }

  lemma {:induction false} PollEachKeeps(cfg: Config, s: State, names: seq<Ecu>, now: real, ready: bool)
    requires Inv(s, {})
    ensures Inv(PollEach(cfg, s, names, now, ready), {})
  {
    if names != [] {
      var k := |names| - 1;
      PollEachKeeps(cfg, s, names[..k], now, ready);
      PollOneKeeps(cfg, PollEach(cfg, s, names[..k], now, ready), names[k], now, ready);
    }
  }

  lemma PollOneKeeps(cfg: Config, s: State, n: Ecu, now: real, ready: bool)
    requires Inv(s, {})
    ensures Inv(PollOne(cfg, s, n, now, ready), {})
  {
    if n in s.pending {
      var p := s.pending[n];
      if p.id in s.answers {
        ResolveKeeps(s, n, s.answers[p.id] == Approve, Driver(p.id, s.answers[p.id]), now, ready);
      } else if now >= p.deadline {
        ResolveKeeps(s, n, cfg.approveOnNoVerdict, NoAnswer, now, ready);
      }
    }
  }

  lemma ShutdownKeeps(s: State)
    requires Inv(s, {})
    ensures Inv(Shutdown(s), {})
  {
    assert Waiting(map[]) == {} && Ids(map[], {}) == {};
  }

  lemma DispatchKeeps(cfg: Config, s: State, flow: Flow, magic: int, slot: int, i: Inputs)
    requires Inv(s, {}) && Genuine(flow)
    ensures Inv(Dispatch(cfg, s, flow, magic, slot, i), {})
  {
    if magic == OTA_REQ_MAGIC {
      BeginKeeps(cfg, s, flow, slot, i);
    }
  }

  lemma FrameKeeps(cfg: Config, s: State, f: CanFrame, i: Inputs)
    requires Inv(s, {})
    ensures Inv(HandleFrame(cfg, s, f, i), {})
  {
    if !Ignored(f) {
      var flow := FlowOf(f.canId).value;
      DispatchKeeps(cfg, s, flow, f.magic, f.slot.value, i);
      UpdateKeeps(Dispatch(cfg, s, flow, f.magic, f.slot.value, i), i.ready);
    }
  }

  lemma UpdateKeeps(s: State, ready: bool)
    requires Inv(s, {})
    ensures Inv(UpdateLockState(s, ready), {})
  {
    SameApprovals(s, UpdateLockState(s, ready), {});
  }

  lemma NextKeepsInv(cfg: Config, s: State, e: Event)
    requires Inv(s, {})
    ensures Inv(Next(cfg, s, e), {})
  {
    match e {
      case Frame(f, i) => FrameKeeps(cfg, s, f, i);
      case PollTick(names, now, ready) => PollEachKeeps(cfg, s, names, now, ready);
      case Stop => ShutdownKeeps(s);
      case Drained(ready) => UpdateKeeps(s, ready);
      case Done(success) => SameApprovals(s, s.(lockPending := false, isLocked := Next(cfg, s, e).isLocked), {});
      case TimeoutTick(now, ready) => ActiveKeeps(s, s.active - Expired(cfg, s, now), ready);
      case SelfStarted(now, ready) =>
        SameApprovals(s, Begun(s, now), {});
        UpdateKeeps(Begun(s, now), ready);
      case SelfFinished(ready) => ActiveKeeps(s, s.active - {Jetson}, ready);
      case DriverAnswers(id, word) => SameApprovals(s, s.(answers := s.answers[id := word]), {});
    }
  }

  lemma ActiveKeeps(s: State, active: map<Ecu, real>, ready: bool)
    requires Inv(s, {})
    ensures Inv(UpdateLockState(s.(active := active), ready), {})
  {
    SameApprovals(s, UpdateLockState(s.(active := active), ready), {});
  }

  /** In every run, over any leftover spool: each accepted request is answered once, or pending, or
      superseded, or withdrawn; verdicts and pending entries carry their own request's data; a
      driver's answer decides only the request its offer was made for; offer names never
      recur; and the spool's offers are exactly those pending. */
  lemma {:induction false} RunKeepsInv(cfg: Config, offers: set<OfferId>, answers: map<OfferId, Word>, es: seq<Event>)
    ensures Inv(Run(cfg, Start(offers, answers), es), {})
  {
    if es == [] {
      assert Answered([]) == {} && Waiting(map[]) == {} && Ids(map[], {}) == {};
    } else {
      RunKeepsInv(cfg, offers, answers, es[..|es| - 1]);
      NextKeepsInv(cfg, Run(cfg, Start(offers, answers), es[..|es| - 1]), es[|es| - 1]);
    }
  }

  /** A request that is approved without asking leaves an older one of the same requester pending,
      card and all; every other request drops it. */
  lemma OlderOfferSurvivesIff(cfg: Config, s: State, flow: Flow, slot: int, i: Inputs)
    requires Inv(s, {}) && Genuine(flow) && flow.name in s.pending
    ensures var t, earlier := BeginApproval(cfg, s, flow, slot, i), s.pending[flow.name];
            && (flow.name in t.pending && t.pending[flow.name] == earlier <==> !cfg.requireApproval || !i.uiAvailable)
            && (earlier.id in t.offers <==> !cfg.requireApproval || !i.uiAvailable)
  {
    var p := s.pending[flow.name];
    assert PendingCarries(s.journal.requests, s.journal.offered, flow.name, p);
    assert p.id in Ids(s.pending, s.pending.Keys);
  }

  // ---- Conservation ----

  /** Accepted requests = verdicts sent + pending + superseded + withdrawn. */
  lemma Conservation(cfg: Config, offers: set<OfferId>, answers: map<OfferId, Word>, es: seq<Event>)
    ensures var s := Run(cfg, Start(offers, answers), es);
            |s.journal.requests| ==
              |s.journal.verdicts| + |s.pending| + |s.journal.superseded| + |s.journal.withdrawn|
  {
    RunKeepsInv(cfg, offers, answers, es);
    var s := Run(cfg, Start(offers, answers), es);
    var j := s.journal;
    AnsweredSize(j.verdicts);
    WaitingSize(s.pending, s.pending.Keys);
    PartitionSize(|j.requests|, Answered(j.verdicts), Waiting(s.pending), j.superseded, j.withdrawn);
  }

  lemma PartitionSize(n: nat, a: set<nat>, b: set<nat>, c: set<nat>, d: set<nat>)
    requires Partition(n, a, b, c, d, {})
    ensures n == |a| + |b| + |c| + |d|
  {
    InitialSegment(n, a + b + c + d);
  }

  lemma {:induction false} InitialSegment(n: nat, all: set<nat>)
    requires forall r: nat :: r < n <==> r in all
    ensures |all| == n
  {
    if n > 0 {
      InitialSegment(n - 1, all - {n - 1});
    }
  }

  lemma {:induction false} AnsweredSize(vs: seq<Verdict>)
    requires AnsweredOnce(vs)
    ensures |Answered(vs)| == |vs|
  {
    if vs != [] {
      var n := |vs| - 1;
      AnsweredSize(vs[..n]);
      assert vs == vs[..n] + [vs[n]];
      assert vs[n].req !in Answered(vs[..n]);
      AddVerdict(vs[..n], vs[n]);
    }
  }

  lemma {:induction false} WaitingSize(pending: map<Ecu, Pending>, names: set<Ecu>)
    requires names <= pending.Keys && PendingApart(pending)
    ensures |Reqs(pending, names)| == |names|
  {
    if names != {} {
      var n :| n in names;
      WaitingSize(pending, names - {n});
      assert Reqs(pending, names) == Reqs(pending, names - {n}) + {pending[n].req};
    }
  }
}
