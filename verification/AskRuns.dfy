/** Which requests the driver is asked about and until when, which of them a poll decides, and where each
    verdict goes. Numbers are written out here, not taken from the node's constants. */
module AskRuns {
  import opened Coordinator
  import opened CoordinatorRuns
  import opened ActiveRuns
  import ApprovalRuns
  import PollRuns
  import SecuredRuns
  import VerdictRuns

  /** How long the driver has. */
  function Patience(n: Ecu): real { if n == Cluster then 30000.0 else 9500.0 }

  /** The CAN id and the identifier of a verdict for n. */
  predicate GoesTo(n: Ecu, canId: int, did: nat) {
    (n == Cluster && canId == 0x301 && did == 3) || (n == Esp32 && canId == 0x311 && did == 6)
  }

  // ---- One request ----

  /** t has put the request numbered req to the driver. */
  predicate Asked(s: State, t: State, n: Ecu, slot: int, now: real) {
    var id := OfferId(n, (now / 1000.0).Floor, s.offerSeq + 1);
    && n in t.pending && t.pending[n].id == id && t.pending[n].slot == slot && t.pending[n].t0 == now
    && t.pending[n].req == |s.journal.requests| && t.pending[n].deadline == now + Patience(n)
    && id in t.offers && t.pollTimer && t.journal.verdicts == s.journal.verdicts
  }

  /** t has approved the request without asking. */
  predicate Waved(s: State, t: State, n: Ecu, slot: int, now: real) {
    && |t.journal.verdicts| == |s.journal.verdicts| + 1
    && t.journal.verdicts[..|s.journal.verdicts|] == s.journal.verdicts
    && var v := t.journal.verdicts[|s.journal.verdicts|];
       && v.req == |s.journal.requests| && GoesTo(n, v.canId, v.did) && v.slot == slot && v.at == now
       && v.approved && v.basis == FailOpen
  }

  /** n's earlier request stands, or is dropped because the driver could be asked about the new one. */
  predicate EarlierDropped(cfg: Config, s: State, t: State, n: Ecu, i: Inputs) {
    if cfg.requireApproval && i.uiAvailable then
      && (n in t.pending ==> CanAsk(cfg, i))
      && (n in s.pending ==> s.pending[n].req in t.journal.superseded)
    else
      && (n in t.pending <==> n in s.pending) && (n in s.pending ==> t.pending[n] == s.pending[n])
      && t.journal.superseded == s.journal.superseded
  }

  predicate Answers(cfg: Config, s: State, t: State, n: Ecu, slot: int, i: Inputs) {
    && (if CanAsk(cfg, i) then Asked(s, t, n, slot, i.now) else Waved(s, t, n, slot, i.now))
    && EarlierDropped(cfg, s, t, n, i)
    && forall m :: m != n ==> (m in t.pending <==> m in s.pending)
                              && (m in s.pending ==> t.pending[m] == s.pending[m])
  }

  lemma SupersedeDrops(s: State, n: Ecu)
    ensures var t := Supersede(s, n);
            && t.pending == s.pending - {n} && t.offerSeq == s.offerSeq
            && t.journal.requests == s.journal.requests && t.journal.verdicts == s.journal.verdicts
            && (n in s.pending ==> s.pending[n].req in t.journal.superseded)
  {
  }

  lemma OfferAnswers(s: State, flow: Flow, slot: int, req: nat, i: Inputs)
    requires ApprovalRuns.Genuine(flow)
    ensures var t := MakeOffer(s, req, flow, slot, i);
            && t.journal.superseded == s.journal.superseded
            && if i.offerWritten
               then
                 && t.pending - {flow.name} == s.pending - {flow.name} && flow.name in t.pending
                 && t.pending[flow.name].id == OfferId(flow.name, (i.now / 1000.0).Floor, s.offerSeq + 1)
                 && t.pending[flow.name].deadline == i.now + Patience(flow.name)
                 && t.pending[flow.name].slot == slot && t.pending[flow.name].t0 == i.now
                 && t.pending[flow.name].req == req && t.pending[flow.name].id in t.offers && t.pollTimer
                 && t.journal.verdicts == s.journal.verdicts
               else
                 && t.pending == s.pending
                 && t.journal.verdicts == s.journal.verdicts + [Unasked(flow, slot, req, i.now)]
  {
  }

  function Unasked(flow: Flow, slot: int, req: nat, now: real): (v: Verdict)
    requires ApprovalRuns.Genuine(flow)
    ensures GoesTo(flow.name, v.canId, v.did)
  {
    Verdict(req, flow.approveCanId, flow.didApprove, slot, true, FailOpen, now)
  }

  lemma BeginAnswers(cfg: Config, s: State, flow: Flow, slot: int, i: Inputs)
    requires ApprovalRuns.Genuine(flow)
    ensures Answers(cfg, s, BeginApproval(cfg, s, flow, slot, i), flow.name, slot, i)
  {
    var req, n, t := |s.journal.requests|, flow.name, BeginApproval(cfg, s, flow, slot, i);
    var s0 := Accept(s, flow, slot, i.now);
    if cfg.requireApproval && i.uiAvailable {
      var s1 := Supersede(s0, n);
      SupersedeDrops(s0, n);
      OfferAnswers(s1, flow, slot, req, i);
      OthersStand(s, t, n);
      if !i.offerWritten {
        OneMoreWaved(s, t, flow, slot, i.now);
      }
    } else {
      OneMoreWaved(s, t, flow, slot, i.now);
    }
  }

  lemma OthersStand(s: State, t: State, n: Ecu)
    requires t.pending - {n} == s.pending - {n}
    ensures forall m :: m != n ==> (m in t.pending <==> m in s.pending)
                                   && (m in s.pending ==> t.pending[m] == s.pending[m])
  {
    forall m | m != n
      ensures (m in t.pending <==> m in s.pending) && (m in s.pending ==> t.pending[m] == s.pending[m])
    {
      assert m in s.pending - {n} <==> m in s.pending;
      assert m in t.pending - {n} <==> m in t.pending;
    }
  }

  lemma OneMoreWaved(s: State, t: State, flow: Flow, slot: int, now: real)
    requires ApprovalRuns.Genuine(flow)
    requires t.journal.verdicts == s.journal.verdicts + [Unasked(flow, slot, |s.journal.requests|, now)]
    ensures Waved(s, t, flow.name, slot, now)
  {
  }

  /** In any state a verified REQUEST is put to the driver, under the new offer's name and the requester's own
      deadline, if and only if approval is required, a head unit is up and the offer can be written; otherwise
      it is approved at once. The requester's earlier request is dropped when approval is required and a head
      unit is up, and others' requests stay as they are. */
  lemma RequestAsksIff(cfg: Config, s: State, f: CanFrame, i: Inputs, n: Ecu)
    requires RequestOf(f, n)
    ensures Answers(cfg, s, HandleFrame(cfg, s, f, i), n, f.slot.value, i)
  {
    var t := BeginApproval(cfg, s, FlowOf(f.canId).value, f.slot.value, i);
    BeginAnswers(cfg, s, FlowOf(f.canId).value, f.slot.value, i);
    LockLeavesRest(t, i.ready);
    assert HandleFrame(cfg, s, f, i) == UpdateLockState(t, i.ready);
  }

  // ---- One poll ----

  predicate Waits(s: State, n: Ecu, now: real) {
    n in s.pending && s.pending[n].id !in s.answers && now < s.pending[n].deadline
  }

  lemma PollLeaves(cfg: Config, s: State, names: seq<Ecu>, now: real, ready: bool)
    requires ApprovalRuns.Inv(s, {}) && Lists(s, names) && s.pollTimer
    ensures var t := Poll(cfg, s, names, now, ready);
            && (forall n :: n in t.pending <==> Waits(s, n, now))
            && (forall n :: n in t.pending ==> t.pending[n] == s.pending[n])
            && (t.pollTimer <==> t.pending != map[])
  {
    var u := PollEach(cfg, s, names, now, ready);
    PollRuns.PollEachLeaves(cfg, s, names, now, ready);
    ApprovalRuns.PollEachKeeps(cfg, s, names, now, ready);
    assert ApprovalRuns.SpoolFollows(u.pending, u.offers, u.pollTimer);
    forall n ensures n in u.pending <==> Waits(s, n, now) {}
  }

  /** In every run a poll leaves pending exactly the requests without an answer whose deadline is not reached,
      as they were; and the poll timer lives on if and only if any is left. */
  lemma PollLeavesIff(cfg: Config, offers: set<OfferId>, answers: map<OfferId, Word>, es: seq<Event>, names: seq<Ecu>,
                      now: real, ready: bool)
    requires var s := Run(cfg, Start(offers, answers), es); s.pollTimer && Lists(s, names)
    ensures var s := Run(cfg, Start(offers, answers), es);
            var t := Next(cfg, s, PollTick(names, now, ready));
            && (forall n :: n in t.pending <==> Waits(s, n, now))
            && (forall n :: n in t.pending ==> t.pending[n] == s.pending[n])
            && (t.pollTimer <==> t.pending != map[])
  {
    var s := Run(cfg, Start(offers, answers), es);
    ApprovalRuns.RunKeepsInv(cfg, offers, answers, es);
    PollLeaves(cfg, s, names, now, ready);
  }

  // ---- Whole runs ----

  /** The request a REQUEST frame makes. */
  function Made(e: Event): seq<Request> {
    match e
    case Frame(f, i) =>
      if RequestOf(f, Cluster) then [Request(Flow(Cluster, 3, 0x301), f.slot.value, i.now)]
      else if RequestOf(f, Esp32) then [Request(Flow(Esp32, 6, 0x311), f.slot.value, i.now)]
      else []
    case _ => []
  }

  function AllMade(es: seq<Event>): seq<Request> {
    if es == [] then [] else AllMade(es[..|es| - 1]) + Made(es[|es| - 1])
  }

  lemma NextMade(cfg: Config, s: State, e: Event)
    ensures Next(cfg, s, e).journal.requests == s.journal.requests + Made(e)
  {
    if e.Frame? {
      SecuredRuns.FrameAsks(cfg, s, e.frame, e.inputs);
    } else {
      SecuredRuns.OwnAsksNothing(cfg, s, e);
    }
  }

  /** In every run the requests taken in are exactly the verified REQUEST frames, in order. */
  lemma {:induction false} RequestsAreFrames(cfg: Config, s0: State, es: seq<Event>)
    ensures Run(cfg, s0, es).journal.requests == s0.journal.requests + AllMade(es)
  {
    if es != [] {
      RequestsAreFrames(cfg, s0, es[..|es| - 1]);
      NextMade(cfg, Run(cfg, s0, es[..|es| - 1]), es[|es| - 1]);
    }
  }

  /** A verdict answers the request q: it goes back to the one who asked, names the slot asked for, and keeps to
      the times. */
  predicate AnswersRequest(q: Request, v: Verdict) {
    && GoesTo(q.flow.name, v.canId, v.did) && v.slot == q.slot
    && (v.basis.FailOpen? ==> v.at == q.at && v.approved)
    && (v.basis.NoAnswer? ==> v.at >= q.at + Patience(q.flow.name))
  }

  /** In every run each verdict goes back to the peer whose REQUEST frame it answers, with that frame's slot; and
      silence decides nothing before that peer's deadline. */
  lemma VerdictGoesBack(cfg: Config, offers: set<OfferId>, answers: map<OfferId, Word>, es: seq<Event>, k: nat)
    requires k < |Run(cfg, Start(offers, answers), es).journal.verdicts|
    ensures var v := Run(cfg, Start(offers, answers), es).journal.verdicts[k];
            v.req < |AllMade(es)| && AnswersRequest(AllMade(es)[v.req], v)
  {
    var s := Run(cfg, Start(offers, answers), es);
    var v := s.journal.verdicts[k];
    RequestsAreFrames(cfg, Start(offers, answers), es);
    assert [] + AllMade(es) == AllMade(es);
    ApprovalRuns.RunKeepsInv(cfg, offers, answers, es);
    VerdictRuns.EveryVerdictIsFair(cfg, offers, answers, es);
    assert ApprovalRuns.VerdictCarries(s.journal.requests, s.journal.offered, v);
    assert VerdictRuns.Fair(cfg, s.journal.requests, v);
  }
}
