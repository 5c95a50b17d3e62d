/** Whose answer decides a request. The spool knows answers by file name only: one left by an earlier run, or
    written after its offer was taken down, decides a later request whose offer gets the same name. */
module AnswerRuns {
  import opened Options
  import opened Coordinator
  import opened CoordinatorRuns
  import ApprovalRuns
  import PollRuns
  import TimingRuns

  /** The answers now in the spool that were not written to an offer of this run standing at the time. */
  ghost function StrayNext(x: set<OfferId>, s: State, e: Event, t: State): set<OfferId> {
    match e
    case DriverAnswers(id, _) => if id in s.offers then x - {id} else x + {id}
    case _ => x * t.answers.Keys
  }

  ghost function Stray(cfg: Config, s0: State, es: seq<Event>): set<OfferId> {
    if es == [] then s0.answers.Keys
    else
      var n := |es| - 1;
      StrayNext(Stray(cfg, s0, es[..n]), Run(cfg, s0, es[..n]), es[n], Run(cfg, s0, es))
  }

  /** The driver wrote this word to that offer while it stood in the spool, at event m. */
  ghost predicate WrittenAt(cfg: Config, s0: State, es: seq<Event>, m: nat, id: OfferId, word: Word) {
    m < |es| && es[m] == DriverAnswers(id, word) && id in Run(cfg, s0, es[..m]).offers
  }

  ghost predicate Given(cfg: Config, s0: State, es: seq<Event>, id: OfferId, word: Word) {
    exists m: nat :: WrittenAt(cfg, s0, es, m, id, word)
  }

  /** The offer of that name was made, at event m, when an answer of that name was already there. */
  ghost predicate MadeAnsweredAt(cfg: Config, s0: State, es: seq<Event>, m: nat, id: OfferId) {
    && m < |es| && id !in Run(cfg, s0, es[..m]).offers && id in Run(cfg, s0, es[..m + 1]).offers
    && id in Run(cfg, s0, es[..m]).answers
  }

  ghost predicate MadeAnswered(cfg: Config, s0: State, es: seq<Event>, id: OfferId) {
    exists m: nat :: MadeAnsweredAt(cfg, s0, es, m, id)
  }

  lemma EarlierStays(cfg: Config, s0: State, es: seq<Event>, e: Event)
    ensures forall id, word :: Given(cfg, s0, es, id, word) ==> Given(cfg, s0, es + [e], id, word)
    ensures forall id :: MadeAnswered(cfg, s0, es, id) ==> MadeAnswered(cfg, s0, es + [e], id)
  {
    var more := es + [e];
    forall id, word | Given(cfg, s0, es, id, word) ensures Given(cfg, s0, more, id, word) {
      var m: nat :| WrittenAt(cfg, s0, es, m, id, word);
      assert more[..m] == es[..m] && WrittenAt(cfg, s0, more, m, id, word);
    }
    forall id | MadeAnswered(cfg, s0, es, id) ensures MadeAnswered(cfg, s0, more, id) {
      var m: nat :| MadeAnsweredAt(cfg, s0, es, m, id);
      assert more[..m] == es[..m] && more[..m + 1] == es[..m + 1] && MadeAnsweredAt(cfg, s0, more, m, id);
    }
  }

  // ---- What the handlers do to the spool ----

  /** Answers only go, and an offer that goes takes its answer along. */
  ghost predicate OnlyTaken(s: State, t: State) {
    && (forall id :: id in t.answers ==> id in s.answers && t.answers[id] == s.answers[id])
    && (forall id :: id in t.answers && id in s.offers ==> id in t.offers)
  }

  lemma UpdateTakesNothing(s: State, ready: bool)
    ensures var t := UpdateLockState(s, ready); t.offers == s.offers && t.answers == s.answers
  {
    LockLeavesRest(s, ready);
  }

  lemma ResolveOnlyTakes(s: State, n: Ecu, approved: bool, basis: Basis, now: real, ready: bool)
    requires n in s.pending
    ensures var t := Resolve(s, n, approved, basis, now, ready); OnlyTaken(s, t) && t.offers <= s.offers
  {
    var p := s.pending[n];
    var s2 := SendVerdict(Removed(s, n), p.req, p.flow, p.slot, approved, basis, now);
    UpdateTakesNothing(if approved then s2.(active := s2.active[n := now]) else s2, ready);
  }

  lemma PollOneOnlyTakes(cfg: Config, s: State, n: Ecu, now: real, ready: bool)
    ensures var t := PollOne(cfg, s, n, now, ready); OnlyTaken(s, t) && t.offers <= s.offers
  {
    var d := PollRuns.Decision(cfg, s, n, now);
    PollRuns.PollOneDecides(cfg, s, n, now, ready);
    if d.Some? {
      ResolveOnlyTakes(s, n, d.value, PollRuns.BasisOf(s, n), now, ready);
    }
  }

  lemma {:induction false} PollOnlyTakes(cfg: Config, s: State, names: seq<Ecu>, now: real, ready: bool)
    ensures var t := PollEach(cfg, s, names, now, ready); OnlyTaken(s, t) && t.offers <= s.offers
  {
    if names != [] {
      var k := |names| - 1;
      PollOnlyTakes(cfg, s, names[..k], now, ready);
      PollOneOnlyTakes(cfg, PollEach(cfg, s, names[..k], now, ready), names[k], now, ready);
    }
  }

  /** A frame makes at most one offer, under this run's next number, and takes away at most answers to
      pending requests. */
  ghost predicate AtMostOneOffer(s: State, t: State, i: Inputs) {
    && OnlyTaken(s, t)
    && (forall id :: id in s.answers && id !in t.answers ==> id in Ids(s.pending, s.pending.Keys))
    && (forall id :: id in t.offers && id !in s.offers ==>
         id.number == s.offerSeq + 1 && id.second == (i.now / 1000.0).Floor)
  }

  lemma SupersedeOffers(s: State, name: Ecu)
    ensures var t := Supersede(s, name);
            && OnlyTaken(s, t) && t.offers <= s.offers && t.offerSeq == s.offerSeq
            && (forall id :: id in s.answers && id !in t.answers ==> id in Ids(s.pending, s.pending.Keys))
  {
  }

  lemma OfferOffers(s: State, req: nat, flow: Flow, slot: int, i: Inputs)
    ensures var t := MakeOffer(s, req, flow, slot, i);
            && t.answers == s.answers && s.offers <= t.offers
            && forall id :: id in t.offers && id !in s.offers ==>
                 id.number == s.offerSeq + 1 && id.second == (i.now / 1000.0).Floor
  {
  }

  lemma BeginOffers(cfg: Config, s: State, flow: Flow, slot: int, i: Inputs)
    ensures AtMostOneOffer(s, BeginApproval(cfg, s, flow, slot, i), i)
  {
    var req, s0 := |s.journal.requests|, Accept(s, flow, slot, i.now);
    if cfg.requireApproval && i.uiAvailable {
      SupersedeOffers(s0, flow.name);
      OfferOffers(Supersede(s0, flow.name), req, flow, slot, i);
    } else {
      var t := ApproveUnasked(s0, req, flow, slot, i.now);
      assert t.offers == s.offers && t.answers == s.answers;
    }
  }

  lemma DispatchOffers(cfg: Config, s: State, flow: Flow, magic: int, slot: int, i: Inputs)
    ensures AtMostOneOffer(s, Dispatch(cfg, s, flow, magic, slot, i), i)
  {
    if magic == OTA_REQ_MAGIC {
      BeginOffers(cfg, s, flow, slot, i);
    }
  }

  lemma SameSpool(s: State, t: State, u: State, i: Inputs)
    requires AtMostOneOffer(s, t, i) && u.offers == t.offers && u.answers == t.answers
    ensures AtMostOneOffer(s, u, i)
  {
  }

  lemma FrameOffers(cfg: Config, s: State, f: CanFrame, i: Inputs)
    ensures AtMostOneOffer(s, HandleFrame(cfg, s, f, i), i)
  {
    if !Ignored(f) {
      var flow := FlowOf(f.canId).value;
      var t := Dispatch(cfg, s, flow, f.magic, f.slot.value, i);
      DispatchOffers(cfg, s, flow, f.magic, f.slot.value, i);
      UpdateTakesNothing(t, i.ready);
      SameSpool(s, t, UpdateLockState(t, i.ready), i);
    }
  }

  lemma OthersOnlyTake(cfg: Config, s: State, e: Event)
    requires !e.Frame? && !e.DriverAnswers?
    ensures var t := Next(cfg, s, e); OnlyTaken(s, t) && t.offers <= s.offers
  {
    match e {
      case PollTick(names, now, ready) => PollOnlyTakes(cfg, s, names, now, ready);
      case TimeoutTick(now, ready) => UpdateTakesNothing(s.(active := s.active - Expired(cfg, s, now)), ready);
      case SelfStarted(now, ready) => UpdateTakesNothing(Begun(s, now), ready);
      case SelfFinished(ready) => UpdateTakesNothing(s.(active := s.active - {Jetson}), ready);
      case Drained(ready) => UpdateTakesNothing(s, ready);
      case Done(success) =>
      case Stop =>
    }
  }

  // ---- The invariant ----

  /** An answer that is not stray was written to its offer, which still stands; and a standing offer with a
      stray answer had it when it was made. */
  ghost predicate Inv(cfg: Config, s0: State, es: seq<Event>, s: State, x: set<OfferId>) {
    && x <= s.answers.Keys
    && (forall id :: id in s.answers && id !in x ==> id in s.offers && Given(cfg, s0, es, id, s.answers[id]))
    && (forall id :: id in x && id in s.offers ==> MadeAnswered(cfg, s0, es, id))
  }

  /** t and u are the spool before and after event e, es the run so far. */
  lemma TakingKeepsInv(cfg: Config, s0: State, es: seq<Event>, e: Event, s: State, t: State, x: set<OfferId>)
    requires Inv(cfg, s0, es, s, x) && OnlyTaken(s, t)
    requires forall id :: id in t.offers && id !in s.offers && id in s.answers ==> MadeAnswered(cfg, s0, es + [e], id)
    ensures Inv(cfg, s0, es + [e], t, x * t.answers.Keys)
  {
    EarlierStays(cfg, s0, es, e);
  }

  lemma AnswerKeepsInv(cfg: Config, s0: State, es: seq<Event>, id: OfferId, word: Word, s: State, x: set<OfferId>)
    requires Inv(cfg, s0, es, s, x)
    requires id in s.offers ==> Given(cfg, s0, es + [DriverAnswers(id, word)], id, word)
    ensures Inv(cfg, s0, es + [DriverAnswers(id, word)], s.(answers := s.answers[id := word]),
                if id in s.offers then x - {id} else x + {id})
  {
    EarlierStays(cfg, s0, es, DriverAnswers(id, word));
  }

  lemma FrameMakes(cfg: Config, s0: State, es: seq<Event>, e: Event, s: State, t: State)
    requires s == Run(cfg, s0, es) && t == Run(cfg, s0, es + [e])
    ensures forall id :: id in t.offers && id !in s.offers && id in s.answers ==> MadeAnswered(cfg, s0, es + [e], id)
  {
    assert (es + [e])[..|es|] == es && (es + [e])[..|es| + 1] == es + [e];
    forall id | id in t.offers && id !in s.offers && id in s.answers ensures MadeAnswered(cfg, s0, es + [e], id) {
      assert MadeAnsweredAt(cfg, s0, es + [e], |es|, id);
    }
  }

  lemma RunNext(cfg: Config, s0: State, es: seq<Event>, e: Event)
    ensures Run(cfg, s0, es + [e]) == Next(cfg, Run(cfg, s0, es), e)
    ensures Stray(cfg, s0, es + [e]) == StrayNext(Stray(cfg, s0, es), Run(cfg, s0, es), e, Run(cfg, s0, es + [e]))
  {
    assert (es + [e])[..|es|] == es;
  }

  lemma StepKeepsInv(cfg: Config, s0: State, es: seq<Event>, e: Event, s: State, t: State, x: set<OfferId>)
    requires s == Run(cfg, s0, es) && t == Next(cfg, s, e) == Run(cfg, s0, es + [e]) && Inv(cfg, s0, es, s, x)
    ensures Inv(cfg, s0, es + [e], t, StrayNext(x, s, e, t))
  {
    match e {
      case DriverAnswers(id, word) =>
        assert (es + [e])[..|es|] == es;
        if id in s.offers {
          assert WrittenAt(cfg, s0, es + [e], |es|, id, word);
        }
        AnswerKeepsInv(cfg, s0, es, id, word, s, x);
      case Frame(f, i) =>
        FrameOffers(cfg, s, f, i);
        FrameMakes(cfg, s0, es, e, s, t);
        TakingKeepsInv(cfg, s0, es, e, s, t, x);
      case _ =>
        OthersOnlyTake(cfg, s, e);
        TakingKeepsInv(cfg, s0, es, e, s, t, x);
    }
  }

  lemma {:induction false} RunKeepsInv(cfg: Config, offers: set<OfferId>, answers: map<OfferId, Word>, es: seq<Event>)
    ensures var s0 := Start(offers, answers); Inv(cfg, s0, es, Run(cfg, s0, es), Stray(cfg, s0, es))
  {
    var s0 := Start(offers, answers);
    if es != [] {
      var before, e := es[..|es| - 1], es[|es| - 1];
      assert before + [e] == es;
      RunKeepsInv(cfg, offers, answers, before);
      RunNext(cfg, s0, before, e);
      StepKeepsInv(cfg, s0, before, e, Run(cfg, s0, before), Run(cfg, s0, es), Stray(cfg, s0, before));
    }
  }

  // ---- When a stray answer decides ----

  /** In every run, a frame's new offer finds a stray answer exactly if its name is already answered. */
  lemma NewOfferStrayIff(cfg: Config, offers: set<OfferId>, answers: map<OfferId, Word>, es: seq<Event>,
                         f: CanFrame, i: Inputs, id: OfferId)
    requires var s := Run(cfg, Start(offers, answers), es); id in Next(cfg, s, Frame(f, i)).offers && id !in s.offers
    ensures var s0 := Start(offers, answers);
            id in Stray(cfg, s0, es + [Frame(f, i)]) <==> id in Run(cfg, s0, es).answers
  {
    var s0 := Start(offers, answers);
    var s := Run(cfg, s0, es);
    RunKeepsInv(cfg, offers, answers, es);
    ApprovalRuns.RunKeepsInv(cfg, offers, answers, es);
    RunNext(cfg, s0, es, Frame(f, i));
    NewOfferKeepsAnswer(cfg, s, f, i, id);
  }

  /** Making an offer does not look at an answer of its name. */
  lemma NewOfferKeepsAnswer(cfg: Config, s: State, f: CanFrame, i: Inputs, id: OfferId)
    requires ApprovalRuns.SpoolFollows(s.pending, s.offers, s.pollTimer)
    requires id in HandleFrame(cfg, s, f, i).offers && id !in s.offers
    ensures id in HandleFrame(cfg, s, f, i).answers <==> id in s.answers
  {
    FrameOffers(cfg, s, f, i);
  }

  /** The verdicts a poll adds: by the driver's answer exactly to those pending requests whose name is answered,
      with the word that is there. */
  ghost predicate Adds(cfg: Config, s: State, names: seq<Ecu>, now: real, t: State) {
    && s.journal.verdicts <= t.journal.verdicts
    && (forall k :: |s.journal.verdicts| <= k < |t.journal.verdicts| ==> DecidedFor(cfg, s, now, t.journal.verdicts[k]))
    && (forall n :: n in names && PollRuns.Decision(cfg, s, n, now).Some? ==> DecidedIn(s, t, n))
  }

  ghost predicate DecidedFor(cfg: Config, s: State, now: real, v: Verdict) {
    exists n :: PollRuns.Decision(cfg, s, n, now).Some? && VerdictFor(s, n, v)
  }

  predicate VerdictFor(s: State, n: Ecu, v: Verdict) {
    n in s.pending && v.req == s.pending[n].req && v.basis == PollRuns.BasisOf(s, n)
  }

  ghost predicate DecidedIn(s: State, t: State, n: Ecu) {
    exists k :: |s.journal.verdicts| <= k < |t.journal.verdicts| && VerdictFor(s, n, t.journal.verdicts[k])
  }

  lemma ResolveAdds(s: State, n: Ecu, approved: bool, basis: Basis, now: real, ready: bool)
    requires n in s.pending
    ensures var p, t := s.pending[n], Resolve(s, n, approved, basis, now, ready);
            t.journal == s.journal.(verdicts := s.journal.verdicts +
              [Verdict(p.req, p.flow.approveCanId, p.flow.didApprove, p.slot, approved, basis, now)])
  {
    var p := s.pending[n];
    var s2 := SendVerdict(Removed(s, n), p.req, p.flow, p.slot, approved, basis, now);
    LockLeavesRest(if approved then s2.(active := s2.active[n := now]) else s2, ready);
  }

  lemma AddsOne(cfg: Config, s: State, names: seq<Ecu>, now: real, u: State, n: Ecu, t: State, v: Verdict)
    requires Adds(cfg, s, names, now, u) && PollRuns.Decision(cfg, s, n, now).Some? && VerdictFor(s, n, v)
    requires t.journal.verdicts == u.journal.verdicts + [v]
    ensures Adds(cfg, s, names + [n], now, t)
  {
    forall m | m in names + [n] && PollRuns.Decision(cfg, s, m, now).Some? ensures DecidedIn(s, t, m) {
      if m == n {
        assert VerdictFor(s, n, t.journal.verdicts[|u.journal.verdicts|]);
      } else {
        var k :| |s.journal.verdicts| <= k < |u.journal.verdicts| && VerdictFor(s, m, u.journal.verdicts[k]);
        assert t.journal.verdicts[k] == u.journal.verdicts[k];
      }
    }
    forall k | |s.journal.verdicts| <= k < |t.journal.verdicts| ensures DecidedFor(cfg, s, now, t.journal.verdicts[k]) {
      if k < |u.journal.verdicts| {
        assert t.journal.verdicts[k] == u.journal.verdicts[k];
      }
    }
  }

  lemma {:induction false} PollAdds(cfg: Config, s: State, names: seq<Ecu>, now: real, ready: bool)
    requires ApprovalRuns.Inv(s, {})
    ensures Adds(cfg, s, names, now, PollEach(cfg, s, names, now, ready))
  {
    if names != [] {
      var before, n := names[..|names| - 1], names[|names| - 1];
      var u := PollEach(cfg, s, before, now, ready);
      assert before + [n] == names;
      PollAdds(cfg, s, before, now, ready);
      PollRuns.PollEachLeaves(cfg, s, before, now, ready);
      PollRuns.PollOneDecides(cfg, u, n, now, ready);
      var d := PollRuns.Decision(cfg, u, n, now);
      if d.Some? {
        ResolveAdds(u, n, d.value, PollRuns.BasisOf(u, n), now, ready);
        var p := u.pending[n];
        AddsOne(cfg, s, before, now, u, n, PollEach(cfg, s, names, now, ready),
                Verdict(p.req, p.flow.approveCanId, p.flow.didApprove, p.slot, d.value, PollRuns.BasisOf(u, n), now));
      } else {
        assert PollRuns.Decision(cfg, s, n, now).Some? ==> n in before;
      }
    }
  }

  /** In every run, the next poll decides a request by an answer not given to its offer exactly if a pending
      offer bears the answer's name. */
  lemma StrayDecidesIff(cfg: Config, offers: set<OfferId>, answers: map<OfferId, Word>, es: seq<Event>,
                        names: seq<Ecu>, now: real, ready: bool, id: OfferId)
    requires var s := Run(cfg, Start(offers, answers), es);
             s.pollTimer && CoordinatorRuns.Lists(s, names) && id in Stray(cfg, Start(offers, answers), es)
    ensures var s := Run(cfg, Start(offers, answers), es);
            var t := Next(cfg, s, PollTick(names, now, ready));
            DecidedBy(s, t, id) <==> id in Ids(s.pending, s.pending.Keys)
  {
    RunKeepsInv(cfg, offers, answers, es);
    ApprovalRuns.RunKeepsInv(cfg, offers, answers, es);
    PollDecidesIff(cfg, Run(cfg, Start(offers, answers), es), names, now, ready, id);
  }

  lemma PollDecidesIff(cfg: Config, s: State, names: seq<Ecu>, now: real, ready: bool, id: OfferId)
    requires ApprovalRuns.Inv(s, {}) && s.pollTimer && CoordinatorRuns.Lists(s, names) && id in s.answers
    ensures DecidedBy(s, Next(cfg, s, PollTick(names, now, ready)), id) <==> id in Ids(s.pending, s.pending.Keys)
  {
    var t := PollEach(cfg, s, names, now, ready);
    PollAdds(cfg, s, names, now, ready);
    AnsweredDecidesIff(cfg, s, names, now, t, id);
    assert Next(cfg, s, PollTick(names, now, ready)).journal == t.journal;
  }

  /** A new verdict of t is by the driver's answer of that name. */
  ghost predicate DecidedBy(s: State, t: State, id: OfferId) {
    exists k :: |s.journal.verdicts| <= k < |t.journal.verdicts| && ByAnswer(t.journal.verdicts[k], id)
  }

  predicate ByAnswer(v: Verdict, id: OfferId) { v.basis.Driver? && v.basis.id == id }

  lemma AnsweredDecidesIff(cfg: Config, s: State, names: seq<Ecu>, now: real, t: State, id: OfferId)
    requires Adds(cfg, s, names, now, t) && CoordinatorRuns.Lists(s, names) && id in s.answers
    ensures DecidedBy(s, t, id) <==> id in Ids(s.pending, s.pending.Keys)
  {
    if DecidedBy(s, t, id) {
      var k :| |s.journal.verdicts| <= k < |t.journal.verdicts| && ByAnswer(t.journal.verdicts[k], id);
      assert DecidedFor(cfg, s, now, t.journal.verdicts[k]);
      AnswerNamesPending(cfg, s, now, t.journal.verdicts[k], id);
    }
    if id in Ids(s.pending, s.pending.Keys) {
      var n :| n in s.pending && s.pending[n].id == id;
      assert DecidedIn(s, t, n);
      PendingIsDecided(s, t, n);
    }
  }

  lemma AnswerNamesPending(cfg: Config, s: State, now: real, v: Verdict, id: OfferId)
    requires DecidedFor(cfg, s, now, v) && ByAnswer(v, id)
    ensures id in Ids(s.pending, s.pending.Keys)
  {
    var n :| PollRuns.Decision(cfg, s, n, now).Some? && VerdictFor(s, n, v);
    assert s.pending[n].id == id;
  }

  lemma PendingIsDecided(s: State, t: State, n: Ecu)
    requires n in s.pending && s.pending[n].id in s.answers && DecidedIn(s, t, n)
    ensures DecidedBy(s, t, s.pending[n].id)
  {
    var k :| |s.journal.verdicts| <= k < |t.journal.verdicts| && VerdictFor(s, n, t.journal.verdicts[k]);
    assert ByAnswer(t.journal.verdicts[k], s.pending[n].id);
  }

  // ---- Whose answers decide, over runs ----

  ghost predicate Explained(cfg: Config, s0: State, es: seq<Event>, v: Verdict) {
    v.basis.Driver? ==> Given(cfg, s0, es, v.basis.id, v.basis.word) || MadeAnswered(cfg, s0, es, v.basis.id)
  }

  ghost predicate AllExplained(cfg: Config, s0: State, es: seq<Event>, vs: seq<Verdict>) {
    forall k :: 0 <= k < |vs| ==> Explained(cfg, s0, es, vs[k])
  }

  lemma ExplainedStays(cfg: Config, s0: State, es: seq<Event>, e: Event, vs: seq<Verdict>)
    requires AllExplained(cfg, s0, es, vs)
    ensures AllExplained(cfg, s0, es + [e], vs)
  {
    EarlierStays(cfg, s0, es, e);
    forall k | 0 <= k < |vs| ensures Explained(cfg, s0, es + [e], vs[k]) {
      assert Explained(cfg, s0, es, vs[k]);
    }
  }

  lemma OneMoreExplained(cfg: Config, s0: State, es: seq<Event>, vs: seq<Verdict>, v: Verdict)
    requires AllExplained(cfg, s0, es, vs) && Explained(cfg, s0, es, v)
    ensures AllExplained(cfg, s0, es, vs + [v])
  {
    forall k | 0 <= k < |vs + [v]| ensures Explained(cfg, s0, es, (vs + [v])[k]) {
      assert k < |vs| ==> (vs + [v])[k] == vs[k];
    }
  }

  /** A frame adds no verdict but an approval nobody was asked for. */
  lemma FrameVerdicts(cfg: Config, s: State, f: CanFrame, i: Inputs)
    ensures var vs, ws := s.journal.verdicts, HandleFrame(cfg, s, f, i).journal.verdicts;
            ws == vs || (|ws| == |vs| + 1 && ws == vs + [ws[|vs|]] && ws[|vs|].basis == FailOpen)
  {
    if !Ignored(f) {
      var flow := FlowOf(f.canId).value;
      LockLeavesRest(Dispatch(cfg, s, flow, f.magic, f.slot.value, i), i.ready);
      if f.magic == OTA_REQ_MAGIC {
        TimingRuns.BeginIsFresh(cfg, s, flow, f.slot.value, i);
      }
    }
  }

  lemma PollExplained(cfg: Config, s0: State, es: seq<Event>, s: State, x: set<OfferId>,
                      names: seq<Ecu>, now: real, t: State)
    requires Inv(cfg, s0, es, s, x) && AllExplained(cfg, s0, es, s.journal.verdicts)
    requires ApprovalRuns.SpoolFollows(s.pending, s.offers, s.pollTimer) && Adds(cfg, s, names, now, t)
    ensures AllExplained(cfg, s0, es, t.journal.verdicts)
  {
    forall k | 0 <= k < |t.journal.verdicts| ensures Explained(cfg, s0, es, t.journal.verdicts[k]) {
      if k < |s.journal.verdicts| {
        assert t.journal.verdicts[k] == s.journal.verdicts[k];
      } else {
        assert DecidedFor(cfg, s, now, t.journal.verdicts[k]);
      }
    }
  }

  lemma StepExplained(cfg: Config, s0: State, es: seq<Event>, e: Event, s: State, x: set<OfferId>)
    requires Inv(cfg, s0, es, s, x) && AllExplained(cfg, s0, es, s.journal.verdicts) && ApprovalRuns.Inv(s, {})
    ensures AllExplained(cfg, s0, es + [e], Next(cfg, s, e).journal.verdicts)
  {
    var t := Next(cfg, s, e);
    match e {
      case Frame(f, i) =>
        FrameVerdicts(cfg, s, f, i);
        if t.journal.verdicts != s.journal.verdicts {
          OneMoreExplained(cfg, s0, es, s.journal.verdicts, t.journal.verdicts[|s.journal.verdicts|]);
        }
      case PollTick(names, now, ready) =>
        if s.pollTimer && CoordinatorRuns.Lists(s, names) {
          var u := PollEach(cfg, s, names, now, ready);
          PollAdds(cfg, s, names, now, ready);
          PollExplained(cfg, s0, es, s, x, names, now, u);
          assert t.journal == u.journal;
        }
      case _ => TimingRuns.OthersAreQuiet(cfg, s, e);
    }
    ExplainedStays(cfg, s0, es, e, t.journal.verdicts);
  }

  /** In every run, over any leftover spool: a driver's answer that decided a request was written to that
      request's own offer while it stood, or its name was already answered when the offer was made. */
  lemma {:induction false} DriverAnswersExplained(cfg: Config, offers: set<OfferId>, answers: map<OfferId, Word>,
                                                  es: seq<Event>)
    ensures var s0 := Start(offers, answers); AllExplained(cfg, s0, es, Run(cfg, s0, es).journal.verdicts)
  {
    var s0 := Start(offers, answers);
    if es != [] {
      var before, e := es[..|es| - 1], es[|es| - 1];
      assert before + [e] == es;
      DriverAnswersExplained(cfg, offers, answers, before);
      RunKeepsInv(cfg, offers, answers, before);
      ApprovalRuns.RunKeepsInv(cfg, offers, answers, before);
      RunNext(cfg, s0, before, e);
      StepExplained(cfg, s0, before, e, Run(cfg, s0, before), Stray(cfg, s0, before));
    }
  }

  // ---- What the sweep at start-up is for ----

  ghost predicate Written(es: seq<Event>, id: OfferId) {
    exists m :: 0 <= m < |es| && es[m].DriverAnswers? && es[m].id == id
  }

  lemma NextAnswers(cfg: Config, s: State, e: Event, id: OfferId)
    requires id in Next(cfg, s, e).answers
    ensures id in s.answers || (e.DriverAnswers? && e.id == id)
  {
    if e.Frame? {
      FrameOffers(cfg, s, e.frame, e.inputs);
    } else if !e.DriverAnswers? {
      OthersOnlyTake(cfg, s, e);
    }
  }

  /** In every run an answer in the spool was written in this run, or left by an earlier one without its offer. */
  lemma {:induction false} AnswersComeFrom(cfg: Config, offers: set<OfferId>, answers: map<OfferId, Word>,
                                           es: seq<Event>, id: OfferId)
    requires id in Run(cfg, Start(offers, answers), es).answers
    ensures (id in answers && id !in offers) || Written(es, id)
  {
    if es != [] {
      var before, e := es[..|es| - 1], es[|es| - 1];
      NextAnswers(cfg, Run(cfg, Start(offers, answers), before), e, id);
      if e.DriverAnswers? && e.id == id {
        assert es[|es| - 1].id == id;
      } else {
        AnswersComeFrom(cfg, offers, answers, before, id);
        if Written(before, id) {
          var m :| 0 <= m < |before| && before[m].DriverAnswers? && before[m].id == id;
          assert es[m] == before[m];
        }
      }
    }
  }

  /** In every run an answer left behind together with its offer, by a crash say, decides nothing: a verdict under
      that name takes an answer written anew. */
  lemma SweptAnswerNeverDecides(cfg: Config, offers: set<OfferId>, answers: map<OfferId, Word>, es: seq<Event>, k: nat)
    requires var vs := Run(cfg, Start(offers, answers), es).journal.verdicts;
             k < |vs| && vs[k].basis.Driver? && vs[k].basis.id in offers
    ensures Written(es, Run(cfg, Start(offers, answers), es).journal.verdicts[k].basis.id)
  {
    var s0 := Start(offers, answers);
    var v := Run(cfg, s0, es).journal.verdicts[k];
    DriverAnswersExplained(cfg, offers, answers, es);
    assert Explained(cfg, s0, es, v);
    if Given(cfg, s0, es, v.basis.id, v.basis.word) {
      var m: nat :| WrittenAt(cfg, s0, es, m, v.basis.id, v.basis.word);
      assert es[m].id == v.basis.id;
    } else {
      var m: nat :| MadeAnsweredAt(cfg, s0, es, m, v.basis.id);
      AnswersComeFrom(cfg, offers, answers, es[..m], v.basis.id);
      var j :| 0 <= j < m && es[..m][j].DriverAnswers? && es[..m][j].id == v.basis.id;
      assert es[j] == es[..m][j];
    }
  }

  // ---- When it never happens ----

  ghost predicate OfferedEver(s: State, id: OfferId) {
    exists r: nat :: r in s.journal.offered && s.journal.offered[r] == id
  }

  /** Leftover answers are to offers made before second `since`, this run makes no offer before it, and the
      head unit writes answers only to offers it can have seen: standing, made earlier in this run, or older. */
  ghost predicate Punctual(cfg: Config, s0: State, es: seq<Event>, since: int) {
    && (forall id :: id in s0.answers ==> id.second < since)
    && (forall m: nat :: m < |es| ==> PunctualAt(Run(cfg, s0, es[..m]), es[m], since))
  }

  ghost predicate PunctualAt(s: State, e: Event, since: int) {
    && (e.Frame? ==> since <= (e.inputs.now / 1000.0).Floor)
    && (e.DriverAnswers? ==> e.id in s.offers || OfferedEver(s, e.id) || e.id.second < since)
  }

  /** Then no standing offer has a stray answer. */
  ghost predicate Apart(s: State, x: set<OfferId>, since: int) {
    forall id :: id in x ==> id !in s.offers && (OfferedEver(s, id) || id.second < since)
  }

  ghost predicate Remembers(s: State, t: State) {
    forall r :: r in s.journal.offered ==> r in t.journal.offered && t.journal.offered[r] == s.journal.offered[r]
  }

  lemma RememberedEver(s: State, t: State, id: OfferId)
    requires Remembers(s, t) && OfferedEver(s, id)
    ensures OfferedEver(t, id)
  {
    var r: nat :| r in s.journal.offered && s.journal.offered[r] == id;
    assert t.journal.offered[r] == id;
  }

  lemma BeginRemembers(cfg: Config, s: State, flow: Flow, slot: int, i: Inputs)
    requires ApprovalRuns.NamesFresh(|s.journal.requests|, s.journal.offered, s.offerSeq)
    ensures Remembers(s, BeginApproval(cfg, s, flow, slot, i))
  {
    var req, s0 := |s.journal.requests|, Accept(s, flow, slot, i.now);
    if cfg.requireApproval && i.uiAvailable {
      assert Supersede(s0, flow.name).journal.offered == s.journal.offered;
      OfferRemembers(Supersede(s0, flow.name), req, flow, slot, i);
    } else {
      assert ApproveUnasked(s0, req, flow, slot, i.now).journal.offered == s.journal.offered;
    }
  }

  lemma OfferRemembers(s: State, req: nat, flow: Flow, slot: int, i: Inputs)
    requires req !in s.journal.offered
    ensures Remembers(s, MakeOffer(s, req, flow, slot, i))
  {
  }

  lemma {:induction false} PollRemembers(cfg: Config, s: State, names: seq<Ecu>, now: real, ready: bool)
    ensures PollEach(cfg, s, names, now, ready).journal.offered == s.journal.offered
  {
    if names != [] {
      var u, n := PollEach(cfg, s, names[..|names| - 1], now, ready), names[|names| - 1];
      PollRemembers(cfg, s, names[..|names| - 1], now, ready);
      PollRuns.PollOneDecides(cfg, u, n, now, ready);
      var d := PollRuns.Decision(cfg, u, n, now);
      if d.Some? {
        ResolveAdds(u, n, d.value, PollRuns.BasisOf(u, n), now, ready);
      }
    }
  }

  lemma NextRemembers(cfg: Config, s: State, e: Event)
    requires ApprovalRuns.NamesFresh(|s.journal.requests|, s.journal.offered, s.offerSeq)
    ensures Remembers(s, Next(cfg, s, e))
  {
    match e {
      case Frame(f, i) =>
        if !Ignored(f) {
          var flow := FlowOf(f.canId).value;
          LockLeavesRest(Dispatch(cfg, s, flow, f.magic, f.slot.value, i), i.ready);
          if f.magic == OTA_REQ_MAGIC {
            BeginRemembers(cfg, s, flow, f.slot.value, i);
          }
        }
      case PollTick(names, now, ready) => PollRemembers(cfg, s, names, now, ready);
      case TimeoutTick(now, ready) => LockLeavesRest(s.(active := s.active - Expired(cfg, s, now)), ready);
      case SelfStarted(now, ready) => LockLeavesRest(Begun(s, now), ready);
      case SelfFinished(ready) => LockLeavesRest(s.(active := s.active - {Jetson}), ready);
      case Drained(ready) => LockLeavesRest(s, ready);
      case Done(success) =>
      case DriverAnswers(id, word) =>
      case Stop =>
    }
  }

  lemma StepApart(cfg: Config, s: State, e: Event, x: set<OfferId>, since: int)
    requires Apart(s, x, since) && PunctualAt(s, e, since)
    requires ApprovalRuns.NamesFresh(|s.journal.requests|, s.journal.offered, s.offerSeq)
    ensures Apart(Next(cfg, s, e), StrayNext(x, s, e, Next(cfg, s, e)), since)
  {
    var t := Next(cfg, s, e);
    NextRemembers(cfg, s, e);
    match e {
      case DriverAnswers(id, word) => assert t.offers == s.offers && t.journal == s.journal;
      case Frame(f, i) => FrameOffers(cfg, s, f, i);
      case _ => OthersOnlyTake(cfg, s, e);
    }
    forall id | id in StrayNext(x, s, e, t) ensures id !in t.offers && (OfferedEver(t, id) || id.second < since) {
      if id in x && OfferedEver(s, id) {
        RememberedEver(s, t, id);
      }
    }
  }

  lemma {:induction false} RunApart(cfg: Config, offers: set<OfferId>, answers: map<OfferId, Word>, es: seq<Event>,
                                    since: int)
    requires Punctual(cfg, Start(offers, answers), es, since)
    ensures var s0 := Start(offers, answers); Apart(Run(cfg, s0, es), Stray(cfg, s0, es), since)
  {
    var s0 := Start(offers, answers);
    if es != [] {
      var before, e := es[..|es| - 1], es[|es| - 1];
      assert before + [e] == es;
      forall m: nat | m < |before| ensures PunctualAt(Run(cfg, s0, before[..m]), before[m], since) {
        assert before[..m] == es[..m] && PunctualAt(Run(cfg, s0, es[..m]), es[m], since);
      }
      RunApart(cfg, offers, answers, before, since);
      ApprovalRuns.RunKeepsInv(cfg, offers, answers, before);
      RunNext(cfg, s0, before, e);
      assert PunctualAt(Run(cfg, s0, before), es[|before|], since);
      StepApart(cfg, Run(cfg, s0, before), e, Stray(cfg, s0, before), since);
    }
  }

  lemma ApartSoFar(cfg: Config, offers: set<OfferId>, answers: map<OfferId, Word>, es: seq<Event>, since: int, n: nat)
    requires Punctual(cfg, Start(offers, answers), es, since) && n <= |es|
    ensures var s0 := Start(offers, answers); Apart(Run(cfg, s0, es[..n]), Stray(cfg, s0, es[..n]), since)
  {
    PunctualSoFar(cfg, Start(offers, answers), es, since, n);
    RunApart(cfg, offers, answers, es[..n], since);
  }

  lemma NeverMadeAnswered(cfg: Config, offers: set<OfferId>, answers: map<OfferId, Word>, es: seq<Event>, since: int,
                          m: nat, id: OfferId)
    requires Punctual(cfg, Start(offers, answers), es, since)
    ensures !MadeAnsweredAt(cfg, Start(offers, answers), es, m, id)
  {
    if MadeAnsweredAt(cfg, Start(offers, answers), es, m, id) {
      assert es[..m] + [es[m]] == es[..m + 1];
      MadeAnsweredIsStray(cfg, offers, answers, es[..m], es[m], id);
      ApartSoFar(cfg, offers, answers, es, since, m + 1);
    }
  }

  lemma MadeAnsweredIsStray(cfg: Config, offers: set<OfferId>, answers: map<OfferId, Word>, es: seq<Event>, e: Event,
                            id: OfferId)
    requires var s0 := Start(offers, answers);
             && id !in Run(cfg, s0, es).offers && id in Run(cfg, s0, es).answers
             && id in Run(cfg, s0, es + [e]).offers
    ensures id in Stray(cfg, Start(offers, answers), es + [e])
  {
    RunNext(cfg, Start(offers, answers), es, e);
    OnlyFramesOffer(cfg, Run(cfg, Start(offers, answers), es), e, id);
    NewOfferStrayIff(cfg, offers, answers, es, e.frame, e.inputs, id);
  }

  lemma OnlyFramesOffer(cfg: Config, s: State, e: Event, id: OfferId)
    requires id in Next(cfg, s, e).offers && id !in s.offers
    ensures e.Frame?
  {
    if !e.Frame? && !e.DriverAnswers? {
      OthersOnlyTake(cfg, s, e);
    }
  }

  lemma PunctualSoFar(cfg: Config, s0: State, es: seq<Event>, since: int, n: nat)
    requires Punctual(cfg, s0, es, since) && n <= |es|
    ensures Punctual(cfg, s0, es[..n], since)
  {
    forall m: nat | m < n ensures PunctualAt(Run(cfg, s0, es[..n][..m]), es[..n][m], since) {
      assert es[..n][..m] == es[..m] && PunctualAt(Run(cfg, s0, es[..m]), es[m], since);
    }
  }

  /** In every such run a driver's answer decides only the request of the very offer it was written to, while
      that offer stood. */
  lemma EveryAnswerIsGiven(cfg: Config, offers: set<OfferId>, answers: map<OfferId, Word>, es: seq<Event>, since: int)
    requires Punctual(cfg, Start(offers, answers), es, since)
    ensures var s0 := Start(offers, answers);
            var vs := Run(cfg, s0, es).journal.verdicts;
            forall k :: 0 <= k < |vs| && vs[k].basis.Driver? ==> Given(cfg, s0, es, vs[k].basis.id, vs[k].basis.word)
  {
    var s0 := Start(offers, answers);
    var vs := Run(cfg, s0, es).journal.verdicts;
    DriverAnswersExplained(cfg, offers, answers, es);
    forall k | 0 <= k < |vs| && vs[k].basis.Driver? ensures Given(cfg, s0, es, vs[k].basis.id, vs[k].basis.word) {
      assert Explained(cfg, s0, es, vs[k]);
      forall m: nat ensures !MadeAnsweredAt(cfg, s0, es, m, vs[k].basis.id) {
        NeverMadeAnswered(cfg, offers, answers, es, since, m, vs[k].basis.id);
      }
    }
  }

  // ---- A run in which it happens ----

  /** An earlier run left an approval of the name this run's first offer gets: nobody answers, silence is to
      deny, and the request is approved. */
  lemma LeftoverApproves(cfg: Config, t: real)
    requires cfg.requireApproval && !cfg.approveOnNoVerdict && 0.0 <= t < 900.0
    ensures var id := OfferId(Cluster, 0, 1);
            var req := Frame(CanFrame(CAN_ID_OTA_REQ, 8, OTA_REQ_MAGIC, Some(0)), Inputs(t, true, true, true));
            var s := Run(cfg, Start({}, map[id := Approve]), [req, PollTick([Cluster], t + 100.0, true)]);
            && |s.journal.verdicts| == 1 && s.journal.verdicts[0].approved
            && s.journal.verdicts[0].basis == Driver(id, Approve) && Cluster in s.active
  {
    var id, i := OfferId(Cluster, 0, 1), Inputs(t, true, true, true);
    var s0 := Start({}, map[id := Approve]);
    var req := Frame(CanFrame(CAN_ID_OTA_REQ, 8, OTA_REQ_MAGIC, Some(0)), i);
    var poll := PollTick([Cluster], t + 100.0, true);
    assert (t / 1000.0).Floor == 0;
    assert s0.answers == map[id := Approve];
    RunNext(cfg, s0, [], req);
    RunNext(cfg, s0, [req], poll);
    assert [] + [req] == [req] && [req] + [poll] == [req, poll];
    PollRuns.AsksTheDriver(cfg, s0, req.frame, i);
    FrameVerdictsOfAsking(cfg, s0, req.frame, i);
    AnswerApproves(cfg, Run(cfg, s0, [req]), id, t + 100.0);
  }

  lemma FrameVerdictsOfAsking(cfg: Config, s: State, f: CanFrame, i: Inputs)
    requires cfg.requireApproval && i.uiAvailable && i.offerWritten && !Ignored(f) && f.magic == OTA_REQ_MAGIC
    ensures HandleFrame(cfg, s, f, i).journal.verdicts == s.journal.verdicts
  {
    var flow := FlowOf(f.canId).value;
    LockLeavesRest(BeginApproval(cfg, s, flow, f.slot.value, i), i.ready);
  }

  lemma AnswerApproves(cfg: Config, s: State, id: OfferId, now: real)
    requires s.pollTimer && s.pending.Keys == {Cluster} && s.pending[Cluster].id == id && s.journal.verdicts == []
    requires id in s.answers && s.answers[id] == Approve
    ensures var t := Next(cfg, s, PollTick([Cluster], now, true));
            && |t.journal.verdicts| == 1 && t.journal.verdicts[0].approved
            && t.journal.verdicts[0].basis == Driver(id, Approve) && Cluster in t.active
  {
    assert CoordinatorRuns.Lists(s, [Cluster]) && [Cluster][..0] == [];
    assert PollEach(cfg, s, [Cluster], now, true) == PollOne(cfg, s, Cluster, now, true);
    ResolveAdds(s, Cluster, true, Driver(id, Approve), now, true);
  }

  // ---- Two verdicts to one requester ----

  const REQUEST_FRAME := CanFrame(CAN_ID_OTA_REQ, 8, OTA_REQ_MAGIC, Some(0))

  /** The cluster asks, asks again with the head unit gone, and the driver then denies the first card. */
  const ASK_TWICE: seq<Event> :=
    [Frame(REQUEST_FRAME, Inputs(0.0, true, true, true)), Frame(REQUEST_FRAME, Inputs(0.0, false, true, true)),
     DriverAnswers(OfferId(Cluster, 0, 1), Deny), PollTick([Cluster], 100.0, true)]

  /** The cluster is told to go ahead and then not to, on one CAN id, and stays active: the vehicle is held. */
  lemma ApprovedThenDenied(cfg: Config)
    requires cfg.requireApproval
    ensures var s := Run(cfg, Start({}, map[]), ASK_TWICE);
            var vs := s.journal.verdicts;
            && |vs| == 2 && vs[0].canId == vs[1].canId == CAN_ID_OTA_APPROVE
            && vs[0].approved && vs[0].req == 1 && !vs[1].approved && vs[1].req == 0
            && Cluster in s.active && s.calls == [Lock]
  {
    var s0 := Start({}, map[]);
    var first, second := Inputs(0.0, true, true, true), Inputs(0.0, false, true, true);
    AskTwiceIs(cfg, s0);
    PollRuns.AsksTheDriver(cfg, s0, REQUEST_FRAME, first);
    AskedCarries(cfg, s0, first);
    var s1 := Next(cfg, s0, Frame(REQUEST_FRAME, first));
    ApprovedBeside(cfg, s1, second);
    var s2 := Next(cfg, s1, Frame(REQUEST_FRAME, second));
    DeniedBeside(cfg, Next(cfg, s2, DriverAnswers(OfferId(Cluster, 0, 1), Deny)));
  }

  lemma AskTwiceIs(cfg: Config, s0: State)
    ensures var s1 := Next(cfg, s0, Frame(REQUEST_FRAME, Inputs(0.0, true, true, true)));
            var s2 := Next(cfg, s1, Frame(REQUEST_FRAME, Inputs(0.0, false, true, true)));
            Run(cfg, s0, ASK_TWICE) ==
              Next(cfg, Next(cfg, s2, DriverAnswers(OfferId(Cluster, 0, 1), Deny)), PollTick([Cluster], 100.0, true))
  {
    assert ASK_TWICE[..0] == [] && ASK_TWICE[..4] == ASK_TWICE;
    PollRuns.RunStep(cfg, s0, ASK_TWICE, 0);
    PollRuns.RunStep(cfg, s0, ASK_TWICE, 1);
    PollRuns.RunStep(cfg, s0, ASK_TWICE, 2);
    PollRuns.RunStep(cfg, s0, ASK_TWICE, 3);
  }

  predicate OneWaits(s: State) {
    && s.pollTimer && s.pending.Keys == {Cluster} && s.pending[Cluster].id == OfferId(Cluster, 0, 1)
    && s.pending[Cluster].req == 0 && s.pending[Cluster].flow == FlowOf(CAN_ID_OTA_REQ).value
  }

  lemma AskedCarries(cfg: Config, s: State, i: Inputs)
    requires cfg.requireApproval && i.uiAvailable && i.offerWritten && Cluster !in s.pending && s.active == map[]
    requires !s.isLocked && !s.lockPending
    ensures var t := Next(cfg, s, Frame(REQUEST_FRAME, i));
            && Cluster in t.pending && t.pending[Cluster].req == |s.journal.requests|
            && t.pending[Cluster].flow == FlowOf(CAN_ID_OTA_REQ).value
            && |t.journal.requests| == |s.journal.requests| + 1
            && t.journal.verdicts == s.journal.verdicts && t.calls == s.calls
  {
  }

  lemma ApprovedBeside(cfg: Config, s: State, i: Inputs)
    requires OneWaits(s) && !i.uiAvailable && i.ready && !s.lockPending && !s.isLocked
    ensures var t, req := Next(cfg, s, Frame(REQUEST_FRAME, i)), |s.journal.requests|;
            var v := Verdict(req, CAN_ID_OTA_APPROVE, DID_CLUSTER_APPROVE, 0, true, FailOpen, i.now);
            && OneWaits(t) && Cluster in t.active && t.lockPending && t.calls == s.calls + [Lock]
            && t.journal.verdicts == s.journal.verdicts + [v] && t.answers == s.answers
  {
    var flow := FlowOf(CAN_ID_OTA_REQ).value;
    var u := BeginApproval(cfg, s, flow, 0, i);
    assert Cluster in u.active;
  }

  lemma DeniedBeside(cfg: Config, s: State)
    requires OneWaits(s) && s.pending[Cluster].id in s.answers && s.answers[s.pending[Cluster].id] == Deny
    requires s.lockPending && Cluster in s.active
    ensures var t := Next(cfg, s, PollTick([Cluster], 100.0, true));
            && Cluster in t.active && t.calls == s.calls
            && |t.journal.verdicts| == |s.journal.verdicts| + 1 && s.journal.verdicts <= t.journal.verdicts
            && var v := t.journal.verdicts[|s.journal.verdicts|];
               !v.approved && v.req == 0 && v.canId == CAN_ID_OTA_APPROVE
  {
    assert CoordinatorRuns.Lists(s, [Cluster]) && [Cluster][..0] == [];
    assert PollEach(cfg, s, [Cluster], 100.0, true) == PollOne(cfg, s, Cluster, 100.0, true);
    ResolveAdds(s, Cluster, false, Driver(OfferId(Cluster, 0, 1), Deny), 100.0, true);
  }
}
