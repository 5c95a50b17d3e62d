/** Whose update begins and ends when, told from the frames, timers and answers. Numbers are written out here,
    not taken from the node's constants. */
module ActiveRuns {
  import opened Options
  import opened Coordinator
  import opened CoordinatorRuns
  import ApprovalRuns
  import PollRuns

  /** The CAN id an ECU speaks on. */
  predicate SpeaksOn(n: Ecu, canId: int) { (n == Cluster && canId == 0x300) || (n == Esp32 && canId == 0x310) }

  /** A verified frame of n with that magic byte. */
  predicate FrameOf(f: CanFrame, n: Ecu, magic: int) {
    f.dlc >= 8 && SpeaksOn(n, f.canId) && f.magic == magic && f.slot.Some?
  }

  predicate RequestOf(f: CanFrame, n: Ecu) { FrameOf(f, n, 0xA5) }
  predicate RunningOf(f: CanFrame, n: Ecu) { FrameOf(f, n, 0x5A) }

  /** Whether the driver can be asked. */
  predicate CanAsk(cfg: Config, i: Inputs) { cfg.requireApproval && i.uiAvailable && i.offerWritten }

  /** Event e ends n's update: n itself reports that it runs, its time is over at a tick of the living timer,
      or the computer reports itself done. */
  predicate Ends(cfg: Config, s: State, e: Event, n: Ecu)
    requires n in s.active
  {
    || (e.Frame? && RunningOf(e.frame, n))
    || (e.TimeoutTick? && s.timeoutTimer && e.now > s.active[n] + cfg.timeoutMs)
    || (e.SelfFinished? && n == Jetson)
  }

  /** A poll at time now approves n: by the answer there, or for want of one once the deadline is past. */
  predicate PollApproves(cfg: Config, s: State, now: real, n: Ecu) {
    && n in s.pending
    && if s.pending[n].id in s.answers then s.answers[s.pending[n].id] == Approve
       else cfg.approveOnNoVerdict && now >= s.pending[n].deadline
  }

  /** Event e starts n's update, anew if there is one: n asks and nobody can be asked, a poll approves n, or
      the computer starts its own. */
  ghost predicate Begins(cfg: Config, s: State, e: Event, n: Ecu) {
    || (e.Frame? && RequestOf(e.frame, n) && !CanAsk(cfg, e.inputs))
    || (e.PollTick? && s.pollTimer && CoordinatorRuns.Lists(s, e.names) && PollApproves(cfg, s, e.now, n))
    || (e.SelfStarted? && n == Jetson)
  }

  function TimeOf(e: Event): real
    requires e.Frame? || e.PollTick? || e.SelfStarted?
  {
    match e
    case Frame(_, i) => i.now
    case PollTick(_, now, _) => now
    case SelfStarted(now, _) => now
  }

  /** t's active updates are those event e started, and those of s it did not end, with their times. */
  ghost predicate Follows(cfg: Config, s: State, e: Event, t: State) {
    forall n :: if Begins(cfg, s, e, n) then n in t.active && t.active[n] == TimeOf(e)
                else if n in s.active && !Ends(cfg, s, e, n) then n in t.active && t.active[n] == s.active[n]
                else n !in t.active
  }

  // ---- Frames ----

  /** What a request does to the active set. */
  lemma BeginActive(cfg: Config, s: State, flow: Flow, slot: int, i: Inputs)
    ensures BeginApproval(cfg, s, flow, slot, i).active ==
              if CanAsk(cfg, i) then s.active else s.active[flow.name := i.now]
  {
    if cfg.requireApproval && i.uiAvailable {
      var s0 := Accept(s, flow, slot, i.now);
      assert Supersede(s0, flow.name).active == s.active;
      OfferActive(Supersede(s0, flow.name), |s.journal.requests|, flow, slot, i);
    }
  }

  lemma OfferActive(s: State, req: nat, flow: Flow, slot: int, i: Inputs)
    ensures MakeOffer(s, req, flow, slot, i).active == if i.offerWritten then s.active else s.active[flow.name := i.now]
  {
  }

  lemma DispatchActive(cfg: Config, s: State, f: CanFrame, i: Inputs)
    requires !Ignored(f)
    ensures Follows(cfg, s, Frame(f, i), Dispatch(cfg, s, FlowOf(f.canId).value, f.magic, f.slot.value, i))
  {
    var flow := FlowOf(f.canId).value;
    var t := Dispatch(cfg, s, flow, f.magic, f.slot.value, i);
    assert forall n :: SpeaksOn(n, f.canId) <==> n == flow.name;
    if f.magic == OTA_REQ_MAGIC {
      BeginActive(cfg, s, flow, f.slot.value, i);
      assert forall n :: RequestOf(f, n) <==> n == flow.name;
      assert forall n :: !RunningOf(f, n);
    } else {
      assert t.active == s.active - {flow.name};
      assert forall n :: RunningOf(f, n) <==> n == flow.name;
    }
  }

  lemma SameActive(cfg: Config, s: State, e: Event, t: State, u: State)
    requires Follows(cfg, s, e, t) && u.active == t.active
    ensures Follows(cfg, s, e, u)
  {
  }

  lemma FrameActive(cfg: Config, s: State, f: CanFrame, i: Inputs)
    ensures Follows(cfg, s, Frame(f, i), HandleFrame(cfg, s, f, i))
  {
    if !Ignored(f) {
      var t := Dispatch(cfg, s, FlowOf(f.canId).value, f.magic, f.slot.value, i);
      DispatchActive(cfg, s, f, i);
      LockLeavesRest(t, i.ready);
      SameActive(cfg, s, Frame(f, i), t, HandleFrame(cfg, s, f, i));
    }
  }

  // ---- Polls ----

  lemma ResolveActive(s: State, n: Ecu, approved: bool, basis: Basis, now: real, ready: bool)
    requires n in s.pending
    ensures Resolve(s, n, approved, basis, now, ready).active == if approved then s.active[n := now] else s.active
  {
    var p := s.pending[n];
    var s2 := SendVerdict(Removed(s, n), p.req, p.flow, p.slot, approved, basis, now);
    LockLeavesRest(if approved then s2.(active := s2.active[n := now]) else s2, ready);
  }

  ghost predicate PolledActive(cfg: Config, s: State, names: seq<Ecu>, now: real, t: State) {
    forall n :: if n in names && PollApproves(cfg, s, now, n) then n in t.active && t.active[n] == now
                else if n in s.active then n in t.active && t.active[n] == s.active[n]
                else n !in t.active
  }

  lemma ApprovesIsDecision(cfg: Config, s: State, now: real, n: Ecu)
    ensures PollApproves(cfg, s, now, n) <==> PollRuns.Decision(cfg, s, n, now) == Some(true)
  {
  }

  lemma OneMorePolled(cfg: Config, s: State, names: seq<Ecu>, now: real, u: State, n: Ecu, t: State)
    requires PolledActive(cfg, s, names, now, u)
    requires t.active == if PollApproves(cfg, s, now, n) then u.active[n := now] else u.active
    ensures PolledActive(cfg, s, names + [n], now, t)
  {
  }

  lemma {:induction false} PollActive(cfg: Config, s: State, names: seq<Ecu>, now: real, ready: bool)
    requires ApprovalRuns.Inv(s, {})
    ensures PolledActive(cfg, s, names, now, PollEach(cfg, s, names, now, ready))
  {
    if names != [] {
      var before, n := names[..|names| - 1], names[|names| - 1];
      var u, t := PollEach(cfg, s, before, now, ready), PollEach(cfg, s, names, now, ready);
      assert before + [n] == names;
      PollActive(cfg, s, before, now, ready);
      PollStep(cfg, s, before, n, now, ready);
      if n in before && PollApproves(cfg, s, now, n) {
        assert u.active[n] == now;
        assert u.active[n := now] == u.active;
      }
      OneMorePolled(cfg, s, before, now, u, n, t);
    }
  }

  /** A name met again finds nothing to decide. */
  lemma PollStep(cfg: Config, s: State, before: seq<Ecu>, n: Ecu, now: real, ready: bool)
    requires ApprovalRuns.Inv(s, {})
    ensures var u := PollEach(cfg, s, before, now, ready);
            PollOne(cfg, u, n, now, ready).active ==
              if n !in before && PollApproves(cfg, s, now, n) then u.active[n := now] else u.active
  {
    var u := PollEach(cfg, s, before, now, ready);
    PollRuns.PollEachLeaves(cfg, s, before, now, ready);
    PollRuns.PollOneDecides(cfg, u, n, now, ready);
    ApprovesIsDecision(cfg, s, now, n);
    var d := PollRuns.Decision(cfg, u, n, now);
    if d.Some? {
      ResolveActive(u, n, d.value, PollRuns.BasisOf(u, n), now, ready);
    }
  }

  // ---- Every event ----

  lemma TickActive(cfg: Config, s: State, now: real, ready: bool)
    ensures var e := TimeoutTick(now, ready); Follows(cfg, s, e, Next(cfg, s, e))
  {
    var e, t := TimeoutTick(now, ready), Next(cfg, s, TimeoutTick(now, ready));
    var expired := Expired(cfg, s, now);
    assert forall n :: !Begins(cfg, s, e, n);
    if s.timeoutTimer {
      LockLeavesRest(s.(active := s.active - expired), ready);
      assert expired == {} ==> s.active - expired == s.active;
      assert t.active == s.active - expired;
      assert forall n :: n in s.active ==> (n in expired <==> Ends(cfg, s, e, n));
    } else {
      assert t == s;
    }
  }

  lemma OthersActive(cfg: Config, s: State, e: Event)
    requires !e.Frame? && !e.PollTick? && !e.TimeoutTick?
    ensures Follows(cfg, s, e, Next(cfg, s, e))
  {
    match e {
      case SelfStarted(now, ready) => LockLeavesRest(Begun(s, now), ready);
      case SelfFinished(ready) => LockLeavesRest(s.(active := s.active - {Jetson}), ready);
      case Drained(ready) => LockLeavesRest(s, ready);
      case Done(success) =>
      case DriverAnswers(id, word) =>
      case Stop =>
    }
  }

  lemma NextActive(cfg: Config, s: State, e: Event)
    requires ApprovalRuns.Inv(s, {})
    ensures Follows(cfg, s, e, Next(cfg, s, e))
  {
    match e {
      case Frame(f, i) => FrameActive(cfg, s, f, i);
      case PollTick(names, now, ready) =>
        PollActive(cfg, s, names, now, ready);
        PollFollows(cfg, s, names, now, ready);
      case TimeoutTick(now, ready) => TickActive(cfg, s, now, ready);
      case _ => OthersActive(cfg, s, e);
    }
  }

  lemma PollFollows(cfg: Config, s: State, names: seq<Ecu>, now: real, ready: bool)
    requires PolledActive(cfg, s, names, now, PollEach(cfg, s, names, now, ready))
    ensures var e := PollTick(names, now, ready); Follows(cfg, s, e, Next(cfg, s, e))
  {
  }

  /** At every event of every run: n's update is active before and not after if and only if the event is n's own
      verified RUNNING, a tick of the living timeout timer later than its start plus the limit, or, for the
      computer, its own report; and one that survives keeps its time unless n is started anew. */
  lemma UpdatesEndIff(cfg: Config, offers: set<OfferId>, answers: map<OfferId, Word>, es: seq<Event>, k: nat, n: Ecu)
    requires k < |es| && n in Run(cfg, Start(offers, answers), es[..k]).active
    ensures var s, t := Run(cfg, Start(offers, answers), es[..k]), Run(cfg, Start(offers, answers), es[..k + 1]);
            && (n !in t.active <==> Ends(cfg, s, es[k], n))
            && (n in t.active && !Begins(cfg, s, es[k], n) ==> t.active[n] == s.active[n])
  {
    StepOf(cfg, offers, answers, es, k);
    var s := Run(cfg, Start(offers, answers), es[..k]);
    if es[k].PollTick? || es[k].SelfStarted? || es[k].Frame? {
      assert Begins(cfg, s, es[k], n) ==> !Ends(cfg, s, es[k], n);
    }
  }

  /** And n has an active update after an event that it had not before, or with a new time, only if the event
      is its request when nobody can be asked, a poll that approves it, or the start of a self-update; each of
      these does start it, at the event's time. */
  lemma UpdatesBeginIff(cfg: Config, offers: set<OfferId>, answers: map<OfferId, Word>, es: seq<Event>, k: nat, n: Ecu)
    requires k < |es|
    ensures var s, t := Run(cfg, Start(offers, answers), es[..k]), Run(cfg, Start(offers, answers), es[..k + 1]);
            && (Begins(cfg, s, es[k], n) ==> n in t.active && t.active[n] == TimeOf(es[k]))
            && (n in t.active && (n !in s.active || t.active[n] != s.active[n]) ==> Begins(cfg, s, es[k], n))
  {
    StepOf(cfg, offers, answers, es, k);
  }

  lemma StepOf(cfg: Config, offers: set<OfferId>, answers: map<OfferId, Word>, es: seq<Event>, k: nat)
    requires k < |es|
    ensures var s, t := Run(cfg, Start(offers, answers), es[..k]), Run(cfg, Start(offers, answers), es[..k + 1]);
            Follows(cfg, s, es[k], t)
  {
    assert es[..k + 1][..k] == es[..k];
    ApprovalRuns.RunKeepsInv(cfg, offers, answers, es[..k]);
    NextActive(cfg, Run(cfg, Start(offers, answers), es[..k]), es[k]);
  }
}
