/** The coordinator and the stop server joined by an asynchronous service call, with restarts on either side.
    The coordinator is the only caller; a call that fails has not reached the server. */
module LockProtocol {
  import opened Options
  import C = Coordinator
  import R = CoordinatorRuns
  import L = LockRuns
  import P = PollRuns
  import S = StopServer

  datatype Channel = Idle | Requested(call: C.Label) | Answered(call: C.Label, success: bool)

  /** `orphans` are requests of earlier coordinators that may still reach the server. `executed` lists the
      calls of the present coordinator the server carried out, oldest first, `past` those of each earlier one
      while it lived; `completed` counts those whose answer the present one has seen. `found` is whether the
      server was locked when the present coordinator started, and `imposed` what the lock was last set to
      since the present coordinator's last call by anything else: what it found, an orphan carried out late, a
      restart of the server. */
  datatype System = System(coord: C.State, server: S.State, channel: Channel, orphans: seq<C.Label>,
                           past: seq<seq<C.Label>>, executed: seq<C.Label>, completed: nat,
                           found: bool, imposed: Option<C.Label>)

  datatype Event =
    | Coordinate(ce: R.Event)
    | Serve(se: S.Event)
    | Execute
    | Fail
    | Answer
    | Restart
    | CarryOutLate(k: nat)
    | Lose(k: nat)
    | ServerRestart

  function Last(calls: seq<C.Label>): C.Label
    requires calls != []
  {
    calls[|calls| - 1]
  }

  function Asking(call: C.Label): S.Event { if call == C.Lock then S.Lock else S.Unlock }

  function Without(calls: seq<C.Label>, k: nat): seq<C.Label>
    requires k < |calls|
  {
    calls[..k] + calls[k + 1..]
  }

  /** The coordinator starts over on the spool it left; the answer to its call in flight goes nowhere, and the
      call itself, if it has not been carried out, may be lost or carried out at any later time. */
  function Restarted(s: System): System {
    s.(coord := C.Start(s.coord.offers, s.coord.answers), channel := Idle,
       orphans := if s.channel.Requested? then s.orphans + [s.channel.call] else s.orphans,
       past := s.past + [s.executed], executed := [], completed := 0,
       found := s.server.locked, imposed := Some(if s.server.locked then C.Lock else C.Unlock))
  }

  /** Coordinator events other than call completion and server events other than lock and unlock
      happen on their own; these three only through the channel. */
  ghost function Next(cfg: C.Config, s: System, e: Event): System {
    match e
    case Coordinate(ce) =>
      if ce.Done? then s
      else
        var t := R.Next(cfg, s.coord, ce);
        if !s.coord.lockPending && t.lockPending && t.calls != []
        then s.(coord := t, channel := Requested(Last(t.calls)))
        else s.(coord := t)
    case Serve(se) => if se.Lock? || se.Unlock? then s else s.(server := S.Next(s.server, se))
    case Execute =>
      if !s.channel.Requested? then s
      else s.(server := S.Next(s.server, Asking(s.channel.call)), channel := Answered(s.channel.call, true),
              executed := s.executed + [s.channel.call], imposed := None)
    case Fail => if !s.channel.Requested? then s else s.(channel := Answered(s.channel.call, false))
    case Answer =>
      if !s.channel.Answered? then s
      else s.(coord := C.ServiceDone(s.coord, s.channel.call, s.channel.success), channel := Idle,
              completed := s.completed + 1)
    case Restart => Restarted(s)
    case CarryOutLate(k) =>
      if k >= |s.orphans| then s
      else s.(server := S.Next(s.server, Asking(s.orphans[k])), orphans := Without(s.orphans, k),
              imposed := Some(s.orphans[k]))
    case Lose(k) => if k >= |s.orphans| then s else s.(orphans := Without(s.orphans, k))
    case ServerRestart => s.(server := S.Init(s.server.restoreEnabled), imposed := Some(C.Unlock))
  }

  ghost function Run(cfg: C.Config, s0: System, es: seq<Event>): System {
    if es == [] then s0 else Next(cfg, Run(cfg, s0, es[..|es| - 1]), es[|es| - 1])
  }

  ghost function Boot(offers: set<C.OfferId>, answers: map<C.OfferId, C.Word>, restoreGoal: bool): System {
    System(C.Start(offers, answers), S.Init(restoreGoal), Idle, [], [], [], 0, false, None)
  }

  ghost predicate Alternates(calls: seq<C.Label>) {
    forall k :: 0 <= k < |calls| ==> (calls[k] == C.Lock <==> k % 2 == 0)
  }

  /** What the present coordinator's own calls have made of the lock. */
  predicate OwnView(s: System) {
    if s.channel.Answered? && s.channel.success then s.channel.call == C.Lock else s.coord.isLocked
  }

  /** What either side believes about the lock, per stage of the call in flight. */
  ghost predicate Inv(s: System) {
    && (s.coord.lockPending <==> !s.channel.Idle?)
    && |s.coord.calls| == s.completed + (if s.coord.lockPending then 1 else 0)
    && (s.coord.lockPending ==>
          && s.channel.call == Last(s.coord.calls)
          && (s.channel.call == C.Lock <==> !s.coord.isLocked))
    && (if s.coord.calls == [] then !s.coord.isLocked && !s.coord.lockPending else s.coord.calls[0] == C.Lock)
    && s.server.locked == (if s.imposed.Some? then s.imposed.value == C.Lock else OwnView(s))
    && Alternates(s.executed) && (OwnView(s) <==> |s.executed| % 2 == 1)
    && (forall l :: l in s.past ==> Alternates(l))
  }

  // ---- When the coordinator calls ----

  /** How one coordinator event may change its lock side: a new call asks for the opposite of the
      lock state it knows, and there is none while another is in flight. */
  lemma CoordinatorStep(cfg: C.Config, s: C.State, e: R.Event)
    requires !e.Done?
    ensures var t := R.Next(cfg, s, e);
            && t.isLocked == s.isLocked
            && (s.lockPending ==> t.lockPending)
            && t.calls == s.calls +
                 if t.lockPending && !s.lockPending then [if s.isLocked then C.Unlock else C.Lock] else []
  {
    match e {
      case PollTick(names, now, ready) => L.PollEachPolled(cfg, s, names, now, ready);
      case DriverAnswers(_, _) =>
      case Stop =>
      case _ => L.HandlersUpdate(cfg, s, e);
    }
  }

  /** m is the coordinator's state at the moment event e has it call: of a poll, right after one of the
      requests it looks at; of any other event, at its end. */
  ghost predicate AtRequest(cfg: C.Config, s: C.State, e: R.Event, m: C.State) {
    if e.PollTick? then exists k: nat :: P.CalledAt(cfg, s, e.names, e.now, e.ready, k, m) else m == R.Next(cfg, s, e)
  }

  /** At the moment of the call, a lock is asked for with a non-empty active set and an unlock with an empty
      one, whatever the event. */
  lemma CallsMatchTheSet(cfg: C.Config, s: C.State, e: R.Event) returns (m: C.State)
    requires !s.lockPending && R.Next(cfg, s, e).lockPending
    ensures AtRequest(cfg, s, e, m)
    ensures m.calls == s.calls + [if m.active == map[] then C.Unlock else C.Lock] == R.Next(cfg, s, e).calls
  {
    m := R.Next(cfg, s, e);
    if e.PollTick? {
      var k;
      k, m := P.PollCallsAt(cfg, s, e.names, e.now, e.ready);
    } else {
      HandlerCalls(cfg, s, e);
    }
  }

  lemma HandlerCalls(cfg: C.Config, s: C.State, e: R.Event)
    requires !s.lockPending && R.Next(cfg, s, e).lockPending && !e.PollTick?
    ensures var t := R.Next(cfg, s, e); t.calls == s.calls + [if t.active == map[] then C.Unlock else C.Lock]
  {
    match e {
      case Done(_) =>
      case DriverAnswers(_, _) =>
      case Stop =>
      case _ => L.HandlersUpdate(cfg, s, e);
    }
  }

  // ---- Agreement ----

  lemma CoordinateKeepsInv(cfg: C.Config, s: System, ce: R.Event)
    requires Inv(s) && !ce.Done?
    ensures Inv(Next(cfg, s, Coordinate(ce)))
  {
    CoordinatorStep(cfg, s.coord, ce);
    StepKeepsInv(s, R.Next(cfg, s.coord, ce));
  }

  /** t is what a coordinator event made of s.coord, its lock side as CoordinatorStep has it. */
  lemma StepKeepsInv(s: System, t: C.State)
    requires Inv(s) && t.isLocked == s.coord.isLocked && (s.coord.lockPending ==> t.lockPending)
    requires t.calls == s.coord.calls +
               if t.lockPending && !s.coord.lockPending then [if s.coord.isLocked then C.Unlock else C.Lock] else []
    ensures Inv(if !s.coord.lockPending && t.lockPending && t.calls != []
                then s.(coord := t, channel := Requested(Last(t.calls))) else s.(coord := t))
  {
  }

  lemma ExecuteKeepsInv(cfg: C.Config, s: System)
    requires Inv(s)
    ensures Inv(Next(cfg, s, Execute))
  {
  }

  lemma AnswerKeepsInv(cfg: C.Config, s: System)
    requires Inv(s)
    ensures Inv(Next(cfg, s, Answer))
  {
  }

  lemma RestartKeepsInv(s: System)
    requires Inv(s)
    ensures Inv(Restarted(s))
  {
  }

  lemma NextKeepsInv(cfg: C.Config, s: System, e: Event)
    requires Inv(s)
    ensures Inv(Next(cfg, s, e))
  {
    match e {
      case Coordinate(ce) => if !ce.Done? { CoordinateKeepsInv(cfg, s, ce); }
      case Serve(_) =>
      case Execute => ExecuteKeepsInv(cfg, s);
      case Fail =>
      case Answer => AnswerKeepsInv(cfg, s);
      case Restart => RestartKeepsInv(s);
      case CarryOutLate(_) =>
      case Lose(_) =>
      case ServerRestart =>
    }
  }

  lemma {:induction false} RunKeepsInv(cfg: C.Config, offers: set<C.OfferId>, answers: map<C.OfferId, C.Word>,
                                       restoreGoal: bool, es: seq<Event>)
    ensures Inv(Run(cfg, Boot(offers, answers, restoreGoal), es))
  {
    if es != [] {
      RunKeepsInv(cfg, offers, answers, restoreGoal, es[..|es| - 1]);
      NextKeepsInv(cfg, Run(cfg, Boot(offers, answers, restoreGoal), es[..|es| - 1]), es[|es| - 1]);
    }
  }

  /** In every run, restarts of both nodes included: at most one call of the present coordinator is in flight,
      exactly while it says so; with none in flight both sides agree on the lock if and only if nothing else
      has set the lock since the coordinator's own last call, or has set it to what the coordinator believes;
      and the calls carried out for any one coordinator alternate, lock first. */
  lemma LockStatesAgree(cfg: C.Config, offers: set<C.OfferId>, answers: map<C.OfferId, C.Word>,
                        restoreGoal: bool, es: seq<Event>)
    ensures var s := Run(cfg, Boot(offers, answers, restoreGoal), es);
            && |s.coord.calls| <= s.completed + 1 && (s.coord.lockPending <==> |s.coord.calls| == s.completed + 1)
            && (!s.coord.lockPending ==>
                  (s.coord.isLocked == s.server.locked <==>
                    s.imposed.None? || (s.imposed.value == C.Lock <==> s.coord.isLocked)))
            && Alternates(s.executed) && (forall l :: l in s.past ==> Alternates(l))
  {
    RunKeepsInv(cfg, offers, answers, restoreGoal, es);
  }

  /** The server runs on, and no orphaned request is ever carried out. */
  ghost predicate NothingLate(es: seq<Event>) {
    forall k :: 0 <= k < |es| ==> !es[k].CarryOutLate? && !es[k].ServerRestart?
  }

  /** Then what is imposed is what the coordinator found, until its first call is carried out. */
  lemma {:induction false} OnlyFound(cfg: C.Config, offers: set<C.OfferId>, answers: map<C.OfferId, C.Word>,
                                     restoreGoal: bool, es: seq<Event>)
    requires NothingLate(es)
    ensures var s := Run(cfg, Boot(offers, answers, restoreGoal), es);
            if s.executed != [] then s.imposed.None?
            else if s.imposed.None? then !s.found else s.found == (s.imposed.value == C.Lock)
  {
    if es != [] {
      OnlyFound(cfg, offers, answers, restoreGoal, es[..|es| - 1]);
      assert !es[|es| - 1].CarryOutLate? && !es[|es| - 1].ServerRestart?;
    }
  }

  lemma AgreementIs(s: System)
    requires Inv(s)
    requires if s.executed != [] then s.imposed.None?
             else if s.imposed.None? then !s.found else s.found == (s.imposed.value == C.Lock)
    ensures !s.coord.lockPending ==> (s.coord.isLocked == s.server.locked <==> !s.found || s.executed != [])
    ensures s.server.locked <==> if s.executed == [] then s.found else |s.executed| % 2 == 1
  {
  }

  /** With restarts of the coordinator that lose the request in flight: with no call in flight both sides agree
      if and only if the server was not locked at the last restart or a call has been carried out since. A lock
      found at the restart stays until the coordinator's own first lock and unlock have been carried out. */
  lemma AgreeAfterRestartIff(cfg: C.Config, offers: set<C.OfferId>, answers: map<C.OfferId, C.Word>,
                             restoreGoal: bool, es: seq<Event>)
    requires NothingLate(es)
    ensures var s := Run(cfg, Boot(offers, answers, restoreGoal), es);
            && (!s.coord.lockPending ==> (s.coord.isLocked == s.server.locked <==> !s.found || s.executed != []))
            && (s.server.locked <==> if s.executed == [] then s.found else |s.executed| % 2 == 1)
  {
    RunKeepsInv(cfg, offers, answers, restoreGoal, es);
    OnlyFound(cfg, offers, answers, restoreGoal, es);
    AgreementIs(Run(cfg, Boot(offers, answers, restoreGoal), es));
  }

  /** Whatever a coordinator finds, its first call is a lock, in every run. */
  lemma FirstCallIsLock(cfg: C.Config, offers: set<C.OfferId>, answers: map<C.OfferId, C.Word>,
                        restoreGoal: bool, es: seq<Event>)
    ensures var c := Run(cfg, Boot(offers, answers, restoreGoal), es).coord;
            if c.calls == [] then !c.isLocked && !c.lockPending else c.calls[0] == C.Lock
  {
    RunKeepsInv(cfg, offers, answers, restoreGoal, es);
  }

  // ---- Two runs ----

  lemma RunAppend(cfg: C.Config, s0: System, es: seq<Event>, e: Event)
    ensures Run(cfg, s0, es + [e]) == Next(cfg, Run(cfg, s0, es), e)
  {
    assert (es + [e])[..|es|] == es;
  }

  /** A self-update locks the vehicle and the coordinator restarts. */
  ghost function LockThenRestart(t: real): seq<Event> { [Coordinate(R.SelfStarted(t, true)), Execute, Answer, Restart] }

  lemma LockedSelfUpdate(cfg: C.Config, s: System, t: real)
    requires Inv(s) && s.channel.Idle? && !s.coord.isLocked && s.coord.active == map[]
    ensures var a := Next(cfg, s, Coordinate(R.SelfStarted(t, true)));
            && a.channel == Requested(C.Lock) && a.executed == s.executed && a.past == s.past
            && a.orphans == s.orphans && !a.coord.isLocked
  {
    assert C.Jetson in s.coord.active[C.Jetson := t];
  }

  /** The run in which they disagree: the vehicle is locked, the coordinator believes it is not, and with nobody
      active it has nothing to ask for. */
  lemma RestartLeavesLock(cfg: C.Config, offers: set<C.OfferId>, answers: map<C.OfferId, C.Word>, restoreGoal: bool,
                          t: real)
    ensures var s := Run(cfg, Boot(offers, answers, restoreGoal), LockThenRestart(t));
            && !s.coord.lockPending && s.server.locked && !s.coord.isLocked
            && Next(cfg, s, Coordinate(R.Drained(true))) == s
  {
    LockThenRestartIs(cfg, offers, answers, restoreGoal, t);
  }

  lemma LockThenRestartIs(cfg: C.Config, offers: set<C.OfferId>, answers: map<C.OfferId, C.Word>, restoreGoal: bool,
                          t: real)
    ensures var s := Run(cfg, Boot(offers, answers, restoreGoal), LockThenRestart(t));
            && Inv(s) && s.channel.Idle? && s.server.locked && s.past == [[C.Lock]] && s.executed == []
            && exists o, a :: s.coord == C.Start(o, a)
  {
    var s0 := Boot(offers, answers, restoreGoal);
    var e := Coordinate(R.SelfStarted(t, true));
    RunKeepsInv(cfg, offers, answers, restoreGoal, LockThenRestart(t));
    LockedSelfUpdate(cfg, s0, t);
    RunAppend(cfg, s0, [], e);
    RunAppend(cfg, s0, [e], Execute);
    RunAppend(cfg, s0, [e, Execute], Answer);
    RunAppend(cfg, s0, [e, Execute, Answer], Restart);
    assert [] + [e] == [e] && [e] + [Execute] == [e, Execute] && [e, Execute] + [Answer] == [e, Execute, Answer];
    assert [e, Execute, Answer] + [Restart] == LockThenRestart(t);
    LockedAndAnswered(cfg, Next(cfg, s0, e));
  }

  lemma LockedAndAnswered(cfg: C.Config, a: System)
    requires a.channel == Requested(C.Lock) && a.executed == [] && a.past == []
    ensures var s := Restarted(Next(cfg, Next(cfg, a, Execute), Answer));
            && s.server.locked && s.past == [[C.Lock]] && s.executed == [] && s.channel.Idle?
            && s.coord == C.Start(a.coord.offers, a.coord.answers)
  {
    var b := Next(cfg, Next(cfg, a, Execute), Answer);
    assert b.executed == [C.Lock] && b.past == [];
  }

  /** Across a restart the calls carried out need not alternate: two locks in a row. */
  lemma LocksRepeat(cfg: C.Config, offers: set<C.OfferId>, answers: map<C.OfferId, C.Word>, restoreGoal: bool,
                    t: real, u: real)
    ensures var es := LockThenRestart(t) + [Coordinate(R.SelfStarted(u, true))] + [Execute];
            var s := Run(cfg, Boot(offers, answers, restoreGoal), es);
            s.past == [[C.Lock]] && s.executed == [C.Lock]
  {
    var s0, e := Boot(offers, answers, restoreGoal), Coordinate(R.SelfStarted(u, true));
    LockThenRestartIs(cfg, offers, answers, restoreGoal, t);
    LockedSelfUpdate(cfg, Run(cfg, s0, LockThenRestart(t)), u);
    RunAppend(cfg, s0, LockThenRestart(t), e);
    RunAppend(cfg, s0, LockThenRestart(t) + [e], Execute);
  }
}
