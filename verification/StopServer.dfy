/** The emergency stop server of emergency_stop_server.cpp: the lock, and the nav2 goal that is
    saved at lock time and republished a fixed delay after the unlock. */
module StopServer {
  import opened Options

  datatype Pose = Pose(frame: string, x: real, y: real, yaw: real)
  datatype Goal = Goal(pose: Pose, stamp: real)

  /** Spent is a timer that has fired and cancelled itself but is still held. */
  datatype Timer = NoTimer | Armed | Spent

  const STATUS_ACCEPTED := 1
  const STATUS_EXECUTING := 2

  datatype State = State(restoreEnabled: bool, locked: bool, navActive: bool,
                         lastGoal: Option<Goal>, saved: Option<Goal>, timer: Timer)

  datatype Event =
    | Lock
    | Unlock
    | GoalPose(goal: Goal)
    | NavStatus(statuses: seq<int>)
    | TimerFires(now: real)

  predicate NavigationActive(statuses: seq<int>) {
    exists k :: 0 <= k < |statuses| && statuses[k] in {STATUS_ACCEPTED, STATUS_EXECUTING}
  }

  /** Whether locking now takes a snapshot of the goal in flight. */
  predicate Saves(s: State) { s.restoreEnabled && s.navActive && s.lastGoal.Some? }

  function Next(s: State, e: Event): State {
    match e
    case Lock => s.(locked := true, timer := NoTimer, saved := if Saves(s) then s.lastGoal else s.saved)
    case Unlock => s.(locked := false, timer := if s.saved.Some? then Armed else s.timer)
    case GoalPose(g) => s.(lastGoal := Some(g), saved := if s.locked then None else s.saved)
    case NavStatus(l) => s.(navActive := NavigationActive(l))
    case TimerFires(now) =>
      if !s.timer.Armed? then s
      else s.(timer := Spent, saved := if s.locked then s.saved else None)
  }

  /** The goal an event publishes on /goal_pose, if any. */
  function Published(s: State, e: Event): Option<Goal> {
    if e.TimerFires? && s.timer.Armed? && !s.locked && s.saved.Some?
    then Some(s.saved.value.(stamp := e.now)) else None
  }

  class EmergencyStopServer {
    const restoreEnabled: bool
    var locked: bool
    var navActive: bool
    var lastGoal: Option<Goal>
    var saved: Option<Goal>
    var timer: Timer

    function View(): State
      reads this
    {
      State(restoreEnabled, locked, navActive, lastGoal, saved, timer)
    }

    constructor (restoreEnabled: bool)
      ensures View() == Init(restoreEnabled)
    {
      this.restoreEnabled := restoreEnabled;
      locked, navActive, lastGoal, saved, timer := false, false, None, None, NoTimer;
    }

    /** Answers a lock request; `lockMessage` is the Bool published on emergency_lock. */
    method OnLock() returns (success: bool, lockMessage: bool)
      modifies this
      ensures View() == Next(old(View()), Lock) && success && lockMessage
    {
      SaveGoalForRestore();
      locked := true;
      return true, true;
    }

    method OnUnlock() returns (success: bool, lockMessage: bool)
      modifies this
      ensures View() == Next(old(View()), Unlock) && success && !lockMessage
    {
      locked := false;
      ScheduleGoalRestore();
      return true, false;
    }

    method OnGoalPose(g: Goal)
      modifies this
      ensures View() == Next(old(View()), GoalPose(g))
    {
      lastGoal := Some(g);
      if locked && saved.Some? {
        saved := None;
      }
    }

    method OnNavStatus(statuses: seq<int>)
      modifies this
      ensures View() == Next(old(View()), NavStatus(statuses))
    {
      var active := false;
      for k := 0 to |statuses|
        invariant !active && View() == old(View())
        invariant forall j :: 0 <= j < k ==> statuses[j] !in {STATUS_ACCEPTED, STATUS_EXECUTING}
      {
        if statuses[k] == STATUS_ACCEPTED || statuses[k] == STATUS_EXECUTING {
          active := true;
          break;
        }
      }
      navActive := active;
    }

    method SaveGoalForRestore()
      modifies this
      ensures View() == old(View()).(timer := NoTimer,
                                     saved := if Saves(old(View())) then old(lastGoal) else old(saved))
    {
      CancelPendingRestore();
      if !restoreEnabled {
        return;
      }
      if !navActive || lastGoal.None? {
        return;
      }
      saved := lastGoal;
    }

    method CancelPendingRestore()
      modifies this`timer
      ensures timer == NoTimer
    {
      if timer != NoTimer {
        timer := NoTimer;
      }
    }

    method ScheduleGoalRestore()
      modifies this`timer
      ensures timer == if saved.Some? then Armed else old(timer)
    {
      if saved.None? {
        return;
      }
      CancelPendingRestore();
      timer := Armed;
    }

    /** The restore timer's callback. */
    method OnRestoreTimer(now: real) returns (published: Option<Goal>)
      requires timer.Armed?
      modifies this
      ensures View() == Next(old(View()), TimerFires(now)) && published == Published(old(View()), TimerFires(now))
    {
      timer := Spent;
      if locked || saved.None? {
        return None;
      }
      var g := saved.value;
      saved := None;
      g := g.(stamp := now);
      return Some(g);
    }
  }

  // ---- Runs ----

  function Init(restoreEnabled: bool): State { State(restoreEnabled, false, false, None, None, NoTimer) }

  function Run(restoreEnabled: bool, es: seq<Event>): State {
    if es == [] then Init(restoreEnabled)
    else Next(Run(restoreEnabled, es[..|es| - 1]), es[|es| - 1])
  }

  /** What an observer of the node records. `saves` are the goals in flight at the locks that took a
      snapshot; `from[k]` says which of them republication k carried; `overtaking` is the latest
      goal received while unlocked since the last snapshot. */
  datatype History = History(saves: seq<Goal>, republished: seq<Goal>, from: seq<nat>,
                             discarded: nat, overwritten: nat, overtaking: Option<Goal>)

  function Observe(h: History, s: State, e: Event): History {
    match e
    case Lock =>
      if !Saves(s) then h
      else h.(saves := h.saves + [s.lastGoal.value], overtaking := None,
              overwritten := h.overwritten + if s.saved.Some? then 1 else 0)
    case Unlock => h
    case GoalPose(g) =>
      if s.locked then h.(discarded := h.discarded + if s.saved.Some? then 1 else 0)
      else h.(overtaking := Some(g))
    case NavStatus(_) => h
    case TimerFires(_) =>
      if Published(s, e).None? then h
      else h.(republished := h.republished + [Published(s, e).value],
              from := h.from + [if |h.saves| > 0 then |h.saves| - 1 else 0])
  }

  function Watch(restoreEnabled: bool, es: seq<Event>): History {
    if es == [] then History([], [], [], 0, 0, None)
    else
      var n := |es| - 1;
      Observe(Watch(restoreEnabled, es[..n]), Run(restoreEnabled, es[..n]), es[n])
  }

  ghost predicate Inv(s: State, h: History) {
    && (s.timer.Armed? <==> !s.locked && s.saved.Some?)
    && |h.saves| == |h.republished| + h.discarded + h.overwritten + (if s.saved.Some? then 1 else 0)
    && |h.from| == |h.republished|
    && (forall k :: 0 <= k < |h.from| ==> h.from[k] < |h.saves| && h.republished[k].pose == h.saves[h.from[k]].pose)
    && (forall j, k :: 0 <= j < k < |h.from| ==> h.from[j] < h.from[k])
    && (s.saved.Some? ==>
          && |h.saves| > 0 && s.saved.value == h.saves[|h.saves| - 1]
          && (forall k :: 0 <= k < |h.from| ==> h.from[k] < |h.saves| - 1)
          && s.lastGoal == (if h.overtaking.Some? then h.overtaking else s.saved))
  }

  lemma NextKeepsInv(s: State, h: History, e: Event)
    requires Inv(s, h)
    ensures Inv(Next(s, e), Observe(h, s, e))
  {
    match e {
      case Lock =>
      case Unlock =>
      case GoalPose(_) =>
      case NavStatus(_) =>
      case TimerFires(_) =>
    }
  }

  /** Over every run: the restore timer is armed exactly when the server is unlocked with a saved
      goal; every republished goal is, up to its stamp, the goal in flight at a lock that
      found navigation active, each such lock at most once and in order; and every snapshot is
      accounted for. */
  lemma {:induction false} RunKeepsInv(restoreEnabled: bool, es: seq<Event>)
    ensures Inv(Run(restoreEnabled, es), Watch(restoreEnabled, es))
  {
    if es != [] {
      var n := |es| - 1;
      RunKeepsInv(restoreEnabled, es[..n]);
      NextKeepsInv(Run(restoreEnabled, es[..n]), Watch(restoreEnabled, es[..n]), es[n]);
    }
  }

  /** Both guards in the timer's callback are redundant: whenever the armed timer fires, a goal
      is republished. */
  lemma TimerGuardsRedundant(restoreEnabled: bool, es: seq<Event>, now: real)
    requires Run(restoreEnabled, es).timer.Armed?
    ensures Published(Run(restoreEnabled, es), TimerFires(now)).Some?
  {
    RunKeepsInv(restoreEnabled, es);
  }

  /** A republication repeats the newest goal message exactly when no different goal arrived
      while unlocked since the snapshot: such a goal does not drop the saved one. */
  lemma RepublishesNewestIff(restoreEnabled: bool, es: seq<Event>, now: real)
    requires Run(restoreEnabled, es).timer.Armed?
    ensures var s, h := Run(restoreEnabled, es), Watch(restoreEnabled, es);
            && s.saved.Some?
            && (s.lastGoal == s.saved <==> h.overtaking.None? || h.overtaking == s.saved)
  {
    RunKeepsInv(restoreEnabled, es);
  }

  /** The case in which it does not: the driver's new goal, sent between unlock and
      restore, is followed by the old one. */
  lemma OldGoalOvertakesNew(old1: Goal, new1: Goal, t: real)
    requires old1.pose != new1.pose
    ensures var es := [GoalPose(old1), NavStatus([STATUS_EXECUTING]), Lock, Unlock, GoalPose(new1)];
            && Run(true, es).lastGoal == Some(new1)
            && Published(Run(true, es), TimerFires(t)) == Some(old1.(stamp := t))
  {
    var e1, e2 := GoalPose(old1), NavStatus([STATUS_EXECUTING]);
    assert NavigationActive([STATUS_EXECUTING]) by { assert [STATUS_EXECUTING][0] == STATUS_EXECUTING; }
    var e5 := GoalPose(new1);
    assert [] + [e1] == [e1] && [e1] + [e2] == [e1, e2] && [e1, e2] + [Lock] == [e1, e2, Lock];
    assert [e1, e2, Lock] + [Unlock] == [e1, e2, Lock, Unlock];
    assert [e1, e2, Lock, Unlock] + [e5] == [e1, e2, Lock, Unlock, e5];
    RunAppend(true, [], e1);
    RunAppend(true, [e1], e2);
    RunAppend(true, [e1, e2], Lock);
    RunAppend(true, [e1, e2, Lock], Unlock);
    RunAppend(true, [e1, e2, Lock, Unlock], e5);
  }

  lemma RunAppend(restoreEnabled: bool, es: seq<Event>, e: Event)
    ensures Run(restoreEnabled, es + [e]) == Next(Run(restoreEnabled, es), e)
  {
    assert (es + [e])[..|es|] == es;
  }

  // ---- What a lock snapshots ----

  /** Message k is the last goal received, or the last navigation status. */
  predicate LastGoalAt(es: seq<Event>, k: int) {
    0 <= k < |es| && es[k].GoalPose? && forall j :: k < j < |es| ==> !es[j].GoalPose?
  }
  predicate LastStatusAt(es: seq<Event>, k: int) {
    0 <= k < |es| && es[k].NavStatus? && forall j :: k < j < |es| ==> !es[j].NavStatus?
  }

  /** A goal of the navigator is accepted or executing: status 1 or 2 of action_msgs/GoalStatus. */
  predicate InFlight(statuses: seq<int>) {
    exists k :: 0 <= k < |statuses| && 1 <= statuses[k] <= 2
  }

  /** In every run the server holds the last goal message, and takes navigation for active if and only if the
      last status message lists a goal in flight. */
  lemma {:induction false} KnowsTheLast(restoreEnabled: bool, es: seq<Event>, i: int, k: int)
    ensures var s := Run(restoreEnabled, es);
            && s.restoreEnabled == restoreEnabled
            && (LastGoalAt(es, i) ==> s.lastGoal == Some(es[i].goal))
            && ((forall j :: 0 <= j < |es| ==> !es[j].GoalPose?) ==> s.lastGoal == None)
            && (LastStatusAt(es, k) ==> (s.navActive <==> InFlight(es[k].statuses)))
            && ((forall j :: 0 <= j < |es| ==> !es[j].NavStatus?) ==> !s.navActive)
  {
    if es != [] {
      var n := |es| - 1;
      KnowsTheLast(restoreEnabled, es[..n], i, k);
      assert i < n && LastGoalAt(es, i) ==> LastGoalAt(es[..n], i);
      assert k < n && LastStatusAt(es, k) ==> LastStatusAt(es[..n], k);
      if es[n].NavStatus? {
        assert NavigationActive(es[n].statuses) <==> InFlight(es[n].statuses);
      }
    }
  }

  /** In every run a lock saves the last goal received if restoring is enabled and the last status message listed
      a goal in flight, and otherwise leaves what was saved. */
  lemma LockSavesIff(restoreEnabled: bool, es: seq<Event>, i: int, k: int)
    ensures var saved, kept := Run(restoreEnabled, es + [Lock]).saved, Run(restoreEnabled, es).saved;
            && (LastGoalAt(es, i) && LastStatusAt(es, k) ==>
                  saved == if restoreEnabled && InFlight(es[k].statuses) then Some(es[i].goal) else kept)
            && ((forall j :: 0 <= j < |es| ==> !es[j].GoalPose?) ==> saved == kept)
            && ((forall j :: 0 <= j < |es| ==> !es[j].NavStatus?) ==> saved == kept)
  {
    KnowsTheLast(restoreEnabled, es, i, k);
    RunAppend(restoreEnabled, es, Lock);
  }
}
