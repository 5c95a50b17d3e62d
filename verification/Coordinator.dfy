/** The update coordinator of node.py: driver approval over a file spool, the set of active
    updates, and the lock and unlock calls to the emergency stop server.

    Times are reals in milliseconds. Whether a frame passed SecOC, whether the head unit is
    up, whether an offer file could be written and whether the stop service is ready are
    inputs of the handlers. */
module Coordinator {
  import opened Options

  datatype Ecu = Cluster | Esp32 | Jetson
  datatype Label = Lock | Unlock
  datatype Word = Approve | Deny | Garbage

  const CAN_ID_OTA_REQ := 0x300
  const CAN_ID_OTA_APPROVE := 0x301
  const CAN_ID_ECU_OTA_REQ := 0x310
  const CAN_ID_ECU_OTA_APPROVE := 0x311
  const OTA_REQ_MAGIC := 0xA5
  const OTA_RUN_MAGIC := 0x5A
  const DID_CLUSTER_APPROVE := 3
  const DID_ECU_APPROVE := 6
  const FRAME_LEN := 8

  datatype Budget = Budget(peerWaitMs: real, uiMs: real, deadlineMs: real)

  function BudgetOf(e: Ecu): Budget {
    if e == Cluster then Budget(60000.0, 9000.0, 30000.0) else Budget(10000.0, 9000.0, 9500.0)
  }

  /** What a request's CAN identifier determines: who asks, and where the verdict goes. */
  datatype Flow = Flow(name: Ecu, didApprove: nat, approveCanId: int)

  function FlowOf(canId: int): Option<Flow> {
    if canId == CAN_ID_OTA_REQ then Some(Flow(Cluster, DID_CLUSTER_APPROVE, CAN_ID_OTA_APPROVE))
    else if canId == CAN_ID_ECU_OTA_REQ then Some(Flow(Esp32, DID_ECU_APPROVE, CAN_ID_ECU_OTA_APPROVE))
    else None
  }

  /** `slot` is the payload's second byte when SecOC accepted the frame. */
  datatype CanFrame = CanFrame(canId: int, dlc: nat, magic: int, slot: Option<int>)

  /** The name of an offer file: target, creation second, and a counter of this run. */
  datatype OfferId = OfferId(name: Ecu, second: int, number: nat)

  datatype Pending = Pending(id: OfferId, slot: int, flow: Flow, t0: real, deadline: real, req: nat)

  /** Why a verdict came out as it did. */
  datatype Basis = FailOpen | Driver(id: OfferId, word: Word) | NoAnswer

  /** The journal: every accepted request and every verdict put on the bus, oldest first; the
      offer made for a request, by request number; and the numbers of the requests dropped
      for a newer one or withdrawn at shutdown. */
  datatype Request = Request(flow: Flow, slot: int, at: real)
  datatype Verdict = Verdict(req: nat, canId: int, did: nat, slot: int, approved: bool, basis: Basis, at: real)
  datatype Journal = Journal(requests: seq<Request>, verdicts: seq<Verdict>, offered: map<nat, OfferId>,
                             superseded: set<nat>, withdrawn: set<nat>)

  datatype Config = Config(requireApproval: bool, approveOnNoVerdict: bool, timeoutMs: real)

  /** What the node does to the outside or is told to hold for, in the order it happens: a verdict goes out,
      a self-update begins, a service call is made with these updates active. */
  datatype Act = Said(verdict: Verdict) | Began(at: real) | Called(call: Label, holders: map<Ecu, real>)

  /** `calls` lists the service calls made so far; the last one is in flight while lockPending. `log` has them
      in one order with the verdicts and the self-updates. */
  datatype State = State(active: map<Ecu, real>, isLocked: bool, lockPending: bool, timeoutTimer: bool,
                         pending: map<Ecu, Pending>, pollTimer: bool, offerSeq: nat,
                         offers: set<OfferId>, answers: map<OfferId, Word>,
                         calls: seq<Label>, journal: Journal, log: seq<Act>)

  datatype Inputs = Inputs(now: real, uiAvailable: bool, offerWritten: bool, ready: bool)

  // ---- The handlers as functions ----

  function UpdateLockState(s: State, ready: bool): State {
    if s.lockPending then s
    else
      var shouldLock := s.active != map[];
      var s1 := s.(timeoutTimer := shouldLock);
      if shouldLock == s.isLocked || !ready then s1
      else
        var call := if shouldLock then Lock else Unlock;
        s1.(lockPending := true, calls := s.calls + [call], log := s.log + [Called(call, s.active)])
  }

  /** Deciding about the lock touches nothing but the lock. */
  lemma LockLeavesRest(s: State, ready: bool)
    ensures var t := UpdateLockState(s, ready);
            && t.active == s.active && t.pending == s.pending && t.pollTimer == s.pollTimer
            && t.offers == s.offers && t.answers == s.answers && t.offerSeq == s.offerSeq && t.journal == s.journal
  {
  }

  function ServiceDone(s: State, call: Label, success: bool): State {
    s.(lockPending := false, isLocked := if success then call == Lock else s.isLocked)
  }

  function WithdrawOffer(s: State, id: OfferId): State {
    s.(offers := s.offers - {id}, answers := s.answers - {id})
  }

  function SendVerdict(s: State, req: nat, flow: Flow, slot: int, approved: bool, basis: Basis, now: real): State {
    var v := Verdict(req, flow.approveCanId, flow.didApprove, slot, approved, basis, now);
    s.(journal := s.journal.(verdicts := s.journal.verdicts + [v]), log := s.log + [Said(v)])
  }

  /** Approves at once, without asking the driver. */
  function ApproveUnasked(s: State, req: nat, flow: Flow, slot: int, now: real): State {
    var s1 := SendVerdict(s, req, flow, slot, true, FailOpen, now);
    s1.(active := s1.active[flow.name := now])
  }

  /** Takes a pending request out, together with its offer and any answer to it. */
  function Removed(s: State, name: Ecu): State
    requires name in s.pending
  {
    WithdrawOffer(s.(pending := s.pending - {name}), s.pending[name].id)
  }

  function Supersede(s: State, name: Ecu): State {
    if name !in s.pending then s
    else Removed(s, name).(journal := s.journal.(superseded := s.journal.superseded + {s.pending[name].req}))
  }

  function Accept(s: State, flow: Flow, slot: int, now: real): State {
    s.(journal := s.journal.(requests := s.journal.requests + [Request(flow, slot, now)]))
  }

  /** Asks the driver about request `req`, or approves at once if the offer cannot be written. */
  function MakeOffer(s: State, req: nat, flow: Flow, slot: int, i: Inputs): State {
    var s1 := s.(offerSeq := s.offerSeq + 1);
    if !i.offerWritten then ApproveUnasked(s1, req, flow, slot, i.now)
    else AskDriver(s1, req, flow, slot, OfferId(flow.name, (i.now / 1000.0).Floor, s1.offerSeq), i.now)
  }

  function BeginApproval(cfg: Config, s: State, flow: Flow, slot: int, i: Inputs): State {
    var req := |s.journal.requests|;
    var s0 := Accept(s, flow, slot, i.now);
    if !cfg.requireApproval || !i.uiAvailable then ApproveUnasked(s0, req, flow, slot, i.now)
    else MakeOffer(Supersede(s0, flow.name), req, flow, slot, i)
  }

  function AskDriver(s: State, req: nat, flow: Flow, slot: int, id: OfferId, now: real): State {
    s.(offers := s.offers + {id}, pollTimer := true,
       journal := s.journal.(offered := s.journal.offered[req := id]),
       pending := s.pending[flow.name := Pending(id, slot, flow, now, now + BudgetOf(flow.name).deadlineMs, req)])
  }

  /** A verified REQUEST or RUNNING. */
  function Dispatch(cfg: Config, s: State, flow: Flow, magic: int, slot: int, i: Inputs): State {
    if magic == OTA_REQ_MAGIC then BeginApproval(cfg, s, flow, slot, i)
    else s.(active := s.active - {flow.name})
  }

  predicate Ignored(f: CanFrame) {
    f.dlc < FRAME_LEN || FlowOf(f.canId).None? || f.slot.None? || f.magic !in {OTA_REQ_MAGIC, OTA_RUN_MAGIC}
  }

  function HandleFrame(cfg: Config, s: State, f: CanFrame, i: Inputs): State {
    if Ignored(f) then s
    else UpdateLockState(Dispatch(cfg, s, FlowOf(f.canId).value, f.magic, f.slot.value, i), i.ready)
  }

  function Resolve(s: State, name: Ecu, approved: bool, basis: Basis, now: real, ready: bool): State {
    if name !in s.pending then s
    else
      var p := s.pending[name];
      var s2 := SendVerdict(Removed(s, name), p.req, p.flow, p.slot, approved, basis, now);
      UpdateLockState(if approved then s2.(active := s2.active[name := now]) else s2, ready)
  }

  function PollOne(cfg: Config, s: State, name: Ecu, now: real, ready: bool): State {
    if name !in s.pending then s
    else
      var p := s.pending[name];
      if p.id in s.answers
      then Resolve(s, name, s.answers[p.id] == Approve, Driver(p.id, s.answers[p.id]), now, ready)
      else if now >= p.deadline then Resolve(s, name, cfg.approveOnNoVerdict, NoAnswer, now, ready)
      else s
  }

  function PollEach(cfg: Config, s: State, names: seq<Ecu>, now: real, ready: bool): State {
    if names == [] then s
    else PollOne(cfg, PollEach(cfg, s, names[..|names| - 1], now, ready), names[|names| - 1], now, ready)
  }

  function Poll(cfg: Config, s: State, names: seq<Ecu>, now: real, ready: bool): State {
    var s1 := PollEach(cfg, s, names, now, ready);
    if s1.pending == map[] then s1.(pollTimer := false) else s1
  }

  function Expired(cfg: Config, s: State, now: real): set<Ecu> {
    set n | n in s.active && now - s.active[n] > cfg.timeoutMs
  }

  function TimeoutCheck(cfg: Config, s: State, now: real, ready: bool): State {
    var expired := Expired(cfg, s, now);
    if expired == {} then s else UpdateLockState(s.(active := s.active - expired), ready)
  }

  function Begun(s: State, now: real): State { s.(active := s.active[Jetson := now], log := s.log + [Began(now)]) }

  function SelfStart(s: State, now: real, ready: bool): State { UpdateLockState(Begun(s, now), ready) }

  function SelfDone(s: State, ready: bool): State { UpdateLockState(s.(active := s.active - {Jetson}), ready) }

  /** A batch of frames, each handled in turn. */
  function HandleAll(cfg: Config, s: State, fs: seq<(CanFrame, Inputs)>): State {
    if fs == [] then s
    else HandleFrame(cfg, HandleAll(cfg, s, fs[..|fs| - 1]), fs[|fs| - 1].0, fs[|fs| - 1].1)
  }

  /** The offer files and the request numbers of some of the pending requests. */
  function Ids(pending: map<Ecu, Pending>, names: set<Ecu>): set<OfferId> {
    set n | n in names && n in pending :: pending[n].id
  }
  function Reqs(pending: map<Ecu, Pending>, names: set<Ecu>): set<nat> {
    set n | n in names && n in pending :: pending[n].req
  }

  function WithdrawThese(s: State, names: set<Ecu>): State {
    s.(offers := s.offers - Ids(s.pending, names), answers := s.answers - Ids(s.pending, names),
       journal := s.journal.(withdrawn := s.journal.withdrawn + Reqs(s.pending, names)))
  }

  function Shutdown(s: State): State { WithdrawThese(s, s.pending.Keys).(pending := map[]) }

  /** Start-up over whatever an earlier run left in the spool: its offers are swept, each with
      the answer of the same name. */
  function Start(offers: set<OfferId>, answers: map<OfferId, Word>): State {
    State(map[], false, false, false, map[], false, 0, {}, answers - offers, [], Journal([], [], map[], {}, {}), [])
  }

  // ---- The node ----

  class UpdateCoordinator {
    const cfg: Config
    var active: map<Ecu, real>
    var isLocked: bool
    var lockStatePending: bool
    var timeoutTimer: bool
    var pending: map<Ecu, Pending>
    var pollTimer: bool
    var offerSeq: nat
    var offers: set<OfferId>
    var answers: map<OfferId, Word>
    var calls: seq<Label>
    var journal: Journal
    var log: seq<Act>

    function View(): State
      reads this
    {
      State(active, isLocked, lockStatePending, timeoutTimer, pending, pollTimer, offerSeq, offers, answers,
            calls, journal, log)
    }

    constructor (cfg: Config, offers: set<OfferId>, answers: map<OfferId, Word>)
      ensures View() == Start(offers, answers) && this.cfg == cfg
    {
      this.cfg := cfg;
      active, isLocked, lockStatePending, timeoutTimer := map[], false, false, false;
      pending, pollTimer, offerSeq := map[], false, 0;
      this.offers, this.answers := {}, answers - offers;
      calls, journal, log := [], Journal([], [], map[], {}, {}), [];
    }

    method UpdateLock(ready: bool)
      modifies this
      ensures View() == UpdateLockState(old(View()), ready)
    {
      if lockStatePending {
        return;
      }
      var shouldLock := |active| > 0;
      assert |active| > 0 <==> active != map[];
      timeoutTimer := shouldLock;
      if shouldLock && !isLocked {
        CallService(Lock, ready);
      } else if !shouldLock && isLocked {
        CallService(Unlock, ready);
      }
    }

    method CallService(call: Label, ready: bool)
      modifies this`lockStatePending, this`calls, this`log
      ensures lockStatePending == (ready || old(lockStatePending))
      ensures calls == old(calls) + if ready then [call] else []
      ensures log == old(log) + if ready then [Called(call, active)] else []
    {
      if !ready {
        return;
      }
      lockStatePending := true;
      calls := calls + [call];
      log := log + [Called(call, active)];
    }

    method OnServiceDone(call: Label, success: bool)
      modifies this
      ensures View() == ServiceDone(old(View()), call, success)
    {
      lockStatePending := false;
      if success {
        isLocked := call == Lock;
      }
    }

    method Send(req: nat, flow: Flow, slot: int, approved: bool, basis: Basis, now: real)
      modifies this
      ensures View() == SendVerdict(old(View()), req, flow, slot, approved, basis, now)
    {
      var v := Verdict(req, flow.approveCanId, flow.didApprove, slot, approved, basis, now);
      journal := journal.(verdicts := journal.verdicts + [v]);
      log := log + [Said(v)];
    }

    method Withdraw(id: OfferId)
      modifies this
      ensures View() == WithdrawOffer(old(View()), id)
    {
      offers := offers - {id};
      answers := answers - {id};
    }

    method ApproveAtOnce(req: nat, flow: Flow, slot: int, now: real)
      modifies this
      ensures View() == ApproveUnasked(old(View()), req, flow, slot, now)
    {
      Send(req, flow, slot, true, FailOpen, now);
      active := active[flow.name := now];
    }

    method DropPending(name: Ecu)
      modifies this
      ensures View() == Supersede(old(View()), name)
    {
      if name in pending {
        var superseded := TakeOut(name);
        journal := journal.(superseded := journal.superseded + {superseded.req});
      }
    }

    method Ask(req: nat, flow: Flow, slot: int, id: OfferId, now: real)
      modifies this
      ensures View() == AskDriver(old(View()), req, flow, slot, id, now)
    {
      offers := offers + {id};
      journal := journal.(offered := journal.offered[req := id]);
      pending := pending[flow.name := Pending(id, slot, flow, now, now + BudgetOf(flow.name).deadlineMs, req)];
      pollTimer := true;
    }

    method Begin(flow: Flow, slot: int, i: Inputs)
      modifies this
      ensures View() == BeginApproval(cfg, old(View()), flow, slot, i)
    {
      var req := |journal.requests|;
      journal := journal.(requests := journal.requests + [Request(flow, slot, i.now)]);
      if !cfg.requireApproval || !i.uiAvailable {
        ApproveAtOnce(req, flow, slot, i.now);
        return;
      }
      DropPending(flow.name);
      Offer(req, flow, slot, i);
    }

    method Offer(req: nat, flow: Flow, slot: int, i: Inputs)
      modifies this
      ensures View() == MakeOffer(old(View()), req, flow, slot, i)
    {
      offerSeq := offerSeq + 1;
      var id := OfferId(flow.name, (i.now / 1000.0).Floor, offerSeq);
      if !i.offerWritten {
        ApproveAtOnce(req, flow, slot, i.now);
        return;
      }
      Ask(req, flow, slot, id, i.now);
    }

    method HandleCan(f: CanFrame, i: Inputs)
      modifies this
      ensures View() == HandleFrame(cfg, old(View()), f, i)
    {
      if f.dlc < FRAME_LEN {
        return;
      }
      var flow := FlowOf(f.canId);
      if flow.None? || (f.magic != OTA_REQ_MAGIC && f.magic != OTA_RUN_MAGIC) || f.slot.None? {
        return;
      }
      if f.magic == OTA_REQ_MAGIC {
        Begin(flow.value, f.slot.value, i);
      } else {
        active := active - {flow.value.name};
      }
      UpdateLock(i.ready);
    }

    /** The guard condition's callback: drains the receive queue, then re-checks the lock. */
    method OnCanEvent(queue: seq<(CanFrame, Inputs)>, ready: bool)
      modifies this
      ensures View() == UpdateLockState(HandleAll(cfg, old(View()), queue), ready)
    {
      for k := 0 to |queue|
        invariant View() == HandleAll(cfg, old(View()), queue[..k])
      {
        assert queue[..k + 1][..k] == queue[..k];
        HandleCan(queue[k].0, queue[k].1);
      }
      assert queue[..|queue|] == queue;
      UpdateLock(ready);
    }

    method ResolveOne(name: Ecu, approved: bool, basis: Basis, now: real, ready: bool)
      modifies this
      ensures View() == Resolve(old(View()), name, approved, basis, now, ready)
    {
      if name !in pending {
        return;
      }
      var p := TakeOut(name);
      Send(p.req, p.flow, p.slot, approved, basis, now);
      if approved {
        active := active[name := now];
      }
      UpdateLock(ready);
    }

    method TakeOut(name: Ecu) returns (p: Pending)
      requires name in pending
      modifies this
      ensures p == old(pending)[name] && View() == Removed(old(View()), name)
    {
      p := pending[name];
      pending := pending - {name};
      Withdraw(p.id);
    }

    /** `names` is the snapshot of the pending requesters in dictionary order. */
    method PollApprovals(names: seq<Ecu>, now: real, ready: bool)
      modifies this
      ensures View() == Poll(cfg, old(View()), names, now, ready)
    {
      for k := 0 to |names|
        invariant View() == PollEach(cfg, old(View()), names[..k], now, ready)
      {
        assert names[..k + 1][..k] == names[..k];
        var name := names[k];
        if name in pending {
          var p := pending[name];
          if p.id in answers {
            ResolveOne(name, answers[p.id] == Approve, Driver(p.id, answers[p.id]), now, ready);
          } else if now >= p.deadline {
            ResolveOne(name, cfg.approveOnNoVerdict, NoAnswer, now, ready);
          }
        }
      }
      assert names[..|names|] == names;
      if pending == map[] {
        pollTimer := false;
      }
    }

    method CheckTimeouts(now: real, ready: bool)
      modifies this
      ensures View() == TimeoutCheck(cfg, old(View()), now, ready)
    {
      var expired := set n | n in active && now - active[n] > cfg.timeoutMs;
      assert expired == Expired(cfg, View(), now);
      active := active - expired;
      if expired != {} {
        UpdateLock(ready);
      } else {
        assert active == old(active);
      }
    }

    method OnSelfStart(now: real, ready: bool) returns (success: bool)
      modifies this
      ensures View() == SelfStart(old(View()), now, ready) && success
    {
      active := active[Jetson := now];
      log := log + [Began(now)];
      UpdateLock(ready);
      success := true;
    }

    method OnSelfDone(ready: bool) returns (success: bool)
      modifies this
      ensures View() == SelfDone(old(View()), ready) && success
    {
      if Jetson in active {
        active := active - {Jetson};
      }
      assert active == old(active) - {Jetson};
      UpdateLock(ready);
      success := true;
    }

    /** `names` lists the pending requesters. */
    method Destroy(names: seq<Ecu>)
      requires forall n :: n in pending <==> n in names
      modifies this
      ensures View() == Shutdown(old(View()))
    {
      for k := 0 to |names|
        invariant View() == WithdrawThese(old(View()), SetOf(names[..k]))
      {
        WithdrawOneMore(old(View()), SetOf(names[..k]), names[k]);
        assert SetOf(names[..k + 1]) == SetOf(names[..k]) + {names[k]};
        var p := pending[names[k]];
        Withdraw(p.id);
        journal := journal.(withdrawn := journal.withdrawn + {p.req});
      }
      assert SetOf(names[..|names|]) == pending.Keys;
      pending := map[];
    }
  }

  function SetOf(names: seq<Ecu>): set<Ecu> { set n | n in names }

  lemma WithdrawOneMore(s: State, names: set<Ecu>, n: Ecu)
    requires n in s.pending
    ensures var done, p := WithdrawThese(s, names), s.pending[n];
            WithdrawThese(s, names + {n}) ==
              WithdrawOffer(done, p.id).(journal := done.journal.(withdrawn := done.journal.withdrawn + {p.req}))
  {
    var p := s.pending[n];
    var ids, reqs := Ids(s.pending, names), Reqs(s.pending, names);
    assert Ids(s.pending, names + {n}) == ids + {p.id};
    assert Reqs(s.pending, names + {n}) == reqs + {p.req};
    assert s.offers - (ids + {p.id}) == s.offers - ids - {p.id};
    assert s.answers - (ids + {p.id}) == s.answers - ids - {p.id};
    assert s.journal.withdrawn + (reqs + {p.req}) == s.journal.withdrawn + reqs + {p.req};
  }
}
