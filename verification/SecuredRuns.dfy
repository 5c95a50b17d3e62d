/** The coordinator behind SecOC: peers, a bus that may lose, repeat, reorder and forge frames, and a
    coordinator that may restart at any point over its stored floors and leftover spool. */
module SecuredRuns {
  import opened Options
  import SecOc
  import Wire = SecOcRuns
  import C = Coordinator
  import R = CoordinatorRuns

  const DID_CLUSTER_REQUEST := 1
  const DID_CLUSTER_RUNNING := 2
  const DID_ECU_REQUEST := 4
  const DID_ECU_RUNNING := 5

  /** `past` lists the requests earlier runs of the coordinator accepted. */
  datatype System = System(wire: Wire.System, coord: C.State, past: seq<C.Request>)

  /** A frame as the coordinator finds it on the bus. */
  datatype BusFrame<M> = BusFrame(canId: int, dlc: nat, payload: SecOc.Payload, tag: M, low: SecOc.Low)

  datatype PeerEvent = Build(did: nat, payload: SecOc.Payload) | Send | Crash

  /** RestartMidFrame is a coordinator that stored a new floor and died before using the frame. */
  datatype Event<M> =
    | Peer(pe: PeerEvent)
    | Bus(frame: BusFrame<M>, inputs: C.Inputs)
    | Own(ce: R.Event)
    | Restart
    | RestartMidFrame(frame: BusFrame<M>)

  /** The identifier a frame is verified under follows from its CAN id and its unverified magic byte. */
  function DidOf(canId: int, magic: int): Option<nat> {
    if canId == C.CAN_ID_OTA_REQ && magic == C.OTA_REQ_MAGIC then Some(DID_CLUSTER_REQUEST)
    else if canId == C.CAN_ID_OTA_REQ && magic == C.OTA_RUN_MAGIC then Some(DID_CLUSTER_RUNNING)
    else if canId == C.CAN_ID_ECU_OTA_REQ && magic == C.OTA_REQ_MAGIC then Some(DID_ECU_REQUEST)
    else if canId == C.CAN_ID_ECU_OTA_REQ && magic == C.OTA_RUN_MAGIC then Some(DID_ECU_RUNNING)
    else None
  }

  /** The identifier under which a frame reaches verification, if it does. */
  function Checked<M>(f: BusFrame<M>): Option<nat> {
    if f.dlc < C.FRAME_LEN then None else DidOf(f.canId, f.payload.first)
  }

  function Secured<M>(f: BusFrame<M>): SecOc.Frame<M> { SecOc.Full(f.payload, f.tag, f.low) }

  /** What the coordinator handles: the slot is there only if verification accepted the frame. */
  function Handled<M(==)>(mac: SecOc.MacFn<M>, rx: map<nat, nat>, f: BusFrame<M>): C.CanFrame {
    var slot := match Checked(f)
                case Some(did) =>
                  (match SecOc.Judge(mac, SecOc.Load(rx, did), did, Secured(f))
                   case Accepted(payload, _) => Some(payload.second)
                   case _ => None)
                case None => None;
    C.CanFrame(f.canId, f.dlc, f.payload.first, slot)
  }

  function WireEvents<M>(e: Event<M>): seq<Wire.Event<M>> {
    match e
    case Peer(Build(did, payload)) => [Wire.Build(did, payload)]
    case Peer(Send) => [Wire.Send]
    case Peer(Crash) => [Wire.SenderCrash]
    case Bus(f, _) => (match Checked(f) case Some(did) => [Wire.Deliver(did, Secured(f))] case None => [])
    case RestartMidFrame(f) =>
      (match Checked(f) case Some(did) => [Wire.DeliverLateCrash(did, Secured(f))] case None => [])
    case Own(_) => []
    case Restart => []
  }

  function NextWire<M(==)>(mac: SecOc.MacFn<M>, w: Wire.System, es: seq<Wire.Event<M>>): Wire.System {
    if es == [] then w else Wire.Next(mac, w, es[0])
  }

  function Restarted(s: System): System {
    s.(coord := C.Start(s.coord.offers, s.coord.answers), past := s.past + s.coord.journal.requests)
  }

  ghost function Next<M>(mac: SecOc.MacFn<M>, cfg: C.Config, s: System, e: Event<M>): System {
    var t := s.(wire := NextWire(mac, s.wire, WireEvents(e)));
    match e
    case Peer(_) => t
    case Bus(f, i) => t.(coord := C.HandleFrame(cfg, s.coord, Handled(mac, s.wire.rx, f), i))
    case Own(ce) => if ce.Frame? then s else s.(coord := R.Next(cfg, s.coord, ce))
    case Restart => Restarted(s)
    case RestartMidFrame(_) => Restarted(t)
  }

  ghost function Run<M>(mac: SecOc.MacFn<M>, cfg: C.Config, offers: set<C.OfferId>, answers: map<C.OfferId, C.Word>,
                        es: seq<Event<M>>): System
  {
    if es == [] then System(Wire.INIT, C.Start(offers, answers), [])
    else Next(mac, cfg, Run(mac, cfg, offers, answers, es[..|es| - 1]), es[|es| - 1])
  }

  // ---- The wire side is a run of its own ----

  function Wires<M>(es: seq<Event<M>>): seq<Wire.Event<M>> {
    if es == [] then [] else Wires(es[..|es| - 1]) + WireEvents(es[|es| - 1])
  }

  lemma StepOfWire<M>(mac: SecOc.MacFn<M>, cfg: C.Config, s: System, e: Event<M>)
    ensures Next(mac, cfg, s, e).wire == NextWire(mac, s.wire, WireEvents(e))
  {
  }

  lemma WireRunMore<M>(mac: SecOc.MacFn<M>, before: seq<Wire.Event<M>>, e: Event<M>)
    ensures Wire.Run(mac, before + WireEvents(e)) == NextWire(mac, Wire.Run(mac, before), WireEvents(e))
  {
    var now := WireEvents(e);
    if now == [] {
      assert before + now == before;
    } else {
      WireRunAppend(mac, before, now[0]);
      assert now == [now[0]];
    }
  }

  lemma WireRunAppend<M>(mac: SecOc.MacFn<M>, before: seq<Wire.Event<M>>, w: Wire.Event<M>)
    ensures Wire.Run(mac, before + [w]) == Wire.Next(mac, Wire.Run(mac, before), w)
  {
    assert (before + [w])[..|before|] == before;
  }

  lemma {:induction false} WireIsRun<M>(mac: SecOc.MacFn<M>, cfg: C.Config, offers: set<C.OfferId>,
                                        answers: map<C.OfferId, C.Word>, es: seq<Event<M>>)
    ensures Run(mac, cfg, offers, answers, es).wire == Wire.Run(mac, Wires(es))
  {
    if es != [] {
      var n := |es| - 1;
      WireIsRun(mac, cfg, offers, answers, es[..n]);
      StepOfWire(mac, cfg, Run(mac, cfg, offers, answers, es[..n]), es[n]);
      WireRunMore(mac, Wires(es[..n]), es[n]);
    }
  }

  // ---- Requests are accepted frames ----

  /** Whom and what slot an accepted frame asks for, if it is a request. */
  function Asks(r: Wire.Record): seq<(C.Ecu, int)> {
    if r.did == DID_CLUSTER_REQUEST then [(C.Cluster, r.payload.second)]
    else if r.did == DID_ECU_REQUEST then [(C.Esp32, r.payload.second)]
    else []
  }

  /** No identifier serves two kinds of frames, and one that reaches verification asks for its sender exactly if
      its magic byte is that of a REQUEST. */
  lemma KindsApart<M>(f: BusFrame<M>, g: BusFrame<M>, fv: nat)
    requires Checked(f).Some?
    ensures Checked(g) == Checked(f) ==> g.canId == f.canId && g.payload.first == f.payload.first
    ensures f.canId in {0x300, 0x310} && f.payload.first in {0xA5, 0x5A} && f.dlc >= 8
    ensures Asks(Wire.Record(Checked(f).value, f.payload, fv)) ==
              if f.payload.first == 0x5A then []
              else [(if f.canId == 0x300 then C.Cluster else C.Esp32, f.payload.second)]
  {
  }

  function Asked(rs: seq<Wire.Record>): seq<(C.Ecu, int)> {
    if rs == [] then [] else Asked(rs[..|rs| - 1]) + Asks(rs[|rs| - 1])
  }

  function Got(qs: seq<C.Request>): seq<(C.Ecu, int)> {
    seq(|qs|, k requires 0 <= k < |qs| => (qs[k].flow.name, qs[k].slot))
  }

  ghost predicate Inv(s: System) { Got(s.past + s.coord.journal.requests) == Asked(s.wire.accepted) }

  lemma FrameAsks(cfg: C.Config, s: C.State, f: C.CanFrame, i: C.Inputs)
    ensures var qs := s.journal.requests;
            C.HandleFrame(cfg, s, f, i).journal.requests ==
              if !C.Ignored(f) && f.magic == C.OTA_REQ_MAGIC
              then qs + [C.Request(C.FlowOf(f.canId).value, f.slot.value, i.now)] else qs
  {
    if !C.Ignored(f) {
      C.LockLeavesRest(C.Dispatch(cfg, s, C.FlowOf(f.canId).value, f.magic, f.slot.value, i), i.ready);
      if f.magic == C.OTA_REQ_MAGIC {
        BeginAsks(cfg, s, C.FlowOf(f.canId).value, f.slot.value, i);
      }
    }
  }

  lemma BeginAsks(cfg: C.Config, s: C.State, flow: C.Flow, slot: int, i: C.Inputs)
    ensures C.BeginApproval(cfg, s, flow, slot, i).journal.requests ==
        s.journal.requests + [C.Request(flow, slot, i.now)]
  {
  }

  lemma ResolveAsksNothing(s: C.State, n: C.Ecu, approved: bool, basis: C.Basis, now: real, ready: bool)
    ensures C.Resolve(s, n, approved, basis, now, ready).journal.requests == s.journal.requests
  {
  }

  lemma PollOneAsksNothing(cfg: C.Config, s: C.State, n: C.Ecu, now: real, ready: bool)
    ensures C.PollOne(cfg, s, n, now, ready).journal.requests == s.journal.requests
  {
    if n in s.pending {
      var p := s.pending[n];
      if p.id in s.answers {
        ResolveAsksNothing(s, n, s.answers[p.id] == C.Approve, C.Driver(p.id, s.answers[p.id]), now, ready);
      } else if now >= p.deadline {
        ResolveAsksNothing(s, n, cfg.approveOnNoVerdict, C.NoAnswer, now, ready);
      }
    }
  }

  lemma {:induction false} PollAsksNothing(cfg: C.Config, s: C.State, names: seq<C.Ecu>, now: real, ready: bool)
    ensures C.PollEach(cfg, s, names, now, ready).journal.requests == s.journal.requests
  {
    if names != [] {
      var k := |names| - 1;
      PollAsksNothing(cfg, s, names[..k], now, ready);
      PollOneAsksNothing(cfg, C.PollEach(cfg, s, names[..k], now, ready), names[k], now, ready);
    }
  }

  lemma OwnAsksNothing(cfg: C.Config, s: C.State, e: R.Event)
    requires !e.Frame?
    ensures R.Next(cfg, s, e).journal.requests == s.journal.requests
  {
    match e {
      case PollTick(names, now, ready) => PollAsksNothing(cfg, s, names, now, ready);
      case TimeoutTick(now, ready) => C.LockLeavesRest(s.(active := s.active - C.Expired(cfg, s, now)), ready);
      case SelfStarted(now, ready) => C.LockLeavesRest(C.Begun(s, now), ready);
      case SelfFinished(ready) => C.LockLeavesRest(s.(active := s.active - {C.Jetson}), ready);
      case Drained(ready) => C.LockLeavesRest(s, ready);
      case Done(success) =>
      case DriverAnswers(id, word) =>
      case Stop =>
    }
  }

  /** The record an accepted frame leaves on the wire's side. */
  function RecordOf<M(==)>(mac: SecOc.MacFn<M>, rx: map<nat, nat>, f: BusFrame<M>): seq<Wire.Record> {
    if Handled(mac, rx, f).slot.None? then []
    else
      var did := Checked(f).value;
      [Wire.Record(did, f.payload, SecOc.Judge(mac, SecOc.Load(rx, did), did, Secured(f)).fv)]
  }

  lemma BusRecords<M>(mac: SecOc.MacFn<M>, cfg: C.Config, s: System, f: BusFrame<M>, i: C.Inputs)
    ensures var t, h := Next(mac, cfg, s, Bus(f, i)), Handled(mac, s.wire.rx, f);
            && t.wire.accepted == s.wire.accepted + RecordOf(mac, s.wire.rx, f)
            && t.coord == C.HandleFrame(cfg, s.coord, h, i) && t.past == s.past
            && (h.slot.Some? ==> Checked(f).Some? && h.slot.value == f.payload.second)
  {
  }

  /** What a handled frame adds to the requests is what its record asks for. */
  lemma HandledAsks<M>(mac: SecOc.MacFn<M>, cfg: C.Config, s: C.State, rx: map<nat, nat>, f: BusFrame<M>, i: C.Inputs)
    ensures var h, qs := Handled(mac, rx, f), s.journal.requests;
            C.HandleFrame(cfg, s, h, i).journal.requests ==
              if h.slot.Some? && f.payload.first == C.OTA_REQ_MAGIC
              then qs + [C.Request(C.FlowOf(f.canId).value, h.slot.value, i.now)] else qs
  {
    FrameAsks(cfg, s, Handled(mac, rx, f), i);
  }

  lemma AskedMore(rs: seq<Wire.Record>, more: seq<Wire.Record>)
    requires |more| <= 1
    ensures Asked(rs + more) == Asked(rs) + if more == [] then [] else Asks(more[0])
  {
    if more == [] {
      assert rs + more == rs;
    } else {
      assert (rs + more)[..|rs|] == rs;
    }
  }

  /** A frame on the bus is accepted as a request exactly if it makes the coordinator take one in. */
  lemma BusKeepsInv<M>(mac: SecOc.MacFn<M>, cfg: C.Config, s: System, f: BusFrame<M>, i: C.Inputs)
    requires Inv(s)
    ensures Inv(Next(mac, cfg, s, Bus(f, i)))
  {
    var t, h, records := Next(mac, cfg, s, Bus(f, i)), Handled(mac, s.wire.rx, f), RecordOf(mac, s.wire.rx, f);
    BusRecords(mac, cfg, s, f, i);
    HandledAsks(mac, cfg, s.coord, s.wire.rx, f, i);
    AskedMore(s.wire.accepted, records);
    var before, after := s.past + s.coord.journal.requests, t.past + t.coord.journal.requests;
    if h.slot.Some? && f.payload.first == C.OTA_REQ_MAGIC {
      KindsApart(f, f, records[0].fv);
      assert after == before + [C.Request(C.FlowOf(f.canId).value, h.slot.value, i.now)];
    } else {
      assert after == before;
    }
  }

  lemma NextKeepsInv<M>(mac: SecOc.MacFn<M>, cfg: C.Config, s: System, e: Event<M>)
    requires Inv(s)
    ensures Inv(Next(mac, cfg, s, e))
  {
    var t := Next(mac, cfg, s, e);
    match e {
      case Peer(_) =>
      case Bus(f, i) => BusKeepsInv(mac, cfg, s, f, i);
      case Own(ce) => if !ce.Frame? { OwnAsksNothing(cfg, s.coord, ce); }
      case Restart => assert t.past + t.coord.journal.requests == s.past + s.coord.journal.requests;
      case RestartMidFrame(f) => assert t.past + t.coord.journal.requests == s.past + s.coord.journal.requests;
    }
  }

  lemma {:induction false} RunKeepsInv<M>(mac: SecOc.MacFn<M>, cfg: C.Config, offers: set<C.OfferId>,
                                          answers: map<C.OfferId, C.Word>, es: seq<Event<M>>)
    ensures Inv(Run(mac, cfg, offers, answers, es))
  {
    if es == [] {
      assert Got([]) == [];
    } else {
      RunKeepsInv(mac, cfg, offers, answers, es[..|es| - 1]);
      NextKeepsInv(mac, cfg, Run(mac, cfg, offers, answers, es[..|es| - 1]), es[|es| - 1]);
    }
  }

  /** In every run, restarts included, the requests the coordinator ever took in are exactly the accepted
      REQUEST frames, in order, and those are distinct frames their peer built with that slot: no replay
      asks for a second approval. */
  lemma ReplayNeverAsksAgain<M>(mac: SecOc.MacFn<M>, cfg: C.Config, offers: set<C.OfferId>,
                                answers: map<C.OfferId, C.Word>, es: seq<Event<M>>)
    requires Wire.Honest(mac, Wires(es))
    ensures var s := Run(mac, cfg, offers, answers, es);
            && Got(s.past + s.coord.journal.requests) == Asked(s.wire.accepted)
            && Wire.Increasing(s.wire.accepted)
            && forall r :: r in s.wire.accepted ==> r in s.wire.built
  {
    RunKeepsInv(mac, cfg, offers, answers, es);
    WireIsRun(mac, cfg, offers, answers, es);
    Wire.RunIsReplayFree(mac, Wires(es));
  }
}
