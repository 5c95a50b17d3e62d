/** Whole runs of a SecOC sender and receiver over a channel that may lose, duplicate,
    reorder and corrupt frames, with either side crashing at any point. */
module SecOcRuns {
  import opened SecOc

  /** A frame's identity: identifier, payload and full counter. */
  datatype Record = Record(did: nat, payload: Payload, fv: nat)

  /** tx and rx are the persistent counter files. outbox is the frame built but not yet sent,
      held in the sender's memory only. The sequences are histories, oldest first. */
  datatype System = System(tx: map<nat, nat>, rx: map<nat, nat>, outbox: seq<Record>,
                           built: seq<Record>, sent: seq<Record>, accepted: seq<Record>)

  /** Loss is a frame never delivered; duplication and reordering are deliveries in any order and
      number; corruption is the delivery of any frame at all. LateCrash is a receiver that
      stored the new floor and died before using the payload. */
  datatype Event<M> =
    | Build(did: nat, payload: Payload)
    | Send
    | SenderCrash
    | Deliver(did: nat, frame: Frame<M>)
    | DeliverLateCrash(did: nat, frame: Frame<M>)
    | ReceiverCrash

  const INIT := System(map[], map[], [], [], [], [])

  function Next<M(==)>(mac: MacFn<M>, s: System, e: Event<M>): System {
    match e
    case Build(did, payload) =>
      var r := Record(did, payload, Load(s.tx, did) + 1);
      if s.outbox != [] || r.fv >= LIMIT then s
      else s.(tx := Issued(s.tx, did), outbox := [r], built := s.built + [r])
    case Send => s.(sent := s.sent + s.outbox, outbox := [])
    case SenderCrash => s.(outbox := [])
    case Deliver(did, frame) =>
      var r := Judge(mac, Load(s.rx, did), did, frame);
      s.(rx := Raise(s.rx, did, r),
         accepted := if r.Accepted? then s.accepted + [Record(did, r.payload, r.fv)] else s.accepted)
    case DeliverLateCrash(did, frame) =>
      s.(rx := Raise(s.rx, did, Judge(mac, Load(s.rx, did), did, frame)))
    case ReceiverCrash => s
  }

  function Run<M(==)>(mac: MacFn<M>, es: seq<Event<M>>): System {
    if es == [] then INIT else Next(mac, Run(mac, es[..|es| - 1]), es[|es| - 1])
  }

  /** The assumption on the MAC: a tag that matches at the receiver was built by the sender
      for exactly that identifier, payload and counter. */
  ghost predicate Unforged<M>(mac: MacFn<M>, s: System, e: Event<M>) {
    (e.Deliver? || e.DeliverLateCrash?) && e.frame.Full? ==>
      var cand := Reconstruct(Load(s.rx, e.did), e.frame.low);
      e.frame.tag == mac(e.did, e.frame.payload, cand) ==> Record(e.did, e.frame.payload, cand) in s.built
  }

  ghost predicate Honest<M>(mac: MacFn<M>, es: seq<Event<M>>) {
    forall k :: 0 <= k < |es| ==> Unforged(mac, Run(mac, es[..k]), es[k])
  }

  /** Within each identifier the counters strictly increase. */
  ghost predicate Increasing(rs: seq<Record>) {
    forall i, j :: 0 <= i < j < |rs| && rs[i].did == rs[j].did ==> rs[i].fv < rs[j].fv
  }

  ghost predicate Below(rs: seq<Record>, counters: map<nat, nat>) {
    forall r :: r in rs ==> r.fv <= Load(counters, r.did)
  }

  /** The sender's histories: both with increasing counters, what goes out was built, and the stored
      counter covers everything built. */
  ghost predicate SenderInv(tx: map<nat, nat>, built: seq<Record>, out: seq<Record>) {
    && Increasing(built) && Below(built, tx)
    && Increasing(out) && forall r :: r in out ==> r in built
  }

  ghost predicate Inv(s: System) {
    && SenderInv(s.tx, s.built, s.sent + s.outbox) && |s.outbox| <= 1
    && Increasing(s.accepted) && Below(s.accepted, s.rx) && (forall r :: r in s.accepted ==> r in s.built)
    && (forall did :: Load(s.rx, did) <= Load(s.tx, did) < LIMIT)
  }

  lemma AppendIncreasing(rs: seq<Record>, r: Record)
    requires Increasing(rs)
    requires forall x :: x in rs && x.did == r.did ==> x.fv < r.fv
    ensures Increasing(rs + [r])
  {
    forall i, j | 0 <= i < j < |rs + [r]| && (rs + [r])[i].did == (rs + [r])[j].did
      ensures (rs + [r])[i].fv < (rs + [r])[j].fv
    {
      assert rs[i] in rs;
    }
  }

  lemma PrefixIncreasing(rs: seq<Record>, more: seq<Record>)
    requires Increasing(rs + more)
    ensures Increasing(rs)
  {
    forall i, j | 0 <= i < j < |rs| && rs[i].did == rs[j].did ensures rs[i].fv < rs[j].fv {
      assert (rs + more)[i] == rs[i] && (rs + more)[j] == rs[j];
    }
  }

  /** A record with a counter above the stored one, which then is stored, keeps a history in order. */
  lemma AppendStored(rs: seq<Record>, counters: map<nat, nat>, r: Record)
    requires Increasing(rs) && Below(rs, counters) && Load(counters, r.did) < r.fv
    ensures Increasing(rs + [r]) && Below(rs + [r], counters[r.did := r.fv])
  {
    AppendIncreasing(rs, r);
  }

  lemma SenderBuilds(tx: map<nat, nat>, built: seq<Record>, out: seq<Record>, r: Record)
    requires SenderInv(tx, built, out) && r.fv == Load(tx, r.did) + 1
    ensures SenderInv(tx[r.did := r.fv], built + [r], out + [r])
  {
    AppendStored(built, tx, r);
    AppendIncreasing(out, r);
  }

  lemma BuildKeepsInv<M>(mac: MacFn<M>, s: System, did: nat, payload: Payload)
    requires Inv(s)
    ensures Inv(Next(mac, s, Build(did, payload)))
  {
    var r := Record(did, payload, Load(s.tx, did) + 1);
    if s.outbox == [] && r.fv < LIMIT {
      assert s.sent + [] == s.sent;
      SenderBuilds(s.tx, s.built, s.sent, r);
      var t := Next(mac, s, Build(did, payload));
      assert t.tx == s.tx[did := r.fv] && t.built == s.built + [r] && t.sent + t.outbox == s.sent + [r];
    }
  }

  lemma AcceptKeepsInv<M>(mac: MacFn<M>, s: System, did: nat, frame: Frame<M>)
    requires Inv(s) && Unforged(mac, s, Deliver(did, frame)) && Judge(mac, Load(s.rx, did), did, frame).Accepted?
    ensures Inv(Next(mac, s, Deliver(did, frame)))
    ensures Inv(Next(mac, s, DeliverLateCrash(did, frame)))
  {
    var r := Record(did, frame.payload, Judge(mac, Load(s.rx, did), did, frame).fv);
    assert r in s.built;
    FloorMoves(mac, s, did, frame);
    AppendStored(s.accepted, s.rx, r);
  }

  /** Every step of the protocol keeps the invariant. */
  lemma NextKeepsInv<M>(mac: MacFn<M>, s: System, e: Event<M>)
    requires Inv(s) && Unforged(mac, s, e)
    ensures Inv(Next(mac, s, e))
  {
    var s' := Next(mac, s, e);
    match e {
      case Build(did, payload) =>
        BuildKeepsInv(mac, s, did, payload);
      case Send =>
        assert s'.sent + s'.outbox == s.sent + s.outbox;
      case SenderCrash =>
        assert s'.sent + s'.outbox == s.sent;
        PrefixIncreasing(s.sent, s.outbox);
      case Deliver(did, frame) =>
        if s' != s {
          AcceptKeepsInv(mac, s, did, frame);
        }
      case DeliverLateCrash(did, frame) =>
        if s' != s {
          AcceptKeepsInv(mac, s, did, frame);
        }
      case ReceiverCrash =>
    }
  }

  /** An acceptance moves the floor strictly up. */
  lemma FloorMoves<M>(mac: MacFn<M>, s: System, did: nat, frame: Frame<M>)
    requires Load(s.rx, did) < LIMIT
    ensures var r := Judge(mac, Load(s.rx, did), did, frame); r.Accepted? ==> Load(s.rx, did) < r.fv < LIMIT
  {
  }

  lemma {:induction false} RunKeepsInv<M>(mac: MacFn<M>, es: seq<Event<M>>)
    requires Honest(mac, es)
    ensures Inv(Run(mac, es))
  {
    if es != [] {
      var n := |es| - 1;
      forall k | 0 <= k < n ensures Unforged(mac, Run(mac, es[..n][..k]), es[..n][k]) {
        assert es[..n][..k] == es[..k];
      }
      RunKeepsInv(mac, es[..n]);
      assert Unforged(mac, Run(mac, es[..n]), es[n]);
      NextKeepsInv(mac, Run(mac, es[..n]), es[n]);
    }
  }

  /** In every run: per identifier the accepted counters strictly increase, so no frame is ever
      accepted twice; what was accepted was built under that identifier with that payload and
      counter; and no two frames put on the wire under one identifier share a counter. */
  lemma RunIsReplayFree<M>(mac: MacFn<M>, es: seq<Event<M>>)
    requires Honest(mac, es)
    ensures var s := Run(mac, es);
            && Increasing(s.accepted)
            && (forall i, j :: 0 <= i < j < |s.accepted| ==> s.accepted[i] != s.accepted[j])
            && (forall r :: r in s.accepted ==> r in s.built)
            && (forall i, j :: 0 <= i < j < |s.sent| && s.sent[i].did == s.sent[j].did ==> s.sent[i].fv != s.sent[j].fv)
  {
    RunKeepsInv(mac, es);
    var s := Run(mac, es);
    forall i, j | 0 <= i < j < |s.sent| && s.sent[i].did == s.sent[j].did ensures s.sent[i].fv != s.sent[j].fv {
      assert (s.sent + s.outbox)[i] == s.sent[i] && (s.sent + s.outbox)[j] == s.sent[j];
    }
  }

  /** In every run, the newest frame a sender has built under an identifier is accepted on
      arrival exactly when it is new and at most 0x8000 counters were lost since the last
      acceptance. Its tag must not be the tag of a different counter, the one reconstructed. */
  lemma NewestFrameAcceptedIff<M>(mac: MacFn<M>, es: seq<Event<M>>, r: Record)
    requires Honest(mac, es) && r in Run(mac, es).built && r.fv == Load(Run(mac, es).tx, r.did)
    requires var cand := Reconstruct(Load(Run(mac, es).rx, r.did), r.fv % WRAP);
             mac(r.did, r.payload, cand) == mac(r.did, r.payload, r.fv) ==> cand == r.fv
    ensures var s := Run(mac, es);
            var e := Deliver(r.did, Genuine(mac, r.did, r.payload, r.fv));
            && (Next(mac, s, e).accepted == s.accepted + [r] <==> 1 <= r.fv - Load(s.rx, r.did) <= 0x8000)
            && (Next(mac, s, e) == s <==> !(1 <= r.fv - Load(s.rx, r.did) <= 0x8000))
  {
    RunKeepsInv(mac, es);
    GenuineStep(mac, Run(mac, es), r);
  }

  lemma GenuineStep<M>(mac: MacFn<M>, s: System, r: Record)
    requires Load(s.rx, r.did) < LIMIT && r.fv < LIMIT
    requires var cand := Reconstruct(Load(s.rx, r.did), r.fv % WRAP);
             mac(r.did, r.payload, cand) == mac(r.did, r.payload, r.fv) ==> cand == r.fv
    ensures var e := Deliver(r.did, Genuine(mac, r.did, r.payload, r.fv));
            && (Next(mac, s, e).accepted == s.accepted + [r] <==> 1 <= r.fv - Load(s.rx, r.did) <= 0x8000)
            && (Next(mac, s, e) == s <==> !(1 <= r.fv - Load(s.rx, r.did) <= 0x8000))
  {
    GenuineAcceptedIff(mac, Load(s.rx, r.did), r.did, r.payload, r.fv);
    var judged := Judge(mac, Load(s.rx, r.did), r.did, Genuine(mac, r.did, r.payload, r.fv));
    if !judged.Accepted? {
      assert s.accepted + [r] != s.accepted by { assert |s.accepted + [r]| != |s.accepted|; }
    }
  }

  // ---- A receiver left behind ----

  /** Event e delivers a genuine frame with a counter in the window above the floor, one of those built. */
  ghost predicate Reaches<M>(mac: MacFn<M>, did: nat, floor: nat, built: seq<Record>, e: Event<M>) {
    && (e.Deliver? || e.DeliverLateCrash?) && e.did == did
    && exists r :: r in built && InReach(mac, did, floor, r, e.frame)
  }

  ghost predicate InReach<M>(mac: MacFn<M>, did: nat, floor: nat, r: Record, frame: Frame<M>) {
    r.did == did && floor < r.fv <= floor + 0x8000 && frame == Genuine(mac, did, r.payload, r.fv)
  }

  /** Between states s and t the receiver has taken in nothing under did, and whatever was built there since has
      a counter above the sender's at s. */
  ghost predicate Stands(did: nat, s: System, t: System) {
    && Load(t.rx, did) == Load(s.rx, did) && Load(s.tx, did) <= Load(t.tx, did)
    && (forall r :: r in t.accepted && r.did == did ==> r in s.accepted)
    && (forall r :: r in t.built && r.did == did && r.fv <= Load(s.tx, did) ==> r in s.built)
  }

  lemma StandsOneMore<M>(mac: MacFn<M>, did: nat, s: System, t: System, e: Event<M>)
    requires Stands(did, s, t) && Inv(t) && Unforged(mac, t, e)
    requires Load(s.tx, did) > Load(s.rx, did) + 0x8000 && !Reaches(mac, did, Load(s.rx, did), s.built, e)
    ensures Stands(did, s, Next(mac, t, e))
  {
    match e {
      case Deliver(d, frame) => NotTaken(mac, did, s, t, e);
      case DeliverLateCrash(d, frame) => NotTaken(mac, did, s, t, e);
      case Build(d, payload) =>
      case Send =>
      case SenderCrash =>
      case ReceiverCrash =>
    }
  }

  /** A delivery that does not reach the window is rejected. */
  lemma NotTaken<M>(mac: MacFn<M>, did: nat, s: System, t: System, e: Event<M>)
    requires Stands(did, s, t) && Inv(t) && Unforged(mac, t, e) && (e.Deliver? || e.DeliverLateCrash?)
    requires Load(s.tx, did) > Load(s.rx, did) + 0x8000 && !Reaches(mac, did, Load(s.rx, did), s.built, e)
    ensures e.did == did ==> !Judge(mac, Load(t.rx, did), did, e.frame).Accepted?
  {
    if e.did == did && Judge(mac, Load(t.rx, did), did, e.frame).Accepted? {
      AcceptedIsGenuine(mac, Load(t.rx, did), did, e.frame);
      var v := Judge(mac, Load(t.rx, did), did, e.frame);
      var r := Record(did, v.payload, v.fv);
      assert r in t.built;
      assert InReach(mac, did, Load(s.rx, did), r, e.frame);
    }
  }

  // ---- Continuations ----

  function RunFrom<M(==)>(mac: MacFn<M>, s: System, fs: seq<Event<M>>): System {
    if fs == [] then s else Next(mac, RunFrom(mac, s, fs[..|fs| - 1]), fs[|fs| - 1])
  }

  ghost predicate HonestFrom<M>(mac: MacFn<M>, s: System, fs: seq<Event<M>>) {
    fs == [] ||
    (HonestFrom(mac, s, fs[..|fs| - 1]) && Unforged(mac, RunFrom(mac, s, fs[..|fs| - 1]), fs[|fs| - 1]))
  }

  /** An honest run is an honest continuation of any of its beginnings. */
  lemma {:induction false} Continues<M>(mac: MacFn<M>, es: seq<Event<M>>, fs: seq<Event<M>>)
    requires Honest(mac, es + fs)
    ensures Honest(mac, es)
    ensures HonestFrom(mac, Run(mac, es), fs) && Run(mac, es + fs) == RunFrom(mac, Run(mac, es), fs)
  {
    if fs == [] {
      assert es + fs == es;
    } else {
      var before, f := fs[..|fs| - 1], fs[|fs| - 1];
      JoinLast(es, fs);
      HonestButLast(mac, es + fs);
      Continues(mac, es, before);
      assert Run(mac, es + fs) == Next(mac, Run(mac, es + before), f);
    }
  }

  lemma JoinLast<T>(es: seq<T>, fs: seq<T>)
    requires fs != []
    ensures |es + fs| > 0 && (es + fs)[..|es + fs| - 1] == es + fs[..|fs| - 1]
    ensures (es + fs)[|es + fs| - 1] == fs[|fs| - 1]
  {
  }

  lemma HonestButLast<M>(mac: MacFn<M>, es: seq<Event<M>>)
    requires Honest(mac, es) && es != []
    ensures Honest(mac, es[..|es| - 1]) && Unforged(mac, Run(mac, es[..|es| - 1]), es[|es| - 1])
  {
    var before := es[..|es| - 1];
    forall k | 0 <= k < |before| ensures Unforged(mac, Run(mac, before[..k]), before[k]) {
      assert before[..k] == es[..k] && before[k] == es[k];
    }
  }

  /** Floors never fall. */
  lemma {:induction false} FloorsRise<M>(mac: MacFn<M>, s: System, fs: seq<Event<M>>, did: nat)
    requires Inv(s) && HonestFrom(mac, s, fs)
    ensures Inv(RunFrom(mac, s, fs)) && Load(s.rx, did) <= Load(RunFrom(mac, s, fs).rx, did)
  {
    if fs != [] {
      var n := |fs| - 1;
      FloorsRise(mac, s, fs[..n], did);
      FloorRises(mac, RunFrom(mac, s, fs[..n]), fs[n], did);
    }
  }

  lemma FloorRises<M>(mac: MacFn<M>, s: System, e: Event<M>, did: nat)
    requires Inv(s) && Unforged(mac, s, e)
    ensures Inv(Next(mac, s, e)) && Load(s.rx, did) <= Load(Next(mac, s, e).rx, did)
  {
    NextKeepsInv(mac, s, e);
    if e.Deliver? || e.DeliverLateCrash? {
      FloorMoves(mac, s, e.did, e.frame);
    }
  }

  lemma {:induction false} StandsAll<M>(mac: MacFn<M>, s: System, fs: seq<Event<M>>, did: nat)
    requires Inv(s) && HonestFrom(mac, s, fs) && Load(s.tx, did) > Load(s.rx, did) + 0x8000
    requires forall m :: 0 <= m < |fs| ==> !Reaches(mac, did, Load(s.rx, did), s.built, fs[m])
    ensures Stands(did, s, RunFrom(mac, s, fs))
  {
    if fs != [] {
      var n := |fs| - 1;
      StandsAll(mac, s, fs[..n], did);
      FloorsRise(mac, s, fs[..n], did);
      StandsOneMore(mac, did, s, RunFrom(mac, s, fs[..n]), fs[n]);
    }
  }

  lemma InReachTaken<M>(mac: MacFn<M>, did: nat, s: System, t: System, e: Event<M>)
    requires Reaches(mac, did, Load(s.rx, did), s.built, e) && Load(t.rx, did) == Load(s.rx, did) && Inv(s)
    ensures Load(Next(mac, t, e).rx, did) > Load(s.rx, did)
  {
    var r :| r in s.built && InReach(mac, did, Load(s.rx, did), r, e.frame);
    InWindowAccepted(mac, Load(s.rx, did), did, r.payload, r.fv);
  }

  /** A frame in reach moves the floor, unless it has moved before. */
  lemma {:induction false} ReachMoves<M>(mac: MacFn<M>, s: System, fs: seq<Event<M>>, did: nat, m: nat)
    requires Inv(s) && HonestFrom(mac, s, fs)
    requires m < |fs| && Reaches(mac, did, Load(s.rx, did), s.built, fs[m])
    ensures Load(RunFrom(mac, s, fs).rx, did) > Load(s.rx, did)
  {
    var n := |fs| - 1;
    var t := RunFrom(mac, s, fs[..n]);
    FloorsRise(mac, s, fs[..n], did);
    FloorRises(mac, t, fs[n], did);
    if m < n {
      ReachMoves(mac, s, fs[..n], did, m);
    } else if Load(t.rx, did) == Load(s.rx, did) {
      InReachTaken(mac, did, s, t, fs[n]);
    }
  }

  /** Once the sender is more than 0x8000 counters ahead of the receiver's floor, in any continuation: the floor
      moves again if and only if a frame built before, with a counter still in the window, is delivered; until
      then nothing is accepted under that identifier, and so nothing built later ever is. */
  lemma LeftBehindIff<M>(mac: MacFn<M>, es: seq<Event<M>>, fs: seq<Event<M>>, did: nat)
    requires Honest(mac, es + fs) && Load(Run(mac, es).tx, did) > Load(Run(mac, es).rx, did) + 0x8000
    ensures var s, t := Run(mac, es), Run(mac, es + fs);
            var reached := exists m :: 0 <= m < |fs| && Reaches(mac, did, Load(s.rx, did), s.built, fs[m]);
            && (Load(t.rx, did) != Load(s.rx, did) <==> reached)
            && (!reached ==> forall r :: r in t.accepted && r.did == did ==> r in s.accepted)
  {
    Continues(mac, es, fs);
    RunKeepsInv(mac, es);
    LeftBehind(mac, Run(mac, es), fs, did);
  }

  lemma LeftBehind<M>(mac: MacFn<M>, s: System, fs: seq<Event<M>>, did: nat)
    requires Inv(s) && HonestFrom(mac, s, fs) && Load(s.tx, did) > Load(s.rx, did) + 0x8000
    ensures var t := RunFrom(mac, s, fs);
            var reached := exists m :: 0 <= m < |fs| && Reaches(mac, did, Load(s.rx, did), s.built, fs[m]);
            && (Load(t.rx, did) != Load(s.rx, did) <==> reached)
            && (!reached ==> forall r :: r in t.accepted && r.did == did ==> r in s.accepted)
  {
    if exists m :: 0 <= m < |fs| && Reaches(mac, did, Load(s.rx, did), s.built, fs[m]) {
      var m :| 0 <= m < |fs| && Reaches(mac, did, Load(s.rx, did), s.built, fs[m]);
      ReachMoves(mac, s, fs, did, m);
    } else {
      StandsAll(mac, s, fs, did);
    }
  }
}
