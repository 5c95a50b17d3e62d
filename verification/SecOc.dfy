/** Freshness handling of secoc_utils.py: a 32-bit counter per data identifier of which a
    frame carries only the low 16 bits, in the truncated-freshness style of section 7.1 of
    the AUTOSAR SWS Secure Onboard Communication. The MAC (AES-CMAC, section 2.4 of RFC 4493,
    truncated) is a parameter: nothing is known about it but its arguments. */
module SecOc {

  const WINDOW := 0x8000
  const WRAP := 0x1_0000
  const LIMIT := 0x1_0000_0000

  datatype Payload = Payload(first: nat, second: nat)

  /** The two bytes of the counter a frame carries. */
  type Low = x: int | 0 <= x < 0x1_0000

  /** A frame as received: `Short` has fewer than eight bytes. */
  datatype Frame<M> = Short | Full(payload: Payload, tag: M, low: Low)

  type MacFn<M> = (nat, Payload, nat) -> M

  /** `Raised` is the exception of packing a counter that does not fit in four bytes. */
  datatype Outcome = Accepted(payload: Payload, fv: nat) | Rejected(reason: Reason) | Raised
  datatype Reason = ShortFrame | MacMismatch | OutsideWindow

  datatype BuildResult<M> = Built(frame: Frame<M>, fv: nat) | BuildRaised

  function Load(counters: map<nat, nat>, did: nat): nat { if did in counters then counters[did] else 0 }

  /** The candidate counter: the floor's high half with the received low half, bumped once
      when that is not above the floor. */
  function Reconstruct(floor: nat, low: nat): nat {
    var cand := floor % LIMIT - floor % LIMIT % WRAP + low;
    if cand <= floor then cand + WRAP else cand
  }

  function Judge<M(==)>(mac: MacFn<M>, floor: nat, did: nat, frame: Frame<M>): Outcome {
    match frame
    case Short => Rejected(ShortFrame)
    case Full(payload, tag, low) =>
      var cand := Reconstruct(floor, low);
      if cand >= LIMIT then Raised
      else if mac(did, payload, cand) != tag then Rejected(MacMismatch)
      else if cand - floor > WINDOW then Rejected(OutsideWindow)
      else Accepted(payload, cand)
  }

  function Genuine<M>(mac: MacFn<M>, did: nat, payload: Payload, fv: nat): Frame<M> {
    Full(payload, mac(did, payload, fv), fv % WRAP)
  }

  /** The send counters after building a frame: one that no longer fits in four bytes stays. */
  function Issued(tx: map<nat, nat>, did: nat): map<nat, nat> {
    if Load(tx, did) + 1 < LIMIT then tx[did := Load(tx, did) + 1] else tx
  }

  /** The floors after a verdict: only an accepted frame moves one. */
  function Raise(rx: map<nat, nat>, did: nat, r: Outcome): map<nat, nat> {
    if r.Accepted? then rx[did := r.fv] else rx
  }

  /** The persistent counter files, one per direction and identifier. */
  class FvStore {
    var tx: map<nat, nat>
    var rx: map<nat, nat>

    constructor ()
      ensures tx == map[] && rx == map[]
    {
      tx, rx := map[], map[];
    }

    /** Builds a frame with the next counter; the counter is stored before the frame is handed
        out. A counter that no longer fits raises and stores nothing. */
    method Build<M(==)>(mac: MacFn<M>, did: nat, payload: Payload) returns (r: BuildResult<M>)
      modifies this`tx
      ensures var fv := Load(old(tx), did) + 1;
              r == if fv < LIMIT then Built(Genuine(mac, did, payload, fv), fv) else BuildRaised
      ensures tx == Issued(old(tx), did)
    {
      var fv := Load(tx, did) + 1;
      if fv >= LIMIT {
        return BuildRaised;
      }
      var tag := mac(did, payload, fv);
      var frame := Full(payload, tag, fv % WRAP);
      tx := tx[did := fv];
      return Built(frame, fv);
    }

    /** Verifies a frame; only an accepted one moves the floor. */
    method Verify<M(==)>(mac: MacFn<M>, did: nat, frame: Frame<M>) returns (r: Outcome)
      modifies this`rx
      ensures r == Judge(mac, Load(old(rx), did), did, frame)
      ensures rx == Raise(old(rx), did, r)
    {
      if frame.Short? {
        return Rejected(ShortFrame);
      }
      var floor := Load(rx, did);
      var cand := floor % LIMIT - floor % LIMIT % WRAP + frame.low;
      if cand <= floor {
        cand := cand + WRAP;
      }
      if cand >= LIMIT {
        return Raised;
      }
      if mac(did, frame.payload, cand) != frame.tag {
        return Rejected(MacMismatch);
      }
      if cand - floor > WINDOW {
        return Rejected(OutsideWindow);
      }
      rx := rx[did := cand];
      return Accepted(frame.payload, cand);
    }
  }

  // ---- Reconstruction ----

  /** The candidate is the least value above the floor with the received low half. */
  lemma ReconstructIsLeastAbove(floor: nat, low: nat)
    requires floor < LIMIT && low < WRAP
    ensures floor < Reconstruct(floor, low) <= floor + WRAP
    ensures Reconstruct(floor, low) % WRAP == low
    ensures forall v: nat :: floor < v && v % WRAP == low ==> Reconstruct(floor, low) <= v
  {
    assert floor % LIMIT == floor;
    var cand := Reconstruct(floor, low);
    forall v: nat | floor < v && v % WRAP == low ensures cand <= v {
      assert (cand - v) % WRAP == 0;
    }
  }

  /** A genuine frame is accepted exactly when its counter lies in the window above the floor,
      and then its full counter is recovered. The MAC of the same payload under the candidate
      counter must not collide with the frame's own. */
  lemma GenuineAcceptedIff<M>(mac: MacFn<M>, floor: nat, did: nat, payload: Payload, fv: nat)
    requires floor < LIMIT && fv < LIMIT
    requires var cand := Reconstruct(floor, fv % WRAP); mac(did, payload, cand) == mac(did, payload, fv) ==> cand == fv
    ensures Judge(mac, floor, did, Genuine(mac, did, payload, fv)).Accepted? <==> floor < fv <= floor + 0x8000
    ensures floor < fv <= floor + 0x8000 ==>
              Judge(mac, floor, did, Genuine(mac, did, payload, fv)) == Accepted(payload, fv)
  {
    ReconstructIsLeastAbove(floor, fv % WRAP);
    var cand := Reconstruct(floor, fv % WRAP);
    if floor < fv <= floor + WINDOW {
      assert cand <= fv && (fv - cand) % WRAP == 0;
    }
  }

  /** Why a genuine frame is turned down, if the MACs of two counters never agree by chance: one more than the
      window ahead but within a turn of the low half is genuine and out of the window; one further ahead or behind
      is taken for another counter, and fails by its MAC or for want of a fifth byte. */
  lemma GenuineRejectedFor<M>(mac: MacFn<M>, floor: nat, did: nat, payload: Payload, fv: nat)
    requires floor < LIMIT && fv < LIMIT
    requires var cand := Reconstruct(floor, fv % WRAP); mac(did, payload, cand) == mac(did, payload, fv) ==> cand == fv
    ensures var r := Judge(mac, floor, did, Genuine(mac, did, payload, fv));
            var above := floor + 1 + (fv - floor - 1) % 0x1_0000;
            && (r == Rejected(OutsideWindow) <==> floor + 0x8000 < fv <= floor + 0x1_0000)
            && (r == Raised <==> above >= 0x1_0000_0000)
            && (r == Rejected(MacMismatch) <==>
                  above < 0x1_0000_0000 && (fv <= floor || floor + 0x1_0000 < fv))
  {
    ReconstructIsLeastAbove(floor, fv % WRAP);
    var cand := Reconstruct(floor, fv % WRAP);
    NextWithLow(floor, fv, cand);
  }

  lemma NextWithLow(floor: nat, fv: nat, cand: nat)
    requires floor < cand <= floor + WRAP && cand % WRAP == fv % WRAP
    ensures cand == floor + 1 + (fv - floor - 1) % 0x1_0000
    ensures cand == fv <==> floor < fv <= floor + 0x1_0000
  {
    assert (cand - fv) % WRAP == 0;
  }

  /** The window alone decides whether a frame can be accepted under any tag at all: the low
      half must be 1 to 0x8000 ahead of the floor's, and the counter it stands for fit in four bytes. In
      particular frames 0 to 0x7FFF behind the floor are rejected whatever the MAC says. */
  lemma WindowDecides<M>(mac: MacFn<M>, floor: nat, did: nat, payload: Payload, low: Low)
    requires floor < LIMIT
    ensures var ahead := (low - floor) % WRAP;
            (exists tag :: Judge(mac, floor, did, Full(payload, tag, low)).Accepted?) <==>
              1 <= ahead <= 0x8000 && floor + ahead < 0x1_0000_0000
  {
    ReconstructIsLeastAbove(floor, low);
    var cand := Reconstruct(floor, low);
    assert (cand - floor) % WRAP == (low - floor) % WRAP;
    var tag := mac(did, payload, cand);
    if cand - floor <= WINDOW && cand < LIMIT {
      assert Judge(mac, floor, did, Full(payload, tag, low)).Accepted?;
    }
  }

  /** A genuine frame inside the window is accepted, whatever else the MAC is of. */
  lemma InWindowAccepted<M>(mac: MacFn<M>, floor: nat, did: nat, payload: Payload, fv: nat)
    requires floor < fv <= floor + 0x8000 && fv < LIMIT
    ensures Judge(mac, floor, did, Genuine(mac, did, payload, fv)) == Accepted(payload, fv)
  {
    ReconstructIsLeastAbove(floor, fv % WRAP);
    var cand := Reconstruct(floor, fv % WRAP);
    assert cand <= fv && (fv - cand) % WRAP == 0;
  }

  /** What is accepted is a frame of that payload, tag and counter, ahead of the floor and in the window. */
  lemma AcceptedIsGenuine<M>(mac: MacFn<M>, floor: nat, did: nat, frame: Frame<M>)
    requires floor < LIMIT && Judge(mac, floor, did, frame).Accepted?
    ensures var r := Judge(mac, floor, did, frame);
            && frame == Genuine(mac, did, r.payload, r.fv) && floor < r.fv <= floor + 0x8000
            && r.fv == Reconstruct(floor, frame.low) && r.payload == frame.payload
  {
    ReconstructIsLeastAbove(floor, frame.low);
  }

  lemma BehindFloorRejected<M>(mac: MacFn<M>, floor: nat, did: nat, payload: Payload, tag: M, behind: nat)
    requires floor < LIMIT && behind <= 0x7FFF && behind <= floor
    ensures !Judge(mac, floor, did, Full(payload, tag, (floor - behind) % WRAP)).Accepted?
  {
    ReconstructIsLeastAbove(floor, (floor - behind) % WRAP);
    var cand := Reconstruct(floor, (floor - behind) % WRAP);
    assert (cand - (floor - behind)) % WRAP == 0;
  }
}
