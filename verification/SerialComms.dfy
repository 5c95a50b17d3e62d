/** The resynchronising byte parser of serial_comms.hpp: 36-byte packets with a two-byte header and
    an additive checksum, the newest valid one taken from a bounded buffer. */
module SerialComms {
  import opened Options

  type Byte = x: int | 0 <= x < 256

  const PACKET := 36
  const CAP := 512

  function Sum(bytes: seq<Byte>): nat {
    if bytes == [] then 0 else Sum(bytes[..|bytes| - 1]) + bytes[|bytes| - 1]
  }

  /** Header, and a checksum equal to the low byte of the sum of the bytes before it. */
  predicate ValidPacket(p: seq<Byte>)
    requires |p| == PACKET
  {
    p[0] == 0xAA && p[1] == 0x55 && Sum(p[..35]) % 256 == p[35]
  }

  predicate ValidAt(buf: seq<Byte>, i: int) { 0 <= i && i + PACKET <= |buf| && ValidPacket(buf[i..i + PACKET]) }

  /** The sum of some bytes, first to last. */
  function Total(bytes: seq<Byte>): nat { if bytes == [] then 0 else bytes[0] + Total(bytes[1..]) }

  /** What the sender makes of 33 payload bytes: the header AA 55, the payload, and the low byte of their sum. */
  function Sealed(body: seq<Byte>): seq<Byte> { [170, 85] + body + [Total([170, 85] + body) % 256] }

  lemma {:induction false} SumIsTotal(bytes: seq<Byte>)
    ensures Sum(bytes) == Total(bytes)
  {
    if bytes != [] {
      var n := |bytes| - 1;
      SumIsTotal(bytes[..n]);
      assert bytes == bytes[..n] + [bytes[n]];
      TotalAppend(bytes[..n], bytes[n]);
    }
  }

  lemma {:induction false} TotalAppend(bytes: seq<Byte>, b: Byte)
    ensures Total(bytes + [b]) == Total(bytes) + b
  {
    if bytes == [] {
      assert bytes + [b] == [b];
    } else {
      TotalAppend(bytes[1..], b);
      assert (bytes + [b])[1..] == bytes[1..] + [b];
    }
  }

  /** A packet is valid if and only if it is what the sender makes of its payload. */
  lemma ValidIffSealed(p: seq<Byte>)
    requires |p| == 36
    ensures ValidPacket(p) <==> p == Sealed(p[2..35])
  {
    SumIsTotal(p[..35]);
    var sealed := Sealed(p[2..35]);
    if p[0] == 170 && p[1] == 85 {
      assert p[..35] == [170, 85] + p[2..35];
      assert p == p[..35] + [p[35]];
    } else {
      assert sealed[0] == 170 && sealed[1] == 85;
    }
  }

  ghost predicate NoPacket(buf: seq<Byte>) { forall i :: !ValidAt(buf, i) }

  /** The newest valid packet among those starting at or before i, or -1. */
  function NewestFrom(buf: seq<Byte>, i: int): (r: int)
    requires i + PACKET <= |buf|
    ensures -1 <= r && (r >= 0 ==> r <= i && ValidAt(buf, r))
    ensures forall j :: r < j <= i ==> !ValidAt(buf, j)
    decreases i + 1
  {
    if i < 0 then -1 else if ValidAt(buf, i) then i else NewestFrom(buf, i - 1)
  }

  /** One call: the packet delivered, if any, and the buffer kept. */
  datatype ReadResult = ReadResult(packet: Option<seq<Byte>>, kept: seq<Byte>)

  function Read(buf: seq<Byte>): ReadResult {
    if |buf| < PACKET then ReadResult(None, buf)
    else if |buf| > CAP then ReadResult(None, buf[|buf| - 35..])
    else
      var best := NewestFrom(buf, |buf| - PACKET);
      if best == -1 then ReadResult(None, buf[|buf| - 35..])
      else ReadResult(Some(buf[best..best + PACKET]), buf[best + PACKET..])
  }

  class SerialPort {
    var buffer: seq<Byte>

    constructor ()
      ensures buffer == []
    {
      buffer := [];
    }

    /** The checksum loop: uint8 addition wraps. */
    method Checksum(packet: seq<Byte>) returns (checksum: Byte)
      requires |packet| == PACKET
      ensures checksum == Sum(packet[..35]) % 256
    {
      checksum := 0;
      for j := 0 to PACKET - 1
        invariant checksum == Sum(packet[..j]) % 256
      {
        assert packet[..j + 1][..j] == packet[..j];
        checksum := (checksum + packet[j]) % 256;
      }
    }

    /** Searches backwards for the newest valid packet. */
    method FindNewest(buf: seq<Byte>) returns (best: int)
      requires |buf| >= PACKET
      ensures best == NewestFrom(buf, |buf| - PACKET)
    {
      var i := |buf| - PACKET;
      while i >= 0
        invariant -1 <= i <= |buf| - PACKET
        invariant NewestFrom(buf, i) == NewestFrom(buf, |buf| - PACKET)
      {
        var p := buf[i..i + PACKET];
        assert p[0] == buf[i] && p[1] == buf[i + 1] && p[35] == buf[i + 35];
        if buf[i] == 0xAA && buf[i + 1] == 0x55 {
          var checksum := Checksum(p);
          if checksum == p[35] {
            assert ValidAt(buf, i);
            return i;
          }
        }
        assert !ValidPacket(p);
        i := i - 1;
      }
      return -1;
    }

    /** `available` is what the port holds at the call. */
    method ReadSensorValues(available: seq<Byte>) returns (packet: Option<seq<Byte>>)
      modifies this
      ensures ReadResult(packet, buffer) == Read(old(buffer) + available)
    {
      if |available| > 0 {
        buffer := buffer + available;
      }
      assert buffer == old(buffer) + available;
      if |buffer| < PACKET {
        return None;
      }
      if |buffer| > CAP {
        buffer := buffer[|buffer| - 35..];
        return None;
      }
      var best := FindNewest(buffer);
      if best != -1 {
        packet := Some(buffer[best..best + PACKET]);
        buffer := buffer[best + PACKET..];
      } else {
        packet := None;
        buffer := buffer[|buffer| - 35..];
      }
    }
  }

  // ---- Runs over a chunked stream ----

  /** `received` is everything so far, `kept` the buffer after the last call, and `delivered` lists the
      stream positions of the packets handed out. */
  datatype Session = Session(received: seq<Byte>, kept: seq<Byte>, delivered: seq<int>)

  /** The deliveries after a call whose packet, if any, ends where the kept buffer begins. */
  function Record(stream: seq<Byte>, delivered: seq<int>, r: ReadResult): seq<int> {
    if r.packet.Some? then delivered + [|stream| - |r.kept| - PACKET] else delivered
  }

  function Advance(s: Session, chunk: seq<Byte>, r: ReadResult): Session {
    Session(s.received + chunk, r.kept, Record(s.received + chunk, s.delivered, r))
  }

  function Step(read: seq<Byte> -> ReadResult, s: Session, chunk: seq<Byte>): Session {
    Advance(s, chunk, read(s.kept + chunk))
  }

  /** The session of a reader over a stream that arrives in these chunks. */
  function Run(read: seq<Byte> -> ReadResult, chunks: seq<seq<Byte>>): Session {
    if chunks == [] then Session([], [], []) else Step(read, Run(read, chunks[..|chunks| - 1]), chunks[|chunks| - 1])
  }

  /** Where the last delivered packet ends. */
  function End(delivered: seq<int>): int { if delivered == [] then 0 else delivered[|delivered| - 1] + PACKET }

  /** Deliveries are disjoint, in stream order, and each a valid packet of the stream. */
  ghost predicate DeliveriesFit(stream: seq<Byte>, delivered: seq<int>) {
    && (forall k, l :: 0 <= k < l < |delivered| ==> delivered[k] + PACKET <= delivered[l])
    && (forall k :: 0 <= k < |delivered| ==> ValidAt(stream, delivered[k]))
  }

  /** Deliveries are in order, and the buffer is kept well since the last of them. */
  ghost predicate Inv(s: Session) {
    DeliveriesFit(s.received, s.delivered) && KeptWell(s.received, s.kept, End(s.delivered))
  }

  /** A suffix of a buffer has no valid packet if the buffer has none from its start on. */
  lemma SuffixInvalid(buf: seq<Byte>, from: nat)
    requires from <= |buf|
    requires forall j :: from <= j ==> !ValidAt(buf, j)
    ensures NoPacket(buf[from..])
  {
    forall i | ValidAt(buf[from..], i) ensures false {
      assert buf[from..][i..i + PACKET] == buf[from + i..from + i + PACKET];
      assert ValidAt(buf, from + i);
    }
  }

  /** What one call does: it keeps a suffix of at most 476 bytes without a valid packet, and a
      packet it delivers is the newest valid one, just before that suffix. */
  ghost predicate ReadSpec(buf: seq<Byte>, r: ReadResult) {
    && |r.kept| <= |buf| && r.kept == buf[|buf| - |r.kept|..] && |r.kept| <= 476
    && NoPacket(r.kept)
    && (r.packet.None? ==> (r.kept == buf || |r.kept| == 35) && (|buf| <= 512 ==> NoPacket(buf)))
    && (r.packet.Some? ==>
          var i := |buf| - |r.kept| - PACKET;
          ValidAt(buf, i) && r.packet.value == buf[i..i + PACKET] && forall j :: ValidAt(buf, j) ==> j <= i)
  }

  lemma ReadMeetsSpec(buf: seq<Byte>)
    ensures ReadSpec(buf, Read(buf))
  {
    if PACKET <= |buf| <= CAP {
      var best := NewestFrom(buf, |buf| - PACKET);
      var from := if best == -1 then |buf| - 35 else best + PACKET;
      SuffixInvalid(buf, from);
    }
  }

  /** Valid packets of a stream stay valid when it grows. */
  lemma ValidStays(stream: seq<Byte>, chunk: seq<Byte>, i: int)
    requires ValidAt(stream, i)
    ensures ValidAt(stream + chunk, i)
  {
    assert (stream + chunk)[i..i + PACKET] == stream[i..i + PACKET];
  }

  /** The buffer a call searches is a suffix of the stream... */
  lemma BufferIsSuffix(received: seq<Byte>, kept: seq<Byte>, chunk: seq<Byte>)
    requires |kept| <= |received| && kept == received[|received| - |kept|..]
    ensures kept + chunk == (received + chunk)[|received| - |kept|..]
  {
  }

  /** ...so its packets are the stream's, with positions shifted. */
  lemma ValidInStream(stream: seq<Byte>, from: nat, buf: seq<Byte>, i: nat)
    requires from + i + PACKET <= |stream| && buf == stream[from..]
    ensures buf[i..i + PACKET] == stream[from + i..from + i + PACKET]
    ensures ValidAt(buf, i) <==> ValidAt(stream, from + i)
  {
  }

  lemma DeliveriesStay(stream: seq<Byte>, chunk: seq<Byte>, delivered: seq<int>)
    requires DeliveriesFit(stream, delivered)
    ensures DeliveriesFit(stream + chunk, delivered)
  {
    forall k | 0 <= k < |delivered| ensures ValidAt(stream + chunk, delivered[k]) {
      ValidStays(stream, chunk, delivered[k]);
    }
  }

  /** A further valid packet, after the end of the last delivery. */
  lemma DeliverNext(stream: seq<Byte>, delivered: seq<int>, next: int)
    requires DeliveriesFit(stream, delivered) && ValidAt(stream, next) && End(delivered) <= next
    ensures DeliveriesFit(stream, delivered + [next])
  {
    var more := delivered + [next];
    forall k, l | 0 <= k < l < |more| ensures more[k] + PACKET <= more[l] {
      if l == |delivered| && k < |delivered| - 1 {
        assert delivered[k] + PACKET <= delivered[|delivered| - 1];
      }
    }
    forall k | 0 <= k < |more| ensures ValidAt(stream, more[k]) {
      assert k < |delivered| ==> more[k] == delivered[k];
    }
  }

  /** A delivered packet lies in the stream where its position says, in the part searched. */
  lemma PacketInStream(stream: seq<Byte>, from: nat, buf: seq<Byte>, r: ReadResult)
    requires from <= |stream| && buf == stream[from..] && ReadSpec(buf, r) && r.packet.Some?
    ensures var at := |stream| - |r.kept| - PACKET;
            from <= at && ValidAt(stream, at) && r.packet.value == stream[at..at + PACKET]
  {
    ValidInStream(stream, from, buf, |buf| - |r.kept| - PACKET);
  }

  /** The end of the last delivery after a call. */
  function EndAfter(stream: seq<Byte>, end: int, r: ReadResult): int {
    if r.packet.Some? then |stream| - |r.kept| else end
  }

  /** A buffer is kept well: a suffix of the stream without a valid packet, at most 476 bytes long, from
      the last delivery's end or of at least 35 bytes. */
  ghost predicate KeptWell(stream: seq<Byte>, kept: seq<Byte>, end: int) {
    && |kept| <= |stream| && kept == stream[|stream| - |kept|..] && |kept| <= 476
    && NoPacket(kept)
    && end <= |stream| - |kept| && (|stream| - |kept| == end || 35 <= |kept|)
  }

  lemma BufferAfter(stream: seq<Byte>, from: nat, buf: seq<Byte>, end: int, r: ReadResult)
    requires from <= |stream| && buf == stream[from..] && ReadSpec(buf, r)
    requires end <= from && (from == end || 35 <= |buf|)
    ensures KeptWell(stream, r.kept, EndAfter(stream, end, r))
  {
    assert stream[from..][|buf| - |r.kept|..] == stream[|stream| - |r.kept|..];
  }

  lemma DeliveriesAfter(stream: seq<Byte>, delivered: seq<int>, from: nat, buf: seq<Byte>, r: ReadResult)
    requires from <= |stream| && buf == stream[from..] && ReadSpec(buf, r)
    requires DeliveriesFit(stream, delivered) && End(delivered) <= from
    ensures DeliveriesFit(stream, Record(stream, delivered, r))
  {
    if r.packet.Some? {
      PacketInStream(stream, from, buf, r);
      DeliverNext(stream, delivered, |stream| - |r.kept| - PACKET);
    }
  }

  lemma AdvanceKeepsBuffer(received: seq<Byte>, kept: seq<Byte>, end: int, chunk: seq<Byte>, r: ReadResult)
    requires KeptWell(received, kept, end) && ReadSpec(kept + chunk, r)
    ensures KeptWell(received + chunk, r.kept, EndAfter(received + chunk, end, r))
  {
    BufferIsSuffix(received, kept, chunk);
    BufferAfter(received + chunk, |received| - |kept|, kept + chunk, end, r);
  }

  lemma AdvanceKeepsDeliveries(received: seq<Byte>, kept: seq<Byte>, delivered: seq<int>, chunk: seq<Byte>,
                               r: ReadResult)
    requires KeptWell(received, kept, End(delivered)) && ReadSpec(kept + chunk, r)
    requires DeliveriesFit(received + chunk, delivered)
    ensures DeliveriesFit(received + chunk, Record(received + chunk, delivered, r))
  {
    BufferIsSuffix(received, kept, chunk);
    DeliveriesAfter(received + chunk, delivered, |received| - |kept|, kept + chunk, r);
  }

  lemma AdvanceKeepsInv(s: Session, chunk: seq<Byte>, r: ReadResult)
    requires Inv(s) && ReadSpec(s.kept + chunk, r)
    ensures Inv(Advance(s, chunk, r))
  {
    var stream := s.received + chunk;
    AdvanceKeepsBuffer(s.received, s.kept, End(s.delivered), chunk, r);
    DeliveriesStay(s.received, chunk, s.delivered);
    AdvanceKeepsDeliveries(s.received, s.kept, s.delivered, chunk, r);
    assert EndAfter(stream, End(s.delivered), r) == End(Record(stream, s.delivered, r));
  }

  /** A reader whose every call does what ReadSpec says. */
  ghost predicate Correct(read: seq<Byte> -> ReadResult) {
    forall buf :: ReadSpec(buf, read(buf))
  }

  lemma ReadIsCorrect()
    ensures Correct(Read)
  {
    forall buf ensures ReadSpec(buf, Read(buf)) {
      ReadMeetsSpec(buf);
    }
  }

  /** For any chunking of the stream the invariant holds after each call. */
  lemma {:induction false} RunKeepsInv(read: seq<Byte> -> ReadResult, chunks: seq<seq<Byte>>)
    requires Correct(read)
    ensures Inv(Run(read, chunks))
  {
    if chunks != [] {
      RunKeepsInv(read, chunks[..|chunks| - 1]);
      var s, chunk := Run(read, chunks[..|chunks| - 1]), chunks[|chunks| - 1];
      AdvanceKeepsInv(s, chunk, read(s.kept + chunk));
    }
  }

  /** A buffer of at most 512 bytes that ends in a valid packet is emptied by delivering it. */
  lemma PacketIsNewest(buf: seq<Byte>, r: ReadResult)
    requires ReadSpec(buf, r) && |buf| <= 512 && ValidAt(buf, |buf| - PACKET)
    ensures r.packet.Some? && r.kept == []
  {
  }

  /** A packet that ends the stream after the last delivery is still buffered, and so delivered. */
  lemma NextDelivers(received: seq<Byte>, kept: seq<Byte>, end: int, chunk: seq<Byte>, r: ReadResult)
    requires KeptWell(received, kept, end) && chunk != [] && ReadSpec(kept + chunk, r) && |kept + chunk| <= 512
    requires ValidAt(received + chunk, |received + chunk| - PACKET) && end <= |received + chunk| - PACKET
    ensures r.kept == [] && r.packet == Some((received + chunk)[|received + chunk| - PACKET..])
  {
    var stream, from, buf := received + chunk, |received| - |kept|, kept + chunk;
    BufferIsSuffix(received, kept, chunk);
    LastPacketDelivered(stream, from, buf, r);
  }

  lemma LastPacketDelivered(stream: seq<Byte>, from: nat, buf: seq<Byte>, r: ReadResult)
    requires from + PACKET <= |stream| <= from + 512 && buf == stream[from..] && ReadSpec(buf, r)
    requires ValidAt(stream, |stream| - PACKET)
    ensures r.kept == [] && r.packet == Some(stream[|stream| - PACKET..])
  {
    ValidInStream(stream, from, buf, |buf| - PACKET);
    PacketIsNewest(buf, r);
    PacketInStream(stream, from, buf, r);
    assert stream[|stream| - PACKET..|stream| - PACKET + PACKET] == stream[|stream| - PACKET..];
  }

  /** The stream now ends, with a non-empty chunk, in a valid packet untouched by earlier deliveries, and
      at most 512 bytes are buffered. */
  ghost predicate EndsInPacket(s: Session, chunk: seq<Byte>) {
    var stream := s.received + chunk;
    chunk != [] && ValidAt(stream, |stream| - PACKET) && End(s.delivered) <= |stream| - PACKET
      && |s.kept + chunk| <= 512
  }

  function Delivered(s: Session, chunk: seq<Byte>): Session {
    Session(s.received + chunk, [], s.delivered + [|s.received + chunk| - PACKET])
  }

  lemma StepDelivers(read: seq<Byte> -> ReadResult, s: Session, chunk: seq<Byte>)
    requires Correct(read) && Inv(s) && EndsInPacket(s, chunk)
    ensures read(s.kept + chunk) == ReadResult(Some((s.received + chunk)[|s.received + chunk| - PACKET..]), [])
    ensures Step(read, s, chunk) == Delivered(s, chunk)
  {
    NextDelivers(s.received, s.kept, End(s.delivered), chunk, read(s.kept + chunk));
  }

  lemma RunAppend(read: seq<Byte> -> ReadResult, chunks: seq<seq<Byte>>, chunk: seq<Byte>)
    ensures Run(read, chunks + [chunk]) == Step(read, Run(read, chunks), chunk)
  {
    assert (chunks + [chunk])[..|chunks|] == chunks;
  }

  /** For any chunking, after each call the session invariant holds; and a packet the stream then ends
      in is delivered by the very call that completes it. */
  lemma SerialSession(chunks: seq<seq<Byte>>, chunk: seq<Byte>)
    ensures Inv(Run(Read, chunks))
    ensures EndsInPacket(Run(Read, chunks), chunk) ==>
        Run(Read, chunks + [chunk]) == Delivered(Run(Read, chunks), chunk)
  {
    ReadIsCorrect();
    RunKeepsInv(Read, chunks);
    if EndsInPacket(Run(Read, chunks), chunk) {
      StepDelivers(Read, Run(Read, chunks), chunk);
      RunAppend(Read, chunks, chunk);
    }
  }
}
