/** RPC packets: tags, headers, and what each side reads back. */
module Framing {
  import opened Bytes

  const HEADER_SIZE: nat := 8
  const VERSION: nat := 0x0100
  const FLAG_REPLY: byte := 1
  const MAX_PAYLOAD: nat := 0xffff - HEADER_SIZE

  datatype Header = Header(version: uint16, length: uint16, endpoint: byte, tag: byte, flags: byte, reserved: byte)

  /** The packed header in native (little-endian) byte order. */
  function HeaderBytes(h: Header): (s: seq<byte>)
    ensures |s| == HEADER_SIZE
  {
    [h.version % 0x100, h.version / 0x100, h.length % 0x100, h.length / 0x100,
     h.endpoint, h.tag, h.flags, h.reserved]
  }

  function LittleEndian(low: int, high: int): (r: int)
    ensures 0 <= low < 0x100 && 0 <= high < 0x100 ==> 0 <= r < 0x1_0000
  {
    low + 0x100 * high
  }

  function HeaderOf(buf: seq<byte>): Header
    requires |buf| >= HEADER_SIZE
  {
    Header(LittleEndian(buf[0], buf[1]), LittleEndian(buf[2], buf[3]), buf[4], buf[5], buf[6], buf[7])
  }

  /** The packet for a payload; its length field has sixteen bits. */
  function Framed(endpoint: byte, tag: byte, flags: byte, payload: seq<byte>): seq<byte> {
    HeaderBytes(Header(VERSION, (HEADER_SIZE + |payload|) % 0x1_0000, endpoint, tag, flags, 0)) + payload
  }

  /** The packet, byte by byte: version 1.0, low byte first, the total length, and a reserved zero. */
  lemma PacketLayout(endpoint: byte, tag: byte, flags: byte, payload: seq<byte>)
    ensures Framed(endpoint, tag, flags, payload) ==
            [0x00, 0x01, (|payload| + 8) % 256, (|payload| + 8) / 256 % 256, endpoint, tag, flags, 0x00] + payload
  {
    var n := |payload| + 8;
    var q, r := n / 0x1_0000, n % 0x1_0000;
    assert n == 256 * (256 * q + r / 256) + r % 256;
    assert r % 256 == n % 256 && n / 256 == 256 * q + r / 256;
    assert r / 256 == n / 256 % 256;
  }

  // ---------- Reading ----------

  /** Overrun: the length field claims more than was received, and the code reads past it. */
  datatype Parsed = Rejected | Overrun | Delivered(header: Header, payload: seq<byte>)

  function Delivery(buf: seq<byte>): Parsed
    requires |buf| >= HEADER_SIZE && HeaderOf(buf).length >= HEADER_SIZE
  {
    var h := HeaderOf(buf);
    if h.length <= |buf| then Delivered(h, buf[HEADER_SIZE..h.length]) else Overrun
  }

  /** The GUI's reader checks the version and the lower bound of the length. */
  function ReadByClient(buf: seq<byte>): Parsed {
    if |buf| < HEADER_SIZE || HeaderOf(buf).version != VERSION || HeaderOf(buf).length < HEADER_SIZE
    then Rejected
    else Delivery(buf)
  }

  /** pinballd also compares the payload length with the size of the whole receive buffer. */
  function ReadByServer(buf: seq<byte>): Parsed {
    if |buf| < HEADER_SIZE || HeaderOf(buf).version != VERSION || HeaderOf(buf).length < HEADER_SIZE
       || HeaderOf(buf).length - HEADER_SIZE > |buf|
    then Rejected
    else Delivery(buf)
  }

  /** What each reader refuses, byte by byte. */
  lemma RejectedIff(buf: seq<byte>)
    ensures ReadByClient(buf).Rejected? <==>
            |buf| < 8 || buf[0] != 0x00 || buf[1] != 0x01 || (buf[2] as int) + 256 * (buf[3] as int) < 8
    ensures ReadByServer(buf).Rejected? <==>
            || |buf| < 8 || buf[0] != 0x00 || buf[1] != 0x01 || (buf[2] as int) + 256 * (buf[3] as int) < 8
            || (buf[2] as int) + 256 * (buf[3] as int) - 8 > |buf|
  {}

  /** What each reader delivers, byte by byte. */
  lemma DeliveredFields(buf: seq<byte>, header: Header, payload: seq<byte>)
    requires ReadByClient(buf) == Delivered(header, payload) || ReadByServer(buf) == Delivered(header, payload)
    ensures |buf| >= 8 && 8 <= (buf[2] as int) + 256 * (buf[3] as int) <= |buf|
    ensures header == Header(256, (buf[2] as int) + 256 * (buf[3] as int), buf[4], buf[5], buf[6], buf[7])
    ensures payload == buf[8..(buf[2] as int) + 256 * (buf[3] as int)]
  {}

  lemma HeaderRoundTrip(h: Header, rest: seq<byte>)
    ensures HeaderOf(HeaderBytes(h) + rest) == h
  {}

  /** Both readers get exactly the payload and header that were sent if and only if the payload
      fits the length field; larger payloads are rejected or cut, never delivered. */
  lemma FramedReadBackIff(endpoint: byte, tag: byte, flags: byte, payload: seq<byte>)
    ensures var buf := Framed(endpoint, tag, flags, payload);
            && (|payload| <= 65527 ==>
                  ReadByClient(buf) == ReadByServer(buf) ==
                  Delivered(Header(VERSION, HEADER_SIZE + |payload|, endpoint, tag, flags, 0), payload))
            && (|payload| > 65527 ==> forall h ::
                  ReadByClient(buf) != Delivered(h, payload) && ReadByServer(buf) != Delivered(h, payload))
  {
    hide HeaderBytes, HeaderOf;
    var h := Header(VERSION, (HEADER_SIZE + |payload|) % 0x1_0000, endpoint, tag, flags, 0);
    HeaderRoundTrip(h, payload);
    if |payload| <= MAX_PAYLOAD {
      assert Framed(endpoint, tag, flags, payload)[HEADER_SIZE..HEADER_SIZE + |payload|] == payload;
    }
  }

  /** pinballd's extra check lets exactly the packets through that are cut short by at most a
      header's length. */
  lemma ServerOverrunIff(buf: seq<byte>)
    requires |buf| >= HEADER_SIZE && HeaderOf(buf).version == VERSION && HeaderOf(buf).length >= HEADER_SIZE
    ensures ReadByServer(buf).Overrun? <==> |buf| < HeaderOf(buf).length <= |buf| + 8
  {
    hide HeaderOf;
  }

  /** The GUI's reader has no upper check at all. */
  lemma ClientOverrunIff(buf: seq<byte>)
    requires |buf| >= HEADER_SIZE && HeaderOf(buf).version == VERSION && HeaderOf(buf).length >= HEADER_SIZE
    ensures ReadByClient(buf).Overrun? <==> |buf| < HeaderOf(buf).length
  {
    hide HeaderOf;
  }

  // ---------- From the stream of bytes to packets ----------

  /** What is given to Framed. */
  datatype Packet = Packet(endpoint: byte, tag: byte, flags: byte, payload: seq<byte>) {
    function Bytes(): seq<byte> {
      Framed(endpoint, tag, flags, payload)
    }

    function Delivered(): Parsed {
      Parsed.Delivered(Header(VERSION, (HEADER_SIZE + |payload|) % 0x1_0000, endpoint, tag, flags, 0), payload)
    }

    predicate Fits() {
      |payload| <= MAX_PAYLOAD
    }
  }

  /** The bytes of packets sent one after the other. */
  function Stream(packets: seq<Packet>): seq<byte> {
    if packets == [] then [] else packets[0].Bytes() + Stream(packets[1..])
  }

  /** A read that holds several packets delivers the first and drops the others. */
  lemma OnlyFirstDelivered(packets: seq<Packet>)
    requires packets != [] && packets[0].Fits()
    ensures ReadByClient(Stream(packets)) == ReadByServer(Stream(packets)) == packets[0].Delivered()
  {
    hide HeaderBytes, HeaderOf;
    var p, rest := packets[0], Stream(packets[1..]);
    var h := Header(VERSION, HEADER_SIZE + |p.payload|, p.endpoint, p.tag, p.flags, 0);
    var buf := Stream(packets);
    assert buf == HeaderBytes(h) + (p.payload + rest);
    HeaderRoundTrip(h, p.payload + rest);
    assert buf[HEADER_SIZE..h.length] == p.payload;
  }

  /** A read that ends inside a packet is rejected, or takes the packet for whole and runs past the
      end of what was received; the packet is not delivered. */
  lemma CutNotDelivered(p: Packet, k: nat)
    requires p.Fits() && k < |p.Bytes()|
    ensures ReadByClient(p.Bytes()[..k]) == if k < 8 then Rejected else Overrun
    ensures ReadByServer(p.Bytes()[..k]) ==
            if k < 8 || |p.payload| > k then Rejected else Overrun
  {
    hide HeaderBytes, HeaderOf;
    if k >= HEADER_SIZE {
      var h := Header(VERSION, HEADER_SIZE + |p.payload|, p.endpoint, p.tag, p.flags, 0);
      HeaderRoundTrip(h, p.payload[..k - HEADER_SIZE]);
      assert p.Bytes()[..k] == HeaderBytes(h) + p.payload[..k - HEADER_SIZE];
    }
  }

  datatype Side = Gui | Pinballd

  function Read(side: Side, buf: seq<byte>): Parsed {
    match side
    case Gui => ReadByClient(buf)
    case Pinballd => ReadByServer(buf)
  }

  /** What successive reads hand on; a rejected read hands nothing on. */
  function Handled(side: Side, chunks: seq<seq<byte>>): seq<Parsed> {
    if chunks == [] then []
    else
      var first := Read(side, chunks[0]);
      (if first.Rejected? then [] else [first]) + Handled(side, chunks[1..])
  }

  /** What should be handed on. */
  function Expected(packets: seq<Packet>): seq<Parsed> {
    seq(|packets|, i requires 0 <= i < |packets| => packets[i].Delivered())
  }

  function Joined(chunks: seq<seq<byte>>): seq<byte> {
    if chunks == [] then [] else chunks[0] + Joined(chunks[1..])
  }

  function NonEmpty(chunks: seq<seq<byte>>): seq<seq<byte>> {
    if chunks == [] then [] else (if chunks[0] == [] then [] else [chunks[0]]) + NonEmpty(chunks[1..])
  }

  function Packets(packets: seq<Packet>): seq<seq<byte>> {
    seq(|packets|, i requires 0 <= i < |packets| => packets[i].Bytes())
  }

  predicate AllFit(packets: seq<Packet>) {
    forall i :: 0 <= i < |packets| ==> packets[i].Fits()
  }

  lemma ExpectedFirst(packets: seq<Packet>)
    requires packets != []
    ensures Expected(packets) == [packets[0].Delivered()] + Expected(packets[1..])
    ensures Packets(packets) == [packets[0].Bytes()] + Packets(packets[1..])
    ensures packets[0].Bytes() != []
  {}

  /** A first read that leaves enough for the other packets holds the first packet only. */
  lemma FirstTakesOne(chunks: seq<seq<byte>>, packets: seq<Packet>)
    requires chunks != [] && packets != [] && Joined(chunks) == Stream(packets)
    requires |chunks[0]| >= |packets[0].Bytes()| && |Joined(chunks[1..])| >= |Stream(packets[1..])|
    ensures chunks[0] == packets[0].Bytes() && Joined(chunks[1..]) == Stream(packets[1..])
  {
    hide Framed;
    var n := |packets[0].Bytes()|;
    assert |Joined(chunks)| == |chunks[0]| + |Joined(chunks[1..])|;
    assert chunks[0] == Joined(chunks)[..n] && Joined(chunks[1..]) == Joined(chunks)[n..];
  }

  lemma DeliveredIsLong(side: Side, buf: seq<byte>, p: Packet)
    requires p.Fits() && Read(side, buf) == p.Delivered()
    ensures |buf| >= |p.Bytes()|
  {
    hide HeaderBytes, HeaderOf;
  }

  lemma HandledFirst(side: Side, chunks: seq<seq<byte>>, packets: seq<Packet>)
    requires AllFit(packets) && Handled(side, chunks) == Expected(packets)
    requires chunks != [] && !Read(side, chunks[0]).Rejected?
    ensures packets != [] && |chunks[0]| >= |packets[0].Bytes()|
    ensures AllFit(packets[1..]) && Handled(side, chunks[1..]) == Expected(packets[1..])
  {
    hide Read, Framed;
    var first, rest := Read(side, chunks[0]), Handled(side, chunks[1..]);
    assert Handled(side, chunks)[0] == first && Handled(side, chunks)[1..] == rest;
    ExpectedFirst(packets);
    assert Expected(packets)[0] == packets[0].Delivered() && Expected(packets)[1..] == Expected(packets[1..]);
    DeliveredIsLong(side, chunks[0], packets[0]);
  }

  /** Every packet handed on took at least its own length. */
  lemma {:induction false} HandledIsLong(side: Side, chunks: seq<seq<byte>>, packets: seq<Packet>)
    requires AllFit(packets) && Handled(side, chunks) == Expected(packets)
    ensures |Joined(chunks)| >= |Stream(packets)|
  {
    hide Read, Framed;
    if chunks != [] {
      if Read(side, chunks[0]).Rejected? {
        assert [] + Handled(side, chunks[1..]) == Handled(side, chunks[1..]);
        HandledIsLong(side, chunks[1..], packets);
      } else {
        HandledFirst(side, chunks, packets);
        HandledIsLong(side, chunks[1..], packets[1..]);
      }
    }
  }

  lemma {:induction false} HandledOnlyIf(side: Side, chunks: seq<seq<byte>>, packets: seq<Packet>)
    requires AllFit(packets) && Joined(chunks) == Stream(packets)
    requires Handled(side, chunks) == Expected(packets)
    ensures NonEmpty(chunks) == Packets(packets)
  {
    hide Read, Framed;
    if chunks != [] {
      var first, rest := chunks[0], chunks[1..];
      assert |Joined(chunks)| == |first| + |Joined(rest)|;
      if Read(side, first).Rejected? {
        assert [] + Handled(side, rest) == Handled(side, rest);
        HandledIsLong(side, rest, packets);
        assert first == [];
        assert Joined(chunks) == Joined(rest);
        HandledOnlyIf(side, rest, packets);
      } else {
        HandledFirst(side, chunks, packets);
        HandledIsLong(side, rest, packets[1..]);
        FirstTakesOne(chunks, packets);
        ExpectedFirst(packets);
        HandledOnlyIf(side, rest, packets[1..]);
      }
    }
  }

  lemma EmptyRejected(side: Side)
    ensures Read(side, []).Rejected?
  {}

  lemma OnePacketDelivered(side: Side, p: Packet)
    requires p.Fits()
    ensures Read(side, p.Bytes()) == p.Delivered()
  {
    OnlyFirstDelivered([p]);
    assert Stream([p]) == p.Bytes() + [];
  }

  lemma {:induction false} HandledIf(side: Side, chunks: seq<seq<byte>>, packets: seq<Packet>)
    requires AllFit(packets) && NonEmpty(chunks) == Packets(packets)
    ensures Handled(side, chunks) == Expected(packets)
  {
    hide Read, Framed;
    if chunks != [] {
      var first, rest := chunks[0], chunks[1..];
      if first == [] {
        EmptyRejected(side);
        assert [] + NonEmpty(rest) == NonEmpty(rest);
        assert [] + Handled(side, rest) == Handled(side, rest);
        HandledIf(side, rest, packets);
      } else {
        assert NonEmpty(chunks)[0] == first && NonEmpty(chunks)[1..] == NonEmpty(rest);
        assert Packets(packets)[0] == packets[0].Bytes() && Packets(packets)[1..] == Packets(packets[1..]);
        OnePacketDelivered(side, packets[0]);
        ExpectedFirst(packets);
        HandledIf(side, rest, packets[1..]);
      }
    }
  }

  /** However a stream of packets is cut into reads, exactly the packets sent are handed on if and
      only if every read that is not empty holds exactly one whole packet. */
  lemma AllDeliveredIff(side: Side, chunks: seq<seq<byte>>, packets: seq<Packet>)
    requires AllFit(packets) && Joined(chunks) == Stream(packets)
    ensures Handled(side, chunks) == Expected(packets) <==> NonEmpty(chunks) == Packets(packets)
  {
    if Handled(side, chunks) == Expected(packets) {
      HandledOnlyIf(side, chunks, packets);
    }
    if NonEmpty(chunks) == Packets(packets) {
      HandledIf(side, chunks, packets);
    }
  }

  function Results(side: Side, chunks: seq<seq<byte>>): seq<Parsed> {
    seq(|chunks|, i requires 0 <= i < |chunks| => Read(side, chunks[i]))
  }

  lemma {:induction false} NoneRejected(side: Side, chunks: seq<seq<byte>>)
    requires forall i :: 0 <= i < |chunks| ==> !Read(side, chunks[i]).Rejected?
    ensures Handled(side, chunks) == Results(side, chunks)
    ensures NonEmpty(chunks) == chunks
  {
    hide Read, Framed;
    if chunks != [] {
      EmptyRejected(side);
      var first, rest := chunks[0], chunks[1..];
      NoneRejected(side, rest);
      assert Results(side, chunks) == [Read(side, first)] + Results(side, rest);
      assert chunks == [first] + rest;
    }
  }

  /** Read by read: each read yields the next packet if and only if the reads are the packets. */
  lemma EachReadOnePacketIff(side: Side, chunks: seq<seq<byte>>, packets: seq<Packet>)
    requires AllFit(packets) && Joined(chunks) == Stream(packets)
    ensures Results(side, chunks) == Expected(packets) <==> chunks == Packets(packets)
  {
    hide Read, Framed;
    if Results(side, chunks) == Expected(packets) {
      forall i | 0 <= i < |chunks|
        ensures !Read(side, chunks[i]).Rejected?
      {
        assert Results(side, chunks)[i] == Expected(packets)[i];
      }
      NoneRejected(side, chunks);
      AllDeliveredIff(side, chunks, packets);
    }
    if chunks == Packets(packets) {
      forall i | 0 <= i < |chunks|
        ensures Results(side, chunks)[i] == Expected(packets)[i]
      {
        OnePacketDelivered(side, packets[i]);
      }
    }
  }

  // ---------- Tags ----------

  function Increment(tag: byte): byte {
    (tag + 1) % 0x100
  }

  function NextTag(tag: byte): (t: byte)
    ensures t != 0
  {
    if Increment(tag) == 0 then 1 else Increment(tag)
  }

  /** The tag of the k-th packet of a connection, counting from one. */
  function TagOf(k: nat): byte {
    if k == 0 then 0 else NextTag(TagOf(k - 1))
  }

  lemma Successor255(n: nat)
    ensures (n + 1) % 255 == if n % 255 == 254 then 0 else n % 255 + 1
  {
    var q := n / 255;
    assert n + 1 == 255 * q + (n % 255 + 1);
  }

  lemma NextTagCounts(tag: byte)
    ensures NextTag(tag) == if tag == 255 then 1 else tag + 1
  {}

  lemma {:induction false} TagValue(k: nat)
    requires k > 0
    ensures TagOf(k) == (k - 1) % 255 + 1
  {
    hide NextTag, Increment;
    NextTagCounts(0);
    if k > 1 {
      TagValue(k - 1);
      NextTagCounts((k - 2) % 255 + 1);
      Successor255(k - 2);
    } else {
      assert TagOf(0) == 0;
    }
  }

  lemma SameRemainder(a: nat, b: nat)
    requires a <= b
    ensures a % 255 == b % 255 <==> (b - a) % 255 == 0
  {
    var p, q, m := a / 255, b / 255, (b - a) / 255;
    assert a == 255 * p + a % 255 && b == 255 * q + b % 255;
    assert b - a == 255 * m + (b - a) % 255;
    assert 255 * (q - p - m) == (b - a) % 255 - (b % 255 - a % 255);
  }

  /** Tags are never zero, and two packets share one if and only if they are a multiple of 255
      packets apart. */
  lemma TagsRepeatIff(j: nat, k: nat)
    requires 0 < j <= k
    ensures TagOf(j) != 0
    ensures TagOf(j) == TagOf(k) <==> (k - j) % 255 == 0
  {
    hide TagOf;
    TagValue(j);
    TagValue(k);
    SameRemainder(j - 1, k - 1);
  }

  // ---------- Writing ----------

  /** The zeroed packet buffer is filled in place: header first, then the payload behind it. */
  method FillPacket(endpoint: byte, tag: byte, payload: seq<byte>) returns (packet: seq<byte>)
    ensures packet == Framed(endpoint, tag, 0, payload)
  {
    var size := HEADER_SIZE + |payload|;
    var buffer := new byte[size](_ => 0);
    var length: uint16 := size % 0x1_0000;
    buffer[0], buffer[1] := VERSION % 0x100, VERSION / 0x100;
    buffer[2], buffer[3] := length % 0x100, length / 0x100;
    buffer[4], buffer[5] := endpoint, tag;
    assert buffer[..HEADER_SIZE] == HeaderBytes(Header(VERSION, length, endpoint, tag, 0, 0));
    ghost var header := buffer[..HEADER_SIZE];
    forall i | 0 <= i < |payload| {
      buffer[HEADER_SIZE + i] := payload[i];
    }
    assert buffer[..HEADER_SIZE] == header;
    assert buffer[HEADER_SIZE..] == payload;
    packet := buffer[..];
    assert packet == buffer[..HEADER_SIZE] + buffer[HEADER_SIZE..];
  }

  /** The GUI's end of a connection. */
  class ClientBase {
    var nextTag: byte
    /// bytes of the last read
    var rxBuf: seq<byte>
    /// packets written to the socket
    var sent: seq<seq<byte>>

    ghost predicate Valid()
      reads this
    {
      nextTag == TagOf(|sent|)
    }

    constructor ()
      ensures Valid() && sent == []
    {
      nextTag, rxBuf, sent := 0, [], [];
    }

    method BevRead(pending: seq<byte>) returns (parsed: Parsed)
      requires Valid()
      modifies this`rxBuf
      ensures Valid() && rxBuf == pending && parsed == ReadByClient(pending)
    {
      rxBuf := pending;
      if |rxBuf| < HEADER_SIZE {
        return Rejected;
      }
      var hdr := HeaderOf(rxBuf);
      if hdr.version != VERSION {
        return Rejected;
      } else if hdr.length < HEADER_SIZE {
        return Rejected;
      }
      if hdr.length > |rxBuf| {
        return Overrun;  // the slice handed on is not checked
      }
      return Delivered(hdr, rxBuf[HEADER_SIZE..hdr.length]);
    }

    /** Counts on until the tag is not zero. */
    method TakeTag() returns (tag: byte)
      modifies this`nextTag
      ensures tag == nextTag == NextTag(old(nextTag))
    {
      nextTag := Increment(nextTag);
      tag := nextTag;
      while tag == 0
        invariant tag == nextTag
        invariant tag == Increment(old(nextTag)) || (Increment(old(nextTag)) == 0 && tag == 1)
        decreases tag == 0
      {
        nextTag := Increment(nextTag);
        tag := nextTag;
      }
    }

    method SendPacket(endpoint: byte, payload: seq<byte>) returns (tag: byte)
      requires Valid()
      modifies this
      ensures Valid() && tag == TagOf(|sent|)
      ensures sent == old(sent) + [Framed(endpoint, tag, 0, payload)]
    {
      tag := TakeTag();
      var buffer := FillPacket(endpoint, tag, payload);
      sent := sent + [buffer];
    }
  }

  /** pinballd's end of a connection. The transmit buffer is reused from reply to reply. */
  class Connection {
    var receiveBuf: seq<byte>
    var transmitBuf: seq<byte>
    var sent: seq<seq<byte>>

    method BevRead(pending: seq<byte>) returns (parsed: Parsed)
      modifies this`receiveBuf
      ensures receiveBuf == pending && parsed == ReadByServer(pending)
    {
      receiveBuf := pending;
      if |receiveBuf| < HEADER_SIZE {
        return Rejected;
      }
      var hdr := HeaderOf(receiveBuf);
      if hdr.version != VERSION {
        return Rejected;
      } else if hdr.length < HEADER_SIZE {
        return Rejected;
      }
      var payloadLen := hdr.length - HEADER_SIZE;
      if payloadLen > |receiveBuf| {
        return Rejected;
      }
      if hdr.length > |receiveBuf| {
        return Overrun;
      }
      return Delivered(hdr, receiveBuf[HEADER_SIZE..HEADER_SIZE + payloadLen]);
    }

    method ReplyTo(req: Header, payload: seq<byte>)
      modifies this
      ensures sent == old(sent) + [Framed(req.endpoint, req.tag, 1, payload)]
    {
      var msgSize := HEADER_SIZE + |payload|;
      transmitBuf := if msgSize <= |transmitBuf| then transmitBuf[..msgSize]
                     else transmitBuf + seq(msgSize - |transmitBuf|, _ => 0);
      transmitBuf := seq(HEADER_SIZE, _ => 0) + transmitBuf[HEADER_SIZE..];
      var hdr := Header(VERSION, msgSize % 0x1_0000, req.endpoint, req.tag, FLAG_REPLY, 0);
      transmitBuf := HeaderBytes(hdr) + transmitBuf[HEADER_SIZE..];
      if payload != [] {
        transmitBuf := transmitBuf[..HEADER_SIZE] + payload;
      }
      assert transmitBuf == Framed(req.endpoint, req.tag, FLAG_REPLY, payload);
      sent := sent + [transmitBuf];
    }
  }

  /** The packet that a broadcast hands to every subscriber: tag and flags stay zero. */
  method BroadcastRaw(endpoint: byte, payload: seq<byte>) returns (buffer: seq<byte>)
    ensures buffer == Framed(endpoint, 0, 0, payload)
  {
    buffer := seq(HEADER_SIZE, _ => 0) + payload;
    var hdr := HeaderOf(buffer).(version := VERSION, endpoint := endpoint, length := |buffer| % 0x1_0000);
    buffer := HeaderBytes(hdr) + buffer[HEADER_SIZE..];
  }
}
