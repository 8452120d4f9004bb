/**
 * The captive-portal DNS responder of lib/CaptivePortal/CaptivePortal.cpp: the
 * packet handler installed by CaptivePortal::setupListener.  Every plain
 * single-question DNS query is answered with a forged type-A record that
 * points at the address of the interface the query arrived on.
 *
 * Wire layout follows RFC 1035: the 12-byte header of section 4.1.1, the
 * resource record of section 4.1.3, the name pointer of section 4.1.4,
 * TYPE A (section 3.2.2), CLASS IN (section 3.2.4) and A RDATA (section 3.4.1).
 */
module CaptivePortal {
  import opened Wrappers

  newtype uint8 = x: int | 0 <= x < 256

  /** An IPv4 address as its four octets, most significant first. */
  type IPv4 = s: seq<uint8> | |s| == 4 witness [0, 0, 0, 0]

  const HEADER_SIZE: nat := 12
  const ANSWER_SIZE: nat := 16
  /** Offset of the question name, the target of the answer's name pointer. */
  const QUESTION_OFFSET: nat := 0x0C

  const DNS_QR_QUERY: nat := 0
  const DNS_QR_RESPONSE: nat := 1
  const DNS_OPCODE_QUERY: nat := 0

  const TYPE_A: nat := 1
  const CLASS_IN: nat := 1
  const ANSWER_TTL: nat := 1

  // ---------------------------------------------------------------------
  // Reading the wire format (RFC 1035 sections 4.1.1 and 4.1.3)
  // ---------------------------------------------------------------------

  /** The header fields of section 4.1.1 of RFC 1035, one integer each. */
  datatype Header = Header(
    id: nat,
    qr: nat, opcode: nat, aa: nat, tc: nat, rd: nat,
    ra: nat, z: nat, rcode: nat,
    qdCount: nat, anCount: nat, nsCount: nat, arCount: nat)

  function Word(hi: uint8, lo: uint8): nat
  {
    hi as nat * 256 + lo as nat
  }

  /** Big-endian decoding of the 12 header bytes. */
  function ParseHeader(p: seq<uint8>): Header
    requires |p| >= HEADER_SIZE
  {
    var flags1, flags2 := p[2] as nat, p[3] as nat;
    Header(
      Word(p[0], p[1]),
      flags1 / 128, (flags1 / 8) % 16, (flags1 / 4) % 2, (flags1 / 2) % 2, flags1 % 2,
      flags2 / 128, (flags2 / 16) % 8, flags2 % 16,
      Word(p[4], p[5]), Word(p[6], p[7]), Word(p[8], p[9]), Word(p[10], p[11]))
  }

  /** An answer record whose owner name is a compression pointer (section 4.1.4). */
  datatype Answer = Answer(
    isPointer: bool, pointer: nat,
    rrType: nat, rrClass: nat, ttl: nat, rdLength: nat, rdata: seq<uint8>)

  function ParseAnswer(a: seq<uint8>): Answer
    requires |a| == ANSWER_SIZE
  {
    Answer(
      a[0] as nat / 64 == 3, (a[0] as nat % 64) * 256 + a[1] as nat,
      Word(a[2], a[3]), Word(a[4], a[5]),
      Word(a[6], a[7]) * 65536 + Word(a[8], a[9]),
      Word(a[10], a[11]), a[12..])
  }

  /** The shape the handler answers: a standard query with exactly one question. */
  predicate IsPlainQuery(h: Header)
  {
    && h.qr == DNS_QR_QUERY
    && h.opcode == DNS_OPCODE_QUERY
    && h.qdCount == 1
    && h.anCount == 0 && h.nsCount == 0 && h.arCount == 0
  }

  // ---------------------------------------------------------------------
  // The reply, as a function of the datagram and the local address
  // ---------------------------------------------------------------------

  /** Byte 2 of the header with its top bit, QR, set to "response". */
  function WithResponseFlag(b: uint8): uint8
  {
    (b as int % 128 + 128) as uint8
  }

  /** The 16 bytes appended after the copied request. */
  function AnswerBytes(ip: IPv4): seq<uint8>
  {
    [0xC0, 0x0C, 0, 1, 0, 1, 0, 0, 0, 1, 0, 4] + ip
  }

  /**
   * What the handler sends back for datagram `p`: nothing unless `p` is a
   * plain query; otherwise the request with QR set and ANCOUNT := QDCOUNT,
   * followed by the answer record.  Datagrams shorter than a header are
   * dropped (see the guard in OnPacket).
   */
  function Reply(p: seq<uint8>, ip: IPv4): Option<seq<uint8>>
  {
    if |p| < HEADER_SIZE || !IsPlainQuery(ParseHeader(p)) then None
    else Some(p[..2] + [WithResponseFlag(p[2])] + p[3..6] + p[4..6] + p[8..] + AnswerBytes(ip))
  }

  // ---------------------------------------------------------------------
  // The outgoing message buffer (AsyncUDPMessage)
  // ---------------------------------------------------------------------

  /** A fixed-capacity datagram under construction; writes beyond the capacity are cut. */
  class UdpMessage {
    const capacity: nat
    var content: seq<uint8>

    ghost predicate Valid()
      reads this
    {
      |content| <= capacity
    }

    constructor (size: nat)
      ensures Valid() && capacity == size && content == []
    {
      capacity := size;
      content := [];
    }

    /** Appends as much of `data` as still fits and reports how much that was. */
    method Write(data: seq<uint8>) returns (written: nat)
      requires Valid()
      modifies this
      ensures Valid()
      ensures written == if |data| <= capacity - |old(content)| then |data| else capacity - |old(content)|
      ensures content == old(content) + data[..written]
    {
      written := capacity - |content|;
      if |data| <= written {
        written := |data|;
      }
      content := content + data[..written];
    }

    method WriteByte(b: uint8) returns (written: nat)
      requires Valid()
      modifies this
      ensures Valid()
      ensures written == if |old(content)| < capacity then 1 else 0
      ensures content == old(content) + [b][..written]
      ensures |old(content)| < capacity ==> content == old(content) + [b]
    {
      written := Write([b]);
    }
  }

  // ---------------------------------------------------------------------
  // The packet handler
  // ---------------------------------------------------------------------

  /**
   * The source guards only against the empty datagram before it reads the
   * 12-byte header; this predicate is that guard as written.
   */
  predicate PassesSourceLengthGuard(p: seq<uint8>)
  {
    |p| > 0
  }

  /** Two single-byte writes: one 16-bit field of the record, high byte first. */
  method WriteWord(message: UdpMessage, hi: uint8, lo: uint8)
    requires message.Valid() && |message.content| + 2 <= message.capacity
    modifies message
    ensures message.Valid()
    ensures message.content == old(message.content) + [hi, lo]
  {
    var n := message.WriteByte(hi);
    n := message.WriteByte(lo);
  }

  /** The sixteen single-byte writes of the answer record, two at a time. */
  method WriteAnswer(message: UdpMessage, localIP: IPv4)
    requires message.Valid() && |message.content| + ANSWER_SIZE <= message.capacity
    modifies message
    ensures message.Valid()
    ensures message.content == old(message.content) + AnswerBytes(localIP)
  {
    ghost var start := message.content;
    WriteWord(message, 0xC0, 0x0C);                 // name: pointer to offset 0x0C
    WriteWord(message, 0, 1);                       // TYPE A
    WriteWord(message, 0, 1);                       // CLASS IN
    ghost var head := message.content;
    assert head == start + [0xC0, 0x0C, 0, 1, 0, 1];
    WriteWord(message, 0, 0);                       // TTL 1
    WriteWord(message, 0, 1);
    WriteWord(message, 0, 4);                       // RDLENGTH 4
    ghost var fixed := message.content;
    assert fixed == head + [0, 0, 0, 1, 0, 4];
    WriteWord(message, localIP[0], localIP[1]);     // RDATA: the local address
    WriteWord(message, localIP[2], localIP[3]);
    assert message.content == fixed + [localIP[0], localIP[1], localIP[2], localIP[3]];
    assert localIP == [localIP[0], localIP[1], localIP[2], localIP[3]];
  }

  /**
   * The handler: copies the datagram into a fresh buffer, inspects the header
   * in place, rewrites QR and ANCOUNT in place, and writes the buffer and the
   * answer record into a message of exactly the reply's length.  `None` is
   * "nothing sent".
   */
  method OnPacket(packet: seq<uint8>, localIP: IPv4) returns (reply: Option<seq<uint8>>)
    ensures reply == Reply(packet, localIP)
  {
    reply := None;
    if |packet| > 0 {
      if |packet| < HEADER_SIZE {
        // The source would read the header past the end of the datagram here.
        return;
      }
      var len := |packet|;
      var buffer := new uint8[len];
      var i := 0;
      while i < len
        invariant 0 <= i <= len
        invariant buffer[..i] == packet[..i]
      {
        buffer[i] := packet[i];
        i := i + 1;
      }
      assert buffer[..] == packet;

      var header := ParseHeader(buffer[..]);
      assert header == ParseHeader(packet);
      var onlyOneQuestion := header.qdCount == 1 && header.anCount == 0 && header.nsCount == 0 && header.arCount == 0;
      if header.qr == DNS_QR_QUERY && header.opcode == DNS_OPCODE_QUERY && onlyOneQuestion {
        var responseLen := len + ANSWER_SIZE;
        var message := new UdpMessage(responseLen);
        buffer[2] := WithResponseFlag(buffer[2]);
        buffer[6], buffer[7] := buffer[4], buffer[5];

        assert buffer[..] == packet[..2] + [WithResponseFlag(packet[2])] + packet[3..6] + packet[4..6] + packet[8..];
        var n := message.Write(buffer[..]);
        assert message.content == buffer[..];
        WriteAnswer(message, localIP);
        assert message.content == Reply(packet, localIP).value;
        reply := Some(message.content);
      }
    }
  }

  // ---------------------------------------------------------------------
  // Properties of the reply
  // ---------------------------------------------------------------------

  /** A reply is sent exactly for plain single-question queries; the empty datagram gets none. */
  lemma ReplyIffPlainQuery(p: seq<uint8>, ip: IPv4)
    ensures Reply(p, ip).Some? <==>
      |p| >= HEADER_SIZE && IsPlainQuery(ParseHeader(p))
    ensures Reply(p, ip).Some? ==>
      && p[2] as int / 128 == DNS_QR_QUERY
      && (p[2] as int / 8) % 16 == DNS_OPCODE_QUERY
      && p[4] == 0 && p[5] == 1
      && p[6] == 0 && p[7] == 0 && p[8] == 0 && p[9] == 0 && p[10] == 0 && p[11] == 0
    ensures Reply([], ip) == None
  {
  }

  /** The reply is the request plus one 16-byte record. */
  lemma ReplyLength(p: seq<uint8>, ip: IPv4)
    requires Reply(p, ip).Some?
    ensures |Reply(p, ip).value| == |p| + ANSWER_SIZE
  {
  }

  /**
   * Header of the reply: the request's header with QR = response and
   * ANCOUNT = QDCOUNT = 1; the ID, every other flag and the other counts
   * are those of the request.
   */
  lemma ReplyHeader(p: seq<uint8>, ip: IPv4)
    requires Reply(p, ip).Some?
    ensures |Reply(p, ip).value| >= HEADER_SIZE
    ensures ParseHeader(Reply(p, ip).value) ==
      ParseHeader(p).(qr := DNS_QR_RESPONSE, anCount := ParseHeader(p).qdCount)
    ensures ParseHeader(Reply(p, ip).value).anCount == 1
  {
    var r := Reply(p, ip).value;
    assert r[0] == p[0] && r[1] == p[1] && r[3] == p[3];
    assert r[4] == p[4] && r[5] == p[5] && r[6] == p[4] && r[7] == p[5];
    assert r[8] == p[8] && r[9] == p[9] && r[10] == p[10] && r[11] == p[11];
    assert r[2] == WithResponseFlag(p[2]);
    ResponseFlagByte(p[2]);
  }

  /** Setting QR in a query's flag byte leaves OPCODE, AA, TC and RD alone. */
  lemma ResponseFlagByte(b: uint8)
    requires b as int / 128 == DNS_QR_QUERY
    ensures var f := WithResponseFlag(b) as int;
      && f / 128 == DNS_QR_RESPONSE
      && (f / 8) % 16 == (b as int / 8) % 16
      && (f / 4) % 2 == (b as int / 4) % 2
      && (f / 2) % 2 == (b as int / 2) % 2
      && f % 2 == b as int % 2
  {
    var x := b as int;
    assert WithResponseFlag(b) as int == x + 128;
    assert (x + 128) / 8 == x / 8 + 16;
    assert (x + 128) / 4 == x / 4 + 32;
    assert (x + 128) / 2 == x / 2 + 64;
    var y8, y4, y2 := x / 8, x / 4, x / 2;
    assert (y8 + 16) % 16 == y8 % 16;
    assert (y4 + 32) % 2 == y4 % 2;
    assert (y2 + 64) % 2 == y2 % 2;
  }

  /** The bytes after the header, up to the request's length, are copied unchanged. */
  lemma ReplyKeepsQuestion(p: seq<uint8>, ip: IPv4)
    requires Reply(p, ip).Some?
    ensures |p| <= |Reply(p, ip).value|
    ensures Reply(p, ip).value[HEADER_SIZE..|p|] == p[HEADER_SIZE..]
    ensures Reply(p, ip).value[..2] == p[..2]
  {
    var r := Reply(p, ip).value;
    var head := p[..2] + [WithResponseFlag(p[2])] + p[3..6] + p[4..6];
    assert |head| == 8;
    assert r == head + p[8..] + AnswerBytes(ip);
    assert r[HEADER_SIZE..|p|] == (head + p[8..])[HEADER_SIZE..];
  }

  /**
   * The appended record: a pointer to the question name at offset 0x0C,
   * TYPE A, CLASS IN, a TTL of one second, RDLENGTH 4 and the local address
   * octets in order.
   */
  lemma ReplyAnswer(p: seq<uint8>, ip: IPv4)
    requires Reply(p, ip).Some?
    ensures |Reply(p, ip).value| == |p| + ANSWER_SIZE
    ensures Reply(p, ip).value[|p|..] == [0xC0, 0x0C, 0x00, 0x01, 0x00, 0x01, 0x00, 0x00, 0x00, 0x01, 0x00, 0x04, ip[0], ip[1], ip[2], ip[3]]
    ensures ParseAnswer(Reply(p, ip).value[|p|..]) ==
      Answer(true, QUESTION_OFFSET, TYPE_A, CLASS_IN, ANSWER_TTL, 4, ip)
  {
    var r := Reply(p, ip).value;
    var front := p[..2] + [WithResponseFlag(p[2])] + p[3..6] + p[4..6] + p[8..];
    assert |front| == |p|;
    assert r == front + AnswerBytes(ip);
    assert r[|p|..] == AnswerBytes(ip);
    assert ip == [ip[0], ip[1], ip[2], ip[3]];
  }

  /**
   * The guard as written lets a one-byte datagram through to the header
   * read, which needs twelve bytes; the model drops such datagrams.
   */
  lemma ShortDatagramPassesSourceGuard()
    ensures PassesSourceLengthGuard([0]) && |[0 as uint8]| < HEADER_SIZE
  {
  }

  /** The corrected handler replies only to datagrams that hold a whole header. */
  lemma ReplyNeedsWholeHeader(p: seq<uint8>, ip: IPv4)
    requires 0 < |p| < HEADER_SIZE
    ensures PassesSourceLengthGuard(p)
    ensures Reply(p, ip) == None
  {
  }
}
