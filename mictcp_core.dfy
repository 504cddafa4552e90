/**
 * The support layer of MIC-TCP (src/api/mictcp_core.c): the framing of a
 * PDU into one datagram and back, `min_size`, the size and timeout
 * arithmetic of `IP_send` and `IP_recv`, and the application delivery
 * buffer.
 *
 * The header is copied to and from the datagram with `memcpy` of the
 * first 15 bytes of the C struct. On a little-endian host that struct has
 * no padding before `fin`, so those 15 bytes are the seven fields in order,
 * each least significant byte first; that is the encoding modelled here.
 */
module MicTcpCore {
  import opened MicTcpTypes

  // ---------------------------------------------------------------------
  // Integer fields as little-endian bytes
  // ---------------------------------------------------------------------

  function Pow256(n: nat): (r: nat)
    ensures r > 0
  {
    if n == 0 then 1 else 256 * Pow256(n - 1)
  }

  lemma Pow256Widths()
    ensures Pow256(1) == 0x100 && Pow256(2) == 0x1_0000 && Pow256(4) == 0x1_0000_0000
  {
  }

  /** The `n` bytes of `x`, least significant first. */
  function LittleEndian(x: nat, n: nat): (s: seq<u8>)
    ensures |s| == n
  {
    if n == 0 then [] else [x % 256] + LittleEndian(x / 256, n - 1)
  }

  /** The number whose little-endian bytes are `s`. */
  function FromLittleEndian(s: seq<u8>): nat
  {
    if s == [] then 0 else s[0] + 256 * FromLittleEndian(s[1..])
  }

  lemma {:induction false} FromLittleEndianBound(s: seq<u8>)
    ensures FromLittleEndian(s) < Pow256(|s|)
  {
    if s != [] {
      FromLittleEndianBound(s[1..]);
    }
  }

  /** A two-byte field read on a little-endian host. */
  lemma FromLittleEndian2(b: seq<u8>)
    requires |b| == 2
    ensures FromLittleEndian(b) == b[0] as int + 0x100 * (b[1] as int)
  {
    assert FromLittleEndian(b[1..]) == b[1] + 256 * FromLittleEndian(b[1..][1..]);
    assert b[1..][1..] == [];
  }

  /** A four-byte field read on a little-endian host. */
  lemma FromLittleEndian4(b: seq<u8>)
    requires |b| == 4
    ensures FromLittleEndian(b) == b[0] as int + 0x100 * (b[1] as int) + 0x1_0000 * (b[2] as int) + 0x100_0000 * (b[3] as int)
  {
    FromLittleEndian2(b[2..]);
    assert b[1..][1..] == b[2..];
  }

  /** Reading back the bytes of a number that fits gives the number. */
  lemma {:induction false} LittleEndianRoundTrip(x: nat, n: nat)
    requires x < Pow256(n)
    ensures FromLittleEndian(LittleEndian(x, n)) == x
  {
    if n > 0 {
      var s := LittleEndian(x, n);
      assert s[1..] == LittleEndian(x / 256, n - 1);
      LittleEndianRoundTrip(x / 256, n - 1);
    }
  }

  /** Every byte string is the encoding of the number it denotes. */
  lemma {:induction false} LittleEndianOfBytes(s: seq<u8>)
    ensures LittleEndian(FromLittleEndian(s), |s|) == s
  {
    if s != [] {
      var x := FromLittleEndian(s);
      assert x % 256 == s[0] && x / 256 == FromLittleEndian(s[1..]);
      LittleEndianOfBytes(s[1..]);
    }
  }

  // ---------------------------------------------------------------------
  // Header and stream framing
  // ---------------------------------------------------------------------

  /** The 15 bytes that `memcpy (tmp.data, &pk.header, API_HD_Size)` writes. */
  function EncodeHeader(h: Header): (s: seq<u8>)
    ensures |s| == HeaderSize
  {
    LittleEndian(h.sourcePort, 2) + LittleEndian(h.destPort, 2)
    + LittleEndian(h.seqNum, 4) + LittleEndian(h.ackNum, 4)
    + [h.syn, h.ack, h.fin]
  }

  /** The header that `memcpy(&tmp, packet.data, API_HD_Size)` reads from the first 15 bytes. */
  function DecodeHeader(s: seq<u8>): (h: Header)
    requires |s| >= HeaderSize
    ensures h.sourcePort == s[0] as int + 0x100 * (s[1] as int) && h.destPort == s[2] as int + 0x100 * (s[3] as int)
    ensures h.seqNum == s[4] as int + 0x100 * (s[5] as int) + 0x1_0000 * (s[6] as int) + 0x100_0000 * (s[7] as int)
    ensures h.ackNum == s[8] as int + 0x100 * (s[9] as int) + 0x1_0000 * (s[10] as int) + 0x100_0000 * (s[11] as int)
    ensures h.syn == s[12] && h.ack == s[13] && h.fin == s[14]
  {
    FromLittleEndian2(s[0..2]);
    FromLittleEndian2(s[2..4]);
    FromLittleEndian4(s[4..8]);
    FromLittleEndian4(s[8..12]);
    FromLittleEndianBound(s[0..2]);
    FromLittleEndianBound(s[2..4]);
    FromLittleEndianBound(s[4..8]);
    FromLittleEndianBound(s[8..12]);
    Pow256Widths();
    Header(FromLittleEndian(s[0..2]), FromLittleEndian(s[2..4]),
           FromLittleEndian(s[4..8]), FromLittleEndian(s[8..12]),
           s[12], s[13], s[14])
  }

  /** Decoding the encoding of a header gives that header back. */
  lemma HeaderRoundTrip(h: Header)
    ensures DecodeHeader(EncodeHeader(h)) == h
  {
    var s := EncodeHeader(h);
    Pow256Widths();
    assert s[0..2] == LittleEndian(h.sourcePort, 2);
    assert s[2..4] == LittleEndian(h.destPort, 2);
    assert s[4..8] == LittleEndian(h.seqNum, 4);
    assert s[8..12] == LittleEndian(h.ackNum, 4);
    LittleEndianRoundTrip(h.sourcePort, 2);
    LittleEndianRoundTrip(h.destPort, 2);
    LittleEndianRoundTrip(h.seqNum, 4);
    LittleEndianRoundTrip(h.ackNum, 4);
  }

  /** Every 15-byte block is the encoding of the header decoded from it. */
  lemma HeaderBytesRoundTrip(s: seq<u8>)
    requires |s| == HeaderSize
    ensures EncodeHeader(DecodeHeader(s)) == s
  {
    LittleEndianOfBytes(s[0..2]);
    LittleEndianOfBytes(s[2..4]);
    LittleEndianOfBytes(s[4..8]);
    LittleEndianOfBytes(s[8..12]);
    assert s == s[0..2] + s[2..4] + s[4..8] + s[8..12] + [s[12], s[13], s[14]];
  }

  /** `get_full_stream`: the header bytes followed by the payload bytes. */
  function FullStream(pk: Pdu): (s: seq<u8>)
    ensures |s| == HeaderSize + |pk.payload.data|
  {
    EncodeHeader(pk.header) + pk.payload.data
  }

  /** `get_mic_tcp_header`: the header in the first 15 bytes of a stream. */
  function MicTcpHeader(stream: seq<u8>): (h: Header)
    requires |stream| >= HeaderSize
    ensures EncodeHeader(h) == stream[..HeaderSize]
  {
    HeaderBytesRoundTrip(stream[..HeaderSize]);
    DecodeHeader(stream[..HeaderSize])
  }

  /** `get_mic_tcp_data`: everything after the header. */
  function MicTcpData(stream: seq<u8>): (p: Payload)
    requires |stream| >= HeaderSize
    ensures |p.data| == |stream| - HeaderSize
  {
    Payload(stream[HeaderSize..])
  }

  /** Splitting a framed PDU gives back its header and its payload. */
  lemma FullStreamRoundTrip(pk: Pdu)
    ensures |FullStream(pk)| >= HeaderSize
    ensures MicTcpHeader(FullStream(pk)) == pk.header
    ensures MicTcpData(FullStream(pk)) == pk.payload
  {
    var s := FullStream(pk);
    assert s[..HeaderSize] == EncodeHeader(pk.header);
    assert s[HeaderSize..] == pk.payload.data;
    HeaderRoundTrip(pk.header);
  }

  /** Framing the header and data split from any stream rebuilds that stream. */
  lemma StreamSplitRoundTrip(stream: seq<u8>)
    requires |stream| >= HeaderSize
    ensures FullStream(Pdu(MicTcpHeader(stream), MicTcpData(stream))) == stream
  {
    HeaderBytesRoundTrip(stream[..HeaderSize]);
    assert stream == stream[..HeaderSize] + stream[HeaderSize..];
  }

  /** `min_size`. */
  function MinSize(s1: int, s2: int): (r: int)
    ensures r <= s1 && r <= s2
    ensures r == s1 || r == s2
  {
    if s1 <= s2 then s1 else s2
  }

  // ---------------------------------------------------------------------
  // IP_send and IP_recv arithmetic
  // ---------------------------------------------------------------------

  /**
   * `IP_send` after `mic_tcp_core_send` reported `coreSent` bytes (or -1):
   * -1 when the layer is uninitialised or the send failed, otherwise the
   * count without the header.
   */
  function IpSend(initialized: bool, coreSent: int): (r: int)
    ensures !initialized || coreSent == -1 ==> r == -1
    ensures initialized && coreSent != -1 ==> r + HeaderSize == coreSent
  {
    if !initialized then -1
    else if coreSent == -1 then -1
    else coreSent - HeaderSize
  }

  /** When the whole framed PDU goes out, `IP_send` reports exactly the payload size. */
  lemma IpSendWholeStream(pk: Pdu)
    ensures IpSend(true, |FullStream(pk)|) == |pk.payload.data|
  {
  }

  /** `struct timeval`. */
  datatype TimeVal = TimeVal(sec: int, usec: int)

  /** The split of a millisecond timeout into seconds and microseconds in `IP_recv`. */
  function SplitTimeout(timeout: nat): (tv: TimeVal)
    ensures tv.sec * 1_000_000 + tv.usec == timeout * 1000
    ensures 0 <= tv.usec < 1_000_000
    ensures tv.sec >= 0
  {
    var sec := timeout / 1000;
    TimeVal(sec, (timeout - sec * 1000) * 1000)
  }

  /** What `recvfrom` delivered: nothing (-1, after a timeout or an error) or a datagram. */
  datatype Arrival = NoDatagram | Datagram(bytes: seq<u8>)

  /** The outcome of `IP_recv`: failure (-1), or the PDU written into `*pk` and the peer address. */
  datatype RecvResult = RecvFailed | Received(pdu: Pdu, source: SockAddr)
  {
    /** The value `IP_recv` returns. */
    function Result(): int
    {
      if RecvFailed? then -1 else |pdu.payload.data|
    }
  }

  /**
   * The number of bytes `recvfrom` copies into the `15 + capacity` byte
   * reception buffer: a longer datagram is truncated.
   */
  function ReceivedCount(arrival: Arrival, capacity: nat): (r: int)
    ensures arrival.NoDatagram? ==> r == -1
    ensures arrival.Datagram? ==>
      && 0 <= r <= |arrival.bytes| && r <= HeaderSize + capacity
      && (r == |arrival.bytes| || r == HeaderSize + capacity)
  {
    match arrival
    case NoDatagram => -1
    case Datagram(bytes) => MinSize(|bytes|, HeaderSize + capacity)
  }

  /**
   * `IP_recv`'s result AS WRITTEN: -1 when uninitialised, when the timeout
   * cannot be set or when nothing arrives; otherwise the received count
   * minus the header size, with no check that the header was complete.
   */
  function IpRecvSizeAsWritten(initialized: bool, optionSet: bool, capacity: nat, arrival: Arrival): (r: int)
    ensures r <= capacity
    ensures initialized && optionSet && arrival.Datagram? ==> (r < 0 <==> |arrival.bytes| < HeaderSize)
  {
    if !initialized || !optionSet || arrival.NoDatagram? then -1
    else ReceivedCount(arrival, capacity) - HeaderSize
  }

  /** A 3-byte datagram makes `IP_recv` as written report a payload of -12 bytes. */
  lemma ShortDatagramAsWritten()
    ensures IpRecvSizeAsWritten(true, true, 0, Datagram([1, 2, 3])) == -12
  {
  }

  /**
   * `IP_recv`, with datagrams shorter than the header rejected like a
   * failed receive. A datagram that fills the buffer is cut to
   * `15 + capacity` bytes; the header is decoded from the first 15 and the
   * peer's port is the header's source port.
   */
  function IpRecv(initialized: bool, optionSet: bool, capacity: nat, arrival: Arrival): (r: RecvResult)
    ensures r.Result() == -1 || 0 <= r.Result() <= capacity
    ensures r.Received? <==> initialized && optionSet && arrival.Datagram? && |arrival.bytes| >= HeaderSize
    ensures r.Received? ==> r.source.port == r.pdu.header.sourcePort
    ensures r.Received? ==>
      var frame := FullStream(r.pdu);
      && frame <= arrival.bytes
      && (|frame| == |arrival.bytes| || |r.pdu.payload.data| == capacity)
  {
    if !initialized || !optionSet || arrival.NoDatagram? then RecvFailed
    else
      var n := ReceivedCount(arrival, capacity);
      if n < HeaderSize then RecvFailed
      else
        var buffer := arrival.bytes[..n];
        var header := MicTcpHeader(buffer);
        StreamSplitRoundTrip(buffer);
        Received(Pdu(header, MicTcpData(buffer)), StubAddr(header.sourcePort))
  }

  /** Where a full header arrived, `IpRecv` returns exactly what the code as written returns. */
  lemma IpRecvAgreesWhenHeaderComplete(initialized: bool, optionSet: bool, capacity: nat, arrival: Arrival)
    requires arrival.Datagram? ==> |arrival.bytes| >= HeaderSize
    ensures IpRecv(initialized, optionSet, capacity, arrival).Result()
         == IpRecvSizeAsWritten(initialized, optionSet, capacity, arrival)
  {
  }

  /** A framed PDU whose payload fits the capacity is received whole. */
  lemma IpRecvFullStream(pk: Pdu, capacity: nat)
    requires |pk.payload.data| <= capacity
    ensures IpRecv(true, true, capacity, Datagram(FullStream(pk)))
         == Received(pk, StubAddr(pk.header.sourcePort))
  {
    var s := FullStream(pk);
    assert s[..|s|] == s;
    FullStreamRoundTrip(pk);
  }

  // ---------------------------------------------------------------------
  // Application delivery buffer
  // ---------------------------------------------------------------------

  /**
   * The TAILQ of received payloads between the reception thread and the
   * application. The head of `entries` is the first payload put.
   */
  class AppBuffer {
    var entries: seq<Payload>

    /** `TAILQ_INIT`: an empty queue. */
    constructor ()
      ensures entries == []
    {
      entries := [];
    }

    /** `app_buffer_put`: a copy of the payload goes to the tail. */
    method Put(bf: Payload)
      modifies this
      ensures entries == old(entries) + [bf]
    {
      entries := entries + [bf];
    }

    /**
     * `app_buffer_get`, from the point where the queue is non-empty (the
     * source waits on a condition variable until then): removes the head
     * and hands over its first `min_size(head size, capacity)` bytes.
     */
    method Get(capacity: nat) returns (n: nat, data: seq<u8>)
      requires entries != []
      modifies this
      ensures n == MinSize(|old(entries)[0].data|, capacity)
      ensures data == old(entries)[0].data[..n]
      ensures entries == old(entries)[1..]
    {
      var entry := entries[0];
      n := MinSize(|entry.data|, capacity);
      data := entry.data[..n];
      entries := entries[1..];
    }
  }

  /**
   * Two payloads put into an empty buffer with no get in between come
   * out in the order they went in.
   */
  method FifoOrder(buf: AppBuffer, a: Payload, b: Payload, capacity: nat) returns (first: seq<u8>, second: seq<u8>)
    requires buf.entries == []
    modifies buf
    ensures first == a.data[..MinSize(|a.data|, capacity)]
    ensures second == b.data[..MinSize(|b.data|, capacity)]
    ensures buf.entries == []
  {
    buf.Put(a);
    buf.Put(b);
    var n1, n2;
    n1, first := buf.Get(capacity);
    n2, second := buf.Get(capacity);
  }
}
