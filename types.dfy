/**
 * The data types shared by the MIC-TCP engine (include/mictcp.h and
 * include/api/mictcp_core.h): fixed-width integers, protocol states,
 * socket addresses, the PDU header and payload.
 */
module MicTcpTypes {

  /** C `unsigned char`, also used for a payload byte. */
  type u8 = x: int | 0 <= x < 0x100
  /** C `unsigned short` (ports). */
  type u16 = x: int | 0 <= x < 0x1_0000
  /** C `unsigned int` (sequence and acknowledgement numbers). */
  type u32 = x: int | 0 <= x < 0x1_0000_0000

  /** `__UINT32_MAX__`, the "unset" sequence or acknowledgement number. */
  const UINT32_MAX: u32 := 0xFFFF_FFFF

  /** `API_HD_Size`: the number of header bytes put in front of every payload. */
  const HeaderSize: nat := 15

  /**
   * `protocol_state`, in the enum's declaration order: IDLE is 0 (so a
   * zero-initialised slot is IDLE) and CLOSED is 1.
   */
  datatype ProtocolState = Idle | Closed | SynSent | SynReceived | Established | Closing

  /** `mic_tcp_sock_addr`; the size field is the string's length plus one and is not stored. */
  datatype SockAddr = SockAddr(ipAddr: string, port: u16)

  /** The zero value of a `mic_tcp_sock_addr` in a static array. */
  const NoAddr: SockAddr := SockAddr("", 0)

  /** The stub address `IP_recv` writes for the sender of a datagram: "localhost" and the header's source port. */
  function StubAddr(port: u16): SockAddr
  {
    SockAddr("localhost", port)
  }

  /** `mic_tcp_sock`: descriptor, state and local address of one slot. */
  datatype Sock = Sock(fd: int, state: ProtocolState, addr: SockAddr)

  /** `mic_tcp_header`. */
  datatype Header = Header(sourcePort: u16, destPort: u16, seqNum: u32, ackNum: u32, syn: u8, ack: u8, fin: u8)

  /** `mic_tcp_payload`: the bytes; its `size` field is the length of `data`. */
  datatype Payload = Payload(data: seq<u8>)

  /** `mic_tcp_pdu`. */
  datatype Pdu = Pdu(header: Header, payload: Payload)

  datatype Option<T> = None | Some(value: T)
}
