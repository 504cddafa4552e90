/**
 * The connection table and the public calls of MIC-TCP (src/mictcp.c).
 *
 * The source keeps one slot per handle in parallel global arrays
 * (`sockets`, `connections`, `seq_emission`, `seq_reception`, `fenetres`,
 * `pertes`) together with the number of slots handed out so far
 * (`socketd`) and the slot the reception thread serves
 * (`current_socket`). Here those globals are the fields of one
 * `ConnectionTable` object; the compile-time constants of the source are
 * the object's constant parameters. The transport is not called: each
 * send attempt's outcome is an input (see `Arq.Attempt`), and the
 * acknowledgement that `process_received_PDU` transmits is returned.
 */
module MicTcp {
  import opened MicTcpTypes
  import opened MicTcpCore
  import opened Arq

  /** The data PDU `mic_tcp_send` transmits: no flags, no acknowledgement number. */
  function DataPdu(sourcePort: u16, destPort: u16, seqNum: u32, mesg: seq<u8>): (pdu: Pdu)
    ensures IpSend(true, |FullStream(pdu)|) == |mesg|
    ensures MicTcpData(FullStream(pdu)).data == mesg
  {
    FullStreamRoundTrip(Pdu(Header(sourcePort, destPort, seqNum, UINT32_MAX, 0, 0, 0), Payload(mesg)));
    Pdu(Header(sourcePort, destPort, seqNum, UINT32_MAX, 0, 0, 0), Payload(mesg))
  }

  /** The empty ACK `process_received_PDU` sends back for a PDU with header `h`, ports swapped. */
  function AckPdu(h: Header, ackNum: u32): (ack: Pdu)
    ensures |FullStream(ack)| == HeaderSize
    ensures ack.header.destPort == h.sourcePort && ack.header.sourcePort == h.destPort
  {
    Pdu(Header(h.destPort, h.sourcePort, UINT32_MAX, ackNum, 0, 1, 0), Payload([]))
  }

  /**
   * The ACK `process_received_PDU` sends is what the sender's loop waits
   * for: its `IP_recv` returns 0 with the `ack` flag set, the acknowledged
   * bit, and the receiver's port as the new peer.
   */
  lemma AckPduIsAccepted(h: Header, ackNum: u32, capacity: nat)
    ensures var got := IpRecv(true, true, capacity, Datagram(FullStream(AckPdu(h, ackNum))));
      && got.Received? && got.Result() == 0
      && got.pdu.header.ack == 1 && got.pdu.header.ackNum == ackNum
      && got.source == StubAddr(h.destPort)
  {
    IpRecvFullStream(AckPdu(h, ackNum), capacity);
  }

  /** A sequence number still holds its initial value or has become an alternating bit. */
  predicate SeqBit(x: u32, initial: u32)
  {
    x < 2 || x == initial
  }

  /**
   * `mic_tcp_socket` as written: the index of the first CLOSED slot
   * below `socketd` is `firstClosed` (or `socketd` if there is none).
   * Returns the handle and the new `socketd`. A fresh slot is claimed by
   * incrementing `socketd` first and failing when the incremented value
   * reaches the table size, so the failure keeps the increment.
   */
  function SocketAsWritten(firstClosed: nat, socketd: nat, slots: nat): (r: (int, nat))
    requires firstClosed <= socketd
    ensures firstClosed == socketd && r.0 != -1 ==> r.0 + 1 < slots
    ensures r.0 == -1 ==> r.1 == socketd + 1
  {
    if firstClosed < socketd then (firstClosed, socketd)
    else if socketd + 1 >= slots then (-1, socketd + 1)
    else (socketd, socketd + 1)
  }

  /** With one slot, the allocation as written fails on an empty table. */
  lemma OneSlotTableAsWritten()
    ensures SocketAsWritten(0, 0, 1) == (-1, 1)
  {
  }

  /**
   * On a two-slot table with one slot in use and none closed, two failed
   * allocations as written leave `socketd` at 3, so handle 2 passes the
   * test `socket >= 0 && socket < socketd` of the other calls although the
   * arrays have only indices 0 and 1.
   */
  lemma HandleOutOfRangeAsWritten()
    ensures var (r1, s1) := SocketAsWritten(1, 1, 2);
      var (r2, s2) := SocketAsWritten(s1, s1, 2);
      r1 == -1 && r2 == -1 && 0 <= 2 < s2
  {
  }

  class ConnectionTable {
    /** MICTCP_SOCKETS: the number of slots. */
    const Sockets: nat
    /** MICTCP_FENETRE: the number of exchanges after which the loss counters restart. */
    const Window: nat
    /** MICTCP_SEQUENCE_INITIALE. */
    const InitialSeq: u32
    /** pertes_admissibles: how many losses a window may accept. */
    const Budget: nat

    const sockets: array<Sock>
    const connections: array<SockAddr>
    const seqEmission: array<u32>
    const seqReception: array<u32>
    const fenetres: array<nat>
    const pertes: array<nat>
    /** The application delivery buffer the reception thread fills. */
    const buffer: AppBuffer

    var socketd: nat
    var currentSocket: nat

    ghost predicate Valid()
      reads this, sockets, seqEmission, seqReception, fenetres, pertes
    {
      && Window > 0
      && sockets.Length == Sockets && connections.Length == Sockets
      && seqEmission.Length == Sockets && seqReception.Length == Sockets
      && fenetres.Length == Sockets && pertes.Length == Sockets
      && seqEmission != seqReception && fenetres != pertes
      && socketd <= Sockets && currentSocket <= Sockets
      && (forall i :: 0 <= i < socketd ==> sockets[i].fd == i)
      && (forall i :: 0 <= i < Sockets ==> SeqBit(seqEmission[i], InitialSeq) && SeqBit(seqReception[i], InitialSeq))
      && (forall i :: 0 <= i < Sockets ==> fenetres[i] < Window && pertes[i] <= Budget)
    }

    /** The handle test shared by all calls: `socket >= 0 && socket < socketd`. */
    predicate ValidHandle(socket: int)
      reads this
    {
      0 <= socket < socketd
    }

    /** The test of `send`, `recv` and `close`: a valid handle whose slot is ESTABLISHED. */
    predicate IsEstablished(socket: int)
      reads this, sockets
    {
      0 <= socket < socketd && socket < sockets.Length && sockets[socket].state == Established
    }

    /**
     * The tables as the program starts: statically zeroed arrays (every
     * slot IDLE with descriptor 0), no slot handed out, and no slot
     * served by the reception thread.
     */
    constructor (slots: nat, window: nat, initialSeq: u32, budget: nat)
      requires window > 0
      ensures Valid()
      ensures Sockets == slots && Window == window && InitialSeq == initialSeq && Budget == budget
      ensures socketd == 0 && currentSocket == slots
      ensures forall i :: 0 <= i < slots ==> sockets[i] == Sock(0, Idle, NoAddr) && connections[i] == NoAddr
      ensures forall i :: 0 <= i < slots ==> seqEmission[i] == 0 && seqReception[i] == 0
      ensures forall i :: 0 <= i < slots ==> fenetres[i] == 0 && pertes[i] == 0
      ensures buffer.entries == []
      ensures fresh(sockets) && fresh(connections) && fresh(seqEmission) && fresh(seqReception)
      ensures fresh(fenetres) && fresh(pertes) && fresh(buffer)
    {
      Sockets, Window, InitialSeq, Budget := slots, window, initialSeq, budget;
      sockets := new Sock[slots](_ => Sock(0, Idle, NoAddr));
      connections := new SockAddr[slots](_ => NoAddr);
      seqEmission := new u32[slots](_ => 0);
      seqReception := new u32[slots](_ => 0);
      fenetres := new nat[slots](_ => 0);
      pertes := new nat[slots](_ => 0);
      buffer := new AppBuffer();
      socketd := 0;
      currentSocket := slots;
    }

    /**
     * `mic_tcp_socket`, with the table-full test made before `socketd` is
     * incremented (see `SocketAsWritten` for the code as written). Fails
     * when the transport cannot be initialised or when every slot is
     * handed out and none is CLOSED; otherwise reuses the lowest CLOSED
     * slot, or claims the next one, and resets it to IDLE with fresh
     * sequence numbers and loss counters.
     */
    method Socket(initialized: bool) returns (d: int)
      requires Valid()
      modifies this, sockets, seqEmission, seqReception, fenetres, pertes
      ensures Valid()
      ensures d == -1 <==> (!initialized
        || (old(socketd) == Sockets && forall i :: 0 <= i < Sockets ==> old(sockets[i]).state != Closed))
      ensures d == -1 ==> unchanged(this, sockets, seqEmission, seqReception, fenetres, pertes)
      ensures d != -1 ==>
        && 0 <= d <= old(socketd) && d < Sockets
        && (forall i :: 0 <= i < d ==> old(sockets[i]).state != Closed)
        && (if d < old(socketd) then old(sockets[d]).state == Closed && socketd == old(socketd)
            else socketd == old(socketd) + 1)
        && currentSocket == old(currentSocket)
        && sockets[..] == old(sockets[..])[d := Sock(d, Idle, old(sockets[d]).addr)]
        && seqEmission[..] == old(seqEmission[..])[d := InitialSeq]
        && seqReception[..] == old(seqReception[..])[d := InitialSeq]
        && fenetres[..] == old(fenetres[..])[d := 0]
        && pertes[..] == old(pertes[..])[d := 0]
    {
      if !initialized {
        return -1;
      }
      var i := 0;
      while i < socketd && sockets[i].state != Closed
        invariant 0 <= i <= socketd
        invariant forall j :: 0 <= j < i ==> sockets[j].state != Closed
      {
        i := i + 1;
      }
      if i == socketd {
        if socketd >= Sockets {
          return -1;
        }
        socketd := socketd + 1;
      }
      sockets[i] := Sock(i, Idle, sockets[i].addr);
      seqEmission[i] := InitialSeq;
      seqReception[i] := InitialSeq;
      fenetres[i] := 0;
      pertes[i] := 0;
      d := i;
    }

    /** `mic_tcp_bind`: records the local address of any valid handle, whatever its state. */
    method Bind(socket: int, addr: SockAddr) returns (r: int)
      requires Valid()
      modifies sockets
      ensures Valid()
      ensures r == if ValidHandle(socket) then 0 else -1
      ensures ValidHandle(socket) ==> sockets[..] == old(sockets[..])[socket := old(sockets[socket]).(addr := addr)]
      ensures !ValidHandle(socket) ==> unchanged(sockets)
    {
      if 0 <= socket < socketd {
        sockets[socket] := sockets[socket].(addr := addr);
        return 0;
      }
      return -1;
    }

    /** Records the peer address of a valid handle and marks it ESTABLISHED; no PDU is exchanged. */
    method Establish(socket: int, peer: SockAddr) returns (r: int)
      requires Valid()
      modifies sockets, connections
      ensures Valid()
      ensures r == if ValidHandle(socket) then 0 else -1
      ensures ValidHandle(socket) ==>
        && connections[..] == old(connections[..])[socket := peer]
        && sockets[..] == old(sockets[..])[socket := old(sockets[socket]).(state := Established)]
      ensures !ValidHandle(socket) ==> unchanged(sockets, connections)
    {
      if 0 <= socket < socketd {
        connections[socket] := peer;
        sockets[socket] := sockets[socket].(state := Established);
        return 0;
      }
      return -1;
    }

    /** `mic_tcp_accept`: the caller's peer address is recorded and the slot is ESTABLISHED. */
    method Accept(socket: int, addr: SockAddr) returns (r: int)
      requires Valid()
      modifies sockets, connections
      ensures Valid()
      ensures r == if ValidHandle(socket) then 0 else -1
      ensures ValidHandle(socket) ==>
        && connections[..] == old(connections[..])[socket := addr]
        && sockets[..] == old(sockets[..])[socket := old(sockets[socket]).(state := Established)]
      ensures !ValidHandle(socket) ==> unchanged(sockets, connections)
    {
      r := Establish(socket, addr);
    }

    /** `mic_tcp_connect`: the same bookkeeping as `accept`, with the address to connect to. */
    method Connect(socket: int, addr: SockAddr) returns (r: int)
      requires Valid()
      modifies sockets, connections
      ensures Valid()
      ensures r == if ValidHandle(socket) then 0 else -1
      ensures ValidHandle(socket) ==>
        && connections[..] == old(connections[..])[socket := addr]
        && sockets[..] == old(sockets[..])[socket := old(sockets[socket]).(state := Established)]
      ensures !ValidHandle(socket) ==> unchanged(sockets, connections)
    {
      r := Establish(socket, addr);
    }

    /**
     * `mic_tcp_send` over the transport outcomes `outcomes`, used one per
     * iteration of the retransmission loop. On an ESTABLISHED slot it
     * builds the data PDU with the current emission bit, flips that bit
     * once, counts the exchange in the window, then runs the
     * retransmission loop (`Retransmit`). `exited` says whether the loop
     * ended within the given outcomes (the source loops for as long as
     * that takes) and `used` how many outcomes it consumed; `r` is what
     * the call returns.
     */
    method Send(socket: int, mesg: seq<u8>, outcomes: seq<Attempt>) returns (r: int, pdu: Pdu, exited: bool, used: nat)
      requires Valid()
      modifies seqEmission, fenetres, pertes, connections
      ensures Valid()
      ensures !IsEstablished(socket) ==>
        r == -1 && !exited && used == 0 && unchanged(seqEmission, fenetres, pertes, connections)
      ensures IsEstablished(socket) ==>
        var s := socket;
        var tick := WindowTick(old(fenetres[s]), old(pertes[s]), Window);
        var run := SendLoop(outcomes, 0, |mesg|, Flip(old(seqEmission[s])), false, tick.pertes, Budget);
        && r == |mesg|
        && pdu == DataPdu(sockets[s].addr.port, old(connections[s]).port, old(seqEmission[s]), mesg)
        && seqEmission[..] == old(seqEmission[..])[s := Flip(old(seqEmission[s]))]
        && fenetres[..] == old(fenetres[..])[s := tick.window]
        && pertes[..] == old(pertes[..])[s := run.pertes]
        && connections[..] == old(connections[..])[s := PeerAfter(outcomes, run.used, |mesg|, old(connections[s]))]
        && exited == run.exited && used == run.used
    {
      pdu := DataPdu(0, 0, 0, []);
      if !(0 <= socket < socketd && sockets[socket].state == Established) {
        return -1, pdu, false, 0;
      }
      var s := socket;
      pdu := DataPdu(sockets[s].addr.port, connections[s].port, seqEmission[s], mesg);
      seqEmission[s] := Flip(seqEmission[s]);
      var tick := WindowTick(fenetres[s], pertes[s], Window);
      fenetres[s] := tick.window;
      pertes[s] := tick.pertes;
      exited, used := Retransmit(s, |mesg|, outcomes);
      r := |mesg|;
    }

    /**
     * The `do ... while (resend == 1)` loop of `mic_tcp_send` for slot `s`
     * and a PDU of `size` payload bytes, one outcome per iteration: it runs
     * as `Arq.SendLoop` says, expecting the slot's (already flipped)
     * emission bit. Every attempt that hears a datagram hands
     * `&connections[s]` to `IP_recv`, which overwrites it with the stub
     * address of the sender, so the slot's peer becomes `Arq.PeerAfter`
     * of the attempts used.
     */
    method Retransmit(s: nat, size: int, outcomes: seq<Attempt>) returns (exited: bool, used: nat)
      requires Valid() && s < Sockets
      modifies pertes, connections
      ensures Valid()
      ensures var run := SendLoop(outcomes, 0, size, seqEmission[s], false, old(pertes[s]), Budget);
        && exited == run.exited && used == run.used
        && pertes[..] == old(pertes[..])[s := run.pertes]
        && connections[..] == old(connections[..])[s := PeerAfter(outcomes, run.used, size, old(connections[s]))]
    {
      ghost var target := SendLoop(outcomes, 0, size, seqEmission[s], false, pertes[s], Budget);
      ghost var before := pertes[..];
      ghost var peers := connections[..];
      var resend, perte := true, false;
      var i := 0;
      while resend && i < |outcomes|
        modifies pertes, connections
        invariant 0 <= i <= |outcomes|
        invariant pertes[s] <= Budget
        invariant forall j :: 0 <= j < Sockets && j != s ==> pertes[j] == before[j]
        invariant connections[..] == peers[s := PeerAfter(outcomes, i, size, peers[s])]
        invariant resend ==> SendLoop(outcomes, i, size, seqEmission[s], perte, pertes[s], Budget) == target
        invariant !resend ==> target == SendRun(true, i, perte, pertes[s])
      {
        var a := outcomes[i];
        i := i + 1;
        assert PeerAfter(outcomes, i, size, peers[s])
          == if Heard(a, size) then StubAddr(a.sourcePort) else PeerAfter(outcomes, i - 1, size, peers[s]);
        if a.sent == size {
          if a.received != -1 {
            connections[s] := StubAddr(a.sourcePort);
          }
          if a.received == 0 && a.ackFlag == 1 && a.ackNum == seqEmission[s] {
            resend := false;
          } else if !perte {
            perte := true;
            if pertes[s] + 1 > Budget {
              pertes[s] := 0;
            } else {
              pertes[s] := pertes[s] + 1;
              resend := false;
            }
          }
        }
      }
      assert target.used == i;
      assert pertes[..] == old(pertes[..])[s := target.pertes];
      exited, used := !resend, i;
    }

    /**
     * `mic_tcp_recv`. On an ESTABLISHED slot it makes that slot the one the
     * reception thread serves, then waits on the delivery buffer. When the
     * buffer holds a payload, `delivered` is true and the call hands over
     * its head, cut to `capacity` bytes. When the buffer is empty the
     * source blocks until the reception thread fills it: `delivered` is
     * false, the buffer is untouched, and the slot stays selected, so a
     * later `ProcessReceivedPdu` serves it.
     */
    method Recv(socket: int, capacity: nat) returns (r: int, data: seq<u8>, delivered: bool)
      requires Valid()
      modifies this, buffer
      ensures Valid()
      ensures socketd == old(socketd)
      ensures !old(IsEstablished(socket)) ==> r == -1 && data == [] && !delivered && unchanged(this, buffer)
      ensures old(IsEstablished(socket)) ==>
        && currentSocket == socket
        && (delivered <==> old(buffer.entries) != [])
      ensures old(IsEstablished(socket)) && !delivered ==> r == 0 && data == [] && unchanged(buffer)
      ensures delivered ==>
        && r == MinSize(|old(buffer.entries)[0].data|, capacity)
        && data == old(buffer.entries)[0].data[..r]
        && buffer.entries == old(buffer.entries)[1..]
    {
      if !(0 <= socket < socketd && sockets[socket].state == Established) {
        return -1, [], false;
      }
      currentSocket := socket;
      if buffer.entries == [] {
        return 0, [], false;
      }
      var n;
      n, data := buffer.Get(capacity);
      r, delivered := n, true;
    }

    /** `mic_tcp_close`: an ESTABLISHED slot goes through CLOSING to CLOSED, free for reuse. */
    method Close(socket: int) returns (r: int)
      requires Valid()
      modifies sockets
      ensures Valid()
      ensures r == if old(IsEstablished(socket)) then 0 else -1
      ensures old(IsEstablished(socket)) ==> sockets[..] == old(sockets[..])[socket := old(sockets[socket]).(state := Closed)]
      ensures !old(IsEstablished(socket)) ==> unchanged(sockets)
    {
      if 0 <= socket < socketd && sockets[socket].state == Established {
        sockets[socket] := sockets[socket].(state := Closing);
        sockets[socket] := sockets[socket].(state := Closed);
        return 0;
      }
      return -1;
    }

    /**
     * `process_received_PDU`, one iteration of the reception thread. While
     * no slot is served nothing happens. Otherwise the exchange is counted
     * in the window; a PDU carrying the expected bit is put in the
     * delivery buffer; any other PDU is charged as a loss, and the expected
     * bit stays put only when that loss is admissible. An empty ACK of the
     * final expected bit is always returned for transmission.
     */
    method ProcessReceivedPdu(pdu: Pdu, addr: SockAddr) returns (ack: Option<Pdu>)
      requires Valid()
      modifies seqReception, fenetres, pertes, buffer
      ensures Valid()
      ensures currentSocket >= Sockets ==> ack == None && unchanged(seqReception, fenetres, pertes, buffer)
      ensures currentSocket < Sockets ==>
        var s := currentSocket;
        var tick := WindowTick(old(fenetres[s]), old(pertes[s]), Window);
        var expected := pdu.header.seqNum == old(seqReception[s]);
        var charge := ChargeLoss(tick.pertes, Budget);
        var advance := expected || !charge.admissible;
        && fenetres[..] == old(fenetres[..])[s := tick.window]
        && pertes[..] == old(pertes[..])[s := if expected then tick.pertes else charge.pertes]
        && buffer.entries == (if expected then old(buffer.entries) + [pdu.payload] else old(buffer.entries))
        && seqReception[..] == old(seqReception[..])[s := if advance then Flip(old(seqReception[s])) else old(seqReception[s])]
        && ack == Some(AckPdu(pdu.header, seqReception[s]))
    {
      if currentSocket >= Sockets {
        return None;
      }
      var s := currentSocket;
      var tick := WindowTick(fenetres[s], pertes[s], Window);
      fenetres[s] := tick.window;
      pertes[s] := tick.pertes;
      var advance := true;
      if pdu.header.seqNum == seqReception[s] {
        buffer.Put(pdu.payload);
      } else {
        var charge := ChargeLoss(pertes[s], Budget);
        pertes[s] := charge.pertes;
        if charge.admissible {
          advance := false;
        }
      }
      if advance {
        seqReception[s] := Flip(seqReception[s]);
      }
      ack := Some(AckPdu(pdu.header, seqReception[s]));
    }
  }

  /**
   * Two calls of `mic_tcp_send` on one ESTABLISHED slot transmit PDUs with
   * different sequence numbers, whatever the transport did.
   */
  method ConsecutiveSendsAlternate(t: ConnectionTable, s: int, m1: seq<u8>, m2: seq<u8>, o1: seq<Attempt>, o2: seq<Attempt>)
    returns (p1: Pdu, p2: Pdu)
    requires t.Valid() && t.IsEstablished(s)
    modifies t.seqEmission, t.fenetres, t.pertes, t.connections
    ensures p1.header.seqNum != p2.header.seqNum
    ensures old(t.seqEmission[s]) < 2 ==> t.seqEmission[s] == old(t.seqEmission[s])
  {
    var r1, e1, u1, r2, e2, u2;
    r1, p1, e1, u1 := t.Send(s, m1, o1);
    r2, p2, e2, u2 := t.Send(s, m2, o2);
  }

  /**
   * A datagram heard while waiting for an acknowledgement redirects the
   * slot: whatever it carried, the next `mic_tcp_send` addresses its PDU
   * to the datagram's source port.
   */
  method HeardDatagramRedirectsNextSend(t: ConnectionTable, s: int, m1: seq<u8>, m2: seq<u8>, a: Attempt, o2: seq<Attempt>)
    returns (p2: Pdu)
    requires t.Valid() && t.IsEstablished(s)
    requires Heard(a, |m1|)
    modifies t.seqEmission, t.fenetres, t.pertes, t.connections
    ensures p2.header.destPort == a.sourcePort
  {
    var r1, p1, e1, u1 := t.Send(s, m1, [a]);
    var r2, e2, u2;
    r2, p2, e2, u2 := t.Send(s, m2, o2);
  }

  /**
   * The first exchange of a receiving application: a fresh table, a
   * socket, `accept`, then `recv`. The first `recv` finds the buffer empty
   * and blocks, but it has selected the slot, so the next PDU carrying the
   * initial sequence number is delivered and acknowledged with the flipped
   * bit, and the blocked `recv` then returns its payload.
   */
  method FirstDelivery(slots: nat, window: nat, budget: nat, h: Header, body: seq<u8>, peer: SockAddr, capacity: nat)
    returns (first: bool, ack: Option<Pdu>, data: seq<u8>)
    requires slots > 0 && window > 0
    requires |body| <= capacity
    ensures !first
    ensures ack == Some(AckPdu(h, Flip(h.seqNum)))
    ensures data == body
  {
    var t := new ConnectionTable(slots, window, h.seqNum, budget);
    var d := t.Socket(true);
    assert d == 0 && t.seqReception[0] == h.seqNum;
    var a := t.Accept(d, peer);
    assert t.IsEstablished(0) && t.buffer.entries == [];
    var r0, x0, r1, delivered;
    r0, x0, first := t.Recv(d, capacity);
    assert t.currentSocket == 0 && t.seqReception[0] == h.seqNum;
    ack := t.ProcessReceivedPdu(Pdu(h, Payload(body)), peer);
    assert t.buffer.entries == [Payload(body)] && t.IsEstablished(0);
    r1, data, delivered := t.Recv(d, capacity);
  }

  /**
   * Closing an ESTABLISHED slot makes it reusable: the next successful
   * `mic_tcp_socket` returns that slot or a lower one, and never fails
   * for want of space.
   */
  method CloseThenReopen(t: ConnectionTable, s: int) returns (d: int)
    requires t.Valid() && t.IsEstablished(s)
    modifies t, t.sockets, t.seqEmission, t.seqReception, t.fenetres, t.pertes
    ensures 0 <= d <= s
    ensures t.sockets[d].state == Idle
  {
    var r := t.Close(s);
    assert t.sockets[s].state == Closed;
    d := t.Socket(true);
    assert d != -1;
  }
}
