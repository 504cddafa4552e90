# MIC-TCP engine, modelled in Dafny

MIC-TCP is a partially-reliable transport that runs over a lossy datagram
channel. It is a stop-and-wait, alternating-bit protocol. Each connection
slot keeps a send bit and an expected receive bit, both flipped mod 2. It
also keeps two counters. `fenetres` counts exchanges and restarts every
`MICTCP_FENETRE` of them. `pertes` counts the losses accepted since the
last restart, up to `pertes_admissibles`. A loss beyond that budget is
not accepted: the PDU is sent again and the count restarts at 0, even in
the middle of a window.

What this project models:

- `types.dfy` (`MicTcpTypes`): the types of `include/mictcp.h` (protocol
  states, addresses, the header, the payload, the PDU), with the C integer
  widths as subset types.
- `mictcp_core.dfy` (`MicTcpCore`): the layer under the protocol:
  - the framing of a PDU into a datagram and back;
  - `min_size`;
  - the size and timeout arithmetic of `IP_send` and `IP_recv`;
  - the application delivery buffer, as a class holding the queue.
- `arq.dfy` (`Arq`): the rules of `src/mictcp.c` as pure functions:
  - the bit flip;
  - the window counter;
  - the loss-budget test;
  - the `mic_tcp_send` retransmission loop, run over a finite list of
    transport outcomes.

  The lemmas here prove when that loop exits and how it charges losses.
- `mictcp.dfy` (`MicTcp`): the connection table, as a class.
  - Its fields are the global arrays of the source (`sockets`,
    `connections`, `seq_emission`, `seq_reception`, `fenetres`, `pertes`)
    plus `socketd` and `current_socket`.
  - Its methods are the public calls and `process_received_PDU`.
  - `Valid()` carries the invariants: each sequence number is a bit (0 or
    1) or still `MICTCP_SEQUENCE_INITIALE`, `fenetres < MICTCP_FENETRE`,
    and `pertes <= pertes_admissibles`.
- `gateway.dfy` (`Gateway`): `tsSubtract` of the relay gateway.

The compile-time constants `MICTCP_SOCKETS`, `MICTCP_FENETRE`,
`MICTCP_SEQUENCE_INITIALE` and `pertes_admissibles` are model parameters.
They are the constant fields `Sockets`, `Window`, `InitialSeq` and `Budget`
of `ConnectionTable`. `Window` must be at least 1, since no counter can
stay below a window of 0.

The transport is never called. Each iteration of the send loop reads one
`Arq.Attempt`: what `IP_send` returned, what `IP_recv` returned, and the
`ack` flag, `ack_num` and `source_port` of the received header. The
source port matters because `mic_tcp_send` passes `&connections[socket]`
to `IP_recv`. Every datagram received there therefore overwrites the
slot's peer with "localhost" and that port, and the next send is
addressed to it. `Send` reports whether
its loop exited within the given outcomes. The source's loop runs until
one arrives. The ACK that `process_received_PDU` transmits is returned,
not sent. Whether `initialize_components` succeeded is a parameter of
`Socket`, and whether the layer is initialised is a parameter of `IpSend`
and `IpRecv`.

Where the design description and the code disagree, the model follows the
code:

- `accept` and `connect` exchange no PDU. They record the peer address
  and set ESTABLISHED: there is no SYN/SYN-ACK handshake and no
  reliability negotiation.
- `bind` accepts a handle in any state, not only IDLE.
- The design's bound of `pertes_admissibles` accepted losses per window
  does not hold. A loss that overruns the budget resets `pertes` to 0
  mid-window (src/mictcp.c:146-147, 232-233), and losses after it in the
  same window are accepted again. `Arq.LossBudgetRefillsWithinWindow`
  shows two accepted losses in one window with a budget of 1.
- `send` counts the exchange in `fenetres`, not in the loss counter. A
  loss is charged only inside the loop, and only the first loss of a call.
- At an inadmissible mismatch the receiver resets `pertes` and still
  flips its expected bit. It keeps the bit only for an admissible
  mismatch.
- The code rejects no received frame for being shorter than the header.
  `MicTcpCore.IpRecvSizeAsWritten` is the code as written.
  `MicTcpCore.IpRecv` is the corrected behaviour that the rest of the model
  uses: it treats such a datagram as a failed receive. See "Findings".

The header layout is the host's struct memory: `memcpy` of the first 15
bytes. The model fixes a little-endian host. There the struct has no
padding before `fin`, and those 15 bytes are the seven fields in order,
least significant byte first.

## Model

| member | source | states |
|---|---|---|
| `MicTcpCore.LittleEndianRoundTrip` | src/api/mictcp_core.c:174 | reading back the host bytes of an integer field that fits its width gives the integer |
| `MicTcpCore.LittleEndianOfBytes` | src/api/mictcp_core.c:194 | every byte string is the encoding of the number it denotes, so decoding loses nothing |
| `MicTcpCore.HeaderRoundTrip` | src/api/mictcp_core.c:190-196 | decoding the 15 header bytes written for a header gives that header back |
| `MicTcpCore.HeaderBytesRoundTrip` | src/api/mictcp_core.c:190-196 | every 15-byte block is the encoding of the header decoded from it: the encoding is a bijection |
| `MicTcpCore.DecodeHeader` | src/api/mictcp_core.c:194 | the header read from the first 15 bytes on a little-endian host: each port is two bytes, each sequence number four, least significant first, then `syn`, `ack`, `fin` one byte each |
| `MicTcpCore.MicTcpHeader` | src/api/mictcp_core.c:190-196 | `get_mic_tcp_header`: the header is exactly the one the first 15 bytes of the stream encode |
| `MicTcpCore.EncodeHeader` | include/api/mictcp_core.h:31 | the header occupies exactly `API_HD_Size` = 15 bytes |
| `MicTcpCore.FullStream` | src/api/mictcp_core.c:167-178 | the framed stream is 15 bytes longer than the payload |
| `MicTcpCore.MicTcpData` | src/api/mictcp_core.c:180-187 | the extracted data is the stream size minus 15 |
| `MicTcpCore.FullStreamRoundTrip` | src/api/mictcp_core.c:167-196 | `get_mic_tcp_header` and `get_mic_tcp_data` of `get_full_stream(pk)` give back `pk`'s header and payload |
| `MicTcpCore.StreamSplitRoundTrip` | src/api/mictcp_core.c:167-196 | framing the header and data split from any stream of at least 15 bytes rebuilds that stream |
| `MicTcpCore.MinSize` | src/api/mictcp_core.c:343-347 | the result is one of the two arguments and no larger than either |
| `MicTcpCore.IpSend` | src/api/mictcp_core.c:97-116 | -1 when the layer is uninitialised or the core send failed; otherwise the sent count less the 15 header bytes |
| `MicTcpCore.IpSendWholeStream` | src/api/mictcp_core.c:106-112 | when the whole framed PDU goes out, `IP_send` reports exactly the payload size that `mic_tcp_send` compares with `mesg_size` |
| `MicTcpCore.SplitTimeout` | src/api/mictcp_core.c:131-134 | seconds times 10^6 plus microseconds equals the millisecond timeout times 1000, with 0 <= microseconds < 10^6 |
| `MicTcpCore.ReceivedCount` | src/api/mictcp_core.c:137-141 | `recvfrom` into the `15 + capacity` byte buffer: -1 when nothing arrived; otherwise the whole datagram, or the buffer size when the datagram is longer |
| `MicTcpCore.IpRecvSizeAsWritten` | src/api/mictcp_core.c:118-165 | `IP_recv` as written: never more than the capacity; when a datagram arrives on an initialised layer, the size is negative exactly when the datagram is shorter than the 15-byte header |
| `MicTcpCore.IpRecv` | src/api/mictcp_core.c:118-165 | the result is -1 or a payload size within the caller's capacity. It succeeds exactly when the layer is initialised, the timeout was set and a datagram of at least 15 bytes arrived. The received frame is a prefix of the datagram, cut only when the capacity is full, and the peer port is the header's source port |
| `MicTcpCore.IpRecvAgreesWhenHeaderComplete` | src/api/mictcp_core.c:137-158 | whenever a full header arrives, the result equals the code as written (received count minus 15) |
| `MicTcpCore.IpRecvFullStream` | src/api/mictcp_core.c:137-158 | a framed PDU whose payload fits the capacity is received whole, with the sender's port as the peer port |
| `MicTcpCore.ShortDatagramAsWritten` | src/api/mictcp_core.c:144-147 | as written, a 3-byte datagram yields a payload size of -12 |
| `MicTcpCore.AppBuffer.constructor` | src/api/mictcp_core.c:45 | the queue starts empty |
| `MicTcpCore.AppBuffer.Put` | src/api/mictcp_core.c:265-285 | the payload is appended at the tail and the earlier entries are unchanged |
| `MicTcpCore.AppBuffer.Get` | src/api/mictcp_core.c:222-263 | on a non-empty queue: returns `min_size(head size, capacity)`, hands over exactly that prefix of the head, and removes only the head |
| `MicTcpCore.FifoOrder` | src/api/mictcp_core.c:244-277 | after `put(a); put(b)` on an empty buffer, the next two gets return a's bytes and then b's |
| `Arq.Flip` | src/mictcp.c:120 | the new sequence number is a bit, it always differs from the old one, and it is `1 - b` for a bit `b` |
| `Arq.WindowTick` | src/mictcp.c:122-126 | the window counter stays below `MICTCP_FENETRE` and steps as `(w + 1) mod MICTCP_FENETRE`; the loss counter is reset exactly when the window restarts |
| `Arq.ChargeLoss` | src/mictcp.c:146-149 | a loss is admissible exactly when the counter is below the budget. The counter then grows by one; otherwise it restarts at 0, so it never exceeds the budget |
| `Arq.SendLoop` | src/mictcp.c:127-153 | the loop never uses more outcomes than it is given; when it does not exit it has used them all; once a loss is charged the counter is left alone |
| `Arq.SendLoopExitsIff` | src/mictcp.c:127-153 | the loop exits exactly when some attempt brings an ACK with the flag set and `ack_num` equal to the new send bit, or when some attempt is a loss, none was charged yet, and the budget has room. An attempt whose `IP_send` result is not `mesg_size` plays no part |
| `Arq.SendLoopStop` | src/mictcp.c:138-150 | when the loop exits, the last attempt used is the acceptable ACK or the call's one admissible loss, and no earlier attempt was an acceptable ACK |
| `Arq.SendLoopChargesOnce` | src/mictcp.c:142-149 | a call charges at most one loss. The counter is unchanged, or grew by one within the budget, or overran it and was reset to 0 |
| `Arq.SendLoopKeepsBudget` | src/mictcp.c:146-147 | a counter within the budget stays within it across the whole loop |
| `Arq.LossBudgetRefillsWithinWindow` | src/mictcp.c:146-147 | with a budget of 1 and a window of 30, three sends stay in one window, and the first and third each end on an accepted loss: the overrun in between reset the counter |
| `Arq.PeerAfterNoneHeard` | src/api/mictcp_core.c:151-155 | when no attempt of a send heard a datagram, the slot keeps the peer address it had |
| `Arq.PeerAfterLastHeard` | src/api/mictcp_core.c:151-155 | otherwise the slot's peer is "localhost" with the source port of the last datagram heard |
| `MicTcp.DataPdu` | src/mictcp.c:104-118 | the data PDU of a send, framed and sent whole, makes `IP_send` report exactly `mesg_size`, and its framed data is the message |
| `MicTcp.AckPdu` | src/mictcp.c:209-219 | the ACK is a bare 15-byte header addressed back to the sender: its ports are the received PDU's ports swapped |
| `MicTcp.AckPduIsAccepted` | src/mictcp.c:209-219 | the sender's `IP_recv` (src/api/mictcp_core.c:137-158) of that ACK returns 0, with the `ack` flag set and the acknowledged bit, and the receiver's port becomes the sender's peer |
| `MicTcp.SocketAsWritten` | src/mictcp.c:25-35 | as written, a fresh slot is never the last slot of the table, and a failure leaves `socketd` incremented |
| `MicTcp.OneSlotTableAsWritten` | src/mictcp.c:30-34 | as written, a one-slot table refuses its first allocation |
| `MicTcp.HandleOutOfRangeAsWritten` | src/mictcp.c:30-34 | as written, two failed allocations push `socketd` past the table size, so an out-of-range handle passes the handle test |
| `MicTcp.ConnectionTable.constructor` | src/mictcp.c:4-13 | the table starts with every slot IDLE with descriptor 0 and an empty address. The peer addresses are empty, and the sequence numbers and both counters are 0. `socketd = 0` and `current_socket = MICTCP_SOCKETS` |
| `MicTcp.ConnectionTable.Socket` | src/mictcp.c:19-46 | fails only when initialisation fails or the table is full with no CLOSED slot, and then changes nothing. Otherwise it returns the lowest CLOSED slot below `socketd`, or claims slot `socketd`. That slot becomes IDLE with `fd = d`, both sequence numbers `MICTCP_SEQUENCE_INITIALE` and both counters 0; nothing else changes |
| `MicTcp.ConnectionTable.Bind` | src/mictcp.c:52-61 | 0 and only the slot's local address changed on a valid handle; -1 and nothing changed otherwise |
| `MicTcp.ConnectionTable.Establish` | src/mictcp.c:70-76 | on a valid handle: records the peer, sets ESTABLISHED and returns 0; otherwise -1 and nothing changed |
| `MicTcp.ConnectionTable.Accept` | src/mictcp.c:67-77 | the caller's peer address is recorded and the slot becomes ESTABLISHED (0), or -1 with nothing changed on an invalid handle |
| `MicTcp.ConnectionTable.Connect` | src/mictcp.c:83-93 | the destination address is recorded and the slot becomes ESTABLISHED (0), or -1 with nothing changed on an invalid handle |
| `MicTcp.ConnectionTable.Send` | src/mictcp.c:99-157 | -1 with nothing changed unless the slot is ESTABLISHED. Otherwise it returns `mesg_size` and transmits a PDU with the old send bit, `ack_num = UINT32_MAX` and no flags. The send bit flips exactly once and the window counter steps. The loss counter, the exit flag and the slot's peer address are those of `Retransmit` on the outcomes; other slots are untouched |
| `MicTcp.ConnectionTable.Retransmit` | src/mictcp.c:127-153 | the loop runs exactly as `SendLoop` on the outcomes says. It changes only the slot's loss counter, to the run's, and the slot's peer, which becomes `PeerAfter` of the attempts used (the address write of src/api/mictcp_core.c:151-155): the stub address of the last datagram heard, or unchanged |
| `MicTcp.ConnectionTable.Recv` | src/mictcp.c:165-179 | -1 with nothing changed unless ESTABLISHED. Otherwise `current_socket := socket` always. It delivers exactly when the buffer is non-empty: then it returns the result of `app_buffer_get` on the caller's capacity. On an empty buffer it reports the call as still blocked, with the buffer untouched |
| `MicTcp.ConnectionTable.Close` | src/mictcp.c:186-196 | an ESTABLISHED slot becomes CLOSED and 0 is returned; otherwise -1 and nothing changed |
| `MicTcp.ConnectionTable.ProcessReceivedPdu` | src/mictcp.c:204-244 | nothing happens while `current_socket >= MICTCP_SOCKETS`. Otherwise the window counter steps. The payload is appended exactly when `seq_num` is the expected bit. A mismatch is charged as a loss. The expected bit flips unless that loss was admissible. One empty ACK is sent, ports swapped, `seq_num = UINT32_MAX`, `ack = 1`, and `ack_num` the final expected bit |
| `MicTcp.ConsecutiveSendsAlternate` | src/mictcp.c:108-120 | two consecutive sends on one slot transmit different sequence numbers, whatever the transport did |
| `MicTcp.HeardDatagramRedirectsNextSend` | src/mictcp.c:137 | `IP_recv` is given `&connections[socket]` and overwrites it (src/api/mictcp_core.c:151-155), and the PDU takes `connections[socket].port` (src/mictcp.c:107). So after a send whose one attempt heard a datagram, the next send's PDU goes to that datagram's source port, whatever it carried |
| `MicTcp.FirstDelivery` | src/mictcp.c:165-179 | from a fresh table: socket, accept, and a first `recv` that blocks but selects the slot. Then a PDU with the initial sequence number is acknowledged with the flipped bit, and the next `recv` returns its payload |
| `MicTcp.CloseThenReopen` | src/mictcp.c:26-28 | after closing a slot, the next allocation succeeds with that slot or a lower one |
| `Gateway.TsSubtract` | src/apps/gateway.c:349-371 | zero when time1 <= time2 (seconds, then nanoseconds, equality included); otherwise exactly the difference of the two instants. For normalised inputs the result is normalised and non-negative |
| `Gateway.NotLaterIsInstantOrder` | src/apps/gateway.c:356 | on normalised times, the field-wise test is the order of the instants |
| `Gateway.TsSubtractIsClampedDifference` | src/apps/gateway.c:356-367 | on normalised times, the result is the normalised timespec `FromNanos` of max(0, time1 - time2), borrow case and no-borrow case alike |
| `Gateway.FirstDelayNotNormalised` | src/apps/gateway.c:173-174 | the callers' first `last_time`, (-1, LONG_MAX), gives a delay with negative nanoseconds for any normalised timestamp with non-negative seconds. `read_rtp_packet` (src/apps/gateway.c:334-337) zeroes the timestamp and then reads 4 bytes into each field, so the seconds are never negative |

## Findings

| source | as written | input that shows it | evidently intended | confidence | as-written member | corrected member |
|---|---|---|---|---|---|---|
| src/mictcp.c:30-35 | `socketd` is incremented before the capacity test, and the increment is kept when the test fails | a 1-slot table refuses its first socket. On a 2-slot table with slot 0 in use, two failed calls leave `socketd = 3`, so handle 2 passes the `socket < socketd` test of bind/accept/connect and indexes past the arrays | refuse a new slot, without claiming it, when all `MICTCP_SOCKETS` slots are handed out | not executed; the arithmetic is certain | `MicTcp.SocketAsWritten`, `MicTcp.OneSlotTableAsWritten`, `MicTcp.HandleOutOfRangeAsWritten` | `MicTcp.ConnectionTable.Socket` |
| src/api/mictcp_core.c:144-148 | a received datagram's payload size is the count minus 15, whatever the count | a 3-byte datagram gives size -12, which is then passed to `memcpy` as a length | treat a datagram shorter than the header as a failed receive | not executed; only a stray datagram triggers it | `MicTcpCore.IpRecvSizeAsWritten`, `MicTcpCore.ShortDatagramAsWritten` | `MicTcpCore.IpRecv` |

## Left out

- `initialize_components`, the UDP socket, `full_send`, `sendto` and `recvfrom` are I/O. Their outcomes are parameters: `initialized`, `optionSet`, `Arrival`, `Attempt`.
- `mic_tcp_core_send`'s random loss injection and `set_loss_rate` use `rand()` and floating point. The send model takes `IP_send`'s result as given.
- The floating-point formula for `pertes_admissibles` is replaced by the parameter `Budget`.
- The mutex, the condition variable and the `listening` thread are concurrency. The thread is modelled as repeated calls of `ProcessReceivedPdu`, and the blocking wait of `app_buffer_get` as `ConnectionTable.Recv` returning with `delivered` false. `AppBuffer.Get` itself requires a non-empty queue.
- The value of `MICTCP_TIMEOUT` plays no part, because each attempt's outcome is an input. `SplitTimeout` models the timeout arithmetic.
- Clock reads, `print_header` and the debug printing are left out.
- `gateway.c`'s relay loops, `read_rtp_packet`, `nanosleep` and option parsing are I/O. `client.c` and `server.c` are console wrappers around the calls modelled here.
- Any host layout other than little-endian is not modelled. The field order and the 15-byte size are the same on every host; the byte order is not.
- `IP_send` ignores its address argument and sends to the configured peer. The address given to `ProcessReceivedPdu` is therefore not modelled further.
- `ProcessReceivedPdu`, `Send`: the `unsigned int` counters are natural numbers. They cannot wrap, because they stay below `Window` and at most `Budget + 1`.
- `Gateway.TsSubtract` uses unbounded integers. A 64-bit overflow of the seconds difference is not modelled.
- `MicTcp.ConnectionTable.Send` takes the message size to be the length of the message bytes. The C function takes the buffer address and the size as separate arguments.
- `MicTcp.ConnectionTable.Send`: when `exited` is false, the source would still be in its loop. The returned `r` is then the value the call returns once the loop ends.
- `MicTcpCore.AppBuffer.Get` and `MicTcp.ConnectionTable.Recv` take a non-negative capacity. A negative one would be passed to `memcpy` as a length.
- `MicTcpCore.MicTcpHeader` and `MicTcpCore.MicTcpData` require at least 15 bytes. On a shorter buffer the C code reads past its end.
- `MicTcp.ConnectionTable.Recv`: when `delivered` is false, the source is still blocked inside `app_buffer_get`. The returned 0 and empty data stand for "no result yet". A later `Recv` on the same slot stands for the wake-up (see `FirstDelivery`).
- `MicTcp.ConnectionTable.Close`: the transient CLOSING state is set and immediately overwritten, so it is invisible in a sequential model.
- `MicTcpCore.IpRecv` rejects datagrams shorter than the 15-byte header, which the code as written accepts with a negative size. The code as written is `IpRecvSizeAsWritten` (see "Findings").
- `MicTcp.ConnectionTable.Retransmit`: a datagram heard by an attempt sets the peer only in the corrected receive, which accepts every datagram of at least 15 bytes. As written, `IP_recv` also overwrites the address for a shorter datagram and then returns a negative size.
- `MicTcp.ConnectionTable.Socket` follows the corrected allocation. The allocation as written is `SocketAsWritten` (see "Findings").
