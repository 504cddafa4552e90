/**
 * The stop-and-wait rules of src/mictcp.c as values: the sequence bit
 * flip, the window counter, the loss budget test, and the retransmission
 * loop of `mic_tcp_send` run over a finite list of transport outcomes.
 */
module Arq {
  import opened MicTcpTypes

  /** `(x + 1) % 2`, the alternating-bit update of both sequence numbers. */
  function Flip(b: u32): (r: u32)
    ensures r < 2 && r != b
    ensures b < 2 ==> r == 1 - b
  {
    (b + 1) % 2
  }

  /** The two per-slot loss counters: `fenetres` and `pertes`. */
  datatype Counters = Counters(window: nat, pertes: nat)

  /**
   * `if (++fenetres >= MICTCP_FENETRE) { fenetres = 0; pertes = 0; }`:
   * every call counts one more exchange; when a window of `size`
   * exchanges completes, both counters start over.
   */
  function WindowTick(window: nat, pertes: nat, size: nat): (c: Counters)
    requires size > 0
    ensures c.window < size
    ensures window < size ==> c.window == (window + 1) % size
    ensures c.pertes == if c.window == 0 then 0 else pertes
  {
    if window + 1 >= size then Counters(0, 0) else Counters(window + 1, pertes)
  }

  /** The decision of `if (++pertes > pertes_admissibles) pertes = 0; else ...`. */
  datatype Charge = Charge(admissible: bool, pertes: nat)

  /**
   * One more loss is charged; it is admissible while the count stays
   * within the budget, otherwise the count restarts at 0.
   */
  function ChargeLoss(pertes: nat, budget: nat): (c: Charge)
    ensures c.pertes <= budget
    ensures c.admissible <==> pertes < budget
    ensures c.pertes == if c.admissible then pertes + 1 else 0
  {
    if pertes + 1 > budget then Charge(false, 0) else Charge(true, pertes + 1)
  }

  /**
   * What one iteration of the send loop observes: the value `IP_send`
   * returned, the value `IP_recv` returned, and the `ack` flag, `ack_num`
   * and `source_port` of the header it received.
   */
  datatype Attempt = Attempt(sent: int, received: int, ackFlag: u8, ackNum: u32, sourcePort: u16)

  /** The PDU went out whole and an acknowledgement of `ackSeq` came back. */
  predicate Acked(a: Attempt, size: int, ackSeq: u32)
  {
    a.sent == size && a.received == 0 && a.ackFlag == 1 && a.ackNum == ackSeq
  }

  /** The PDU went out whole but no acceptable acknowledgement came back. */
  predicate Lost(a: Attempt, size: int, ackSeq: u32)
  {
    a.sent == size && !Acked(a, size, ackSeq)
  }

  /**
   * The attempt waited for an acknowledgement and `IP_recv` received a
   * datagram, so `IP_recv` overwrote the peer address it was given, which
   * `mic_tcp_send` passes as `&connections[socket]`.
   */
  predicate Heard(a: Attempt, size: int)
  {
    a.sent == size && a.received != -1
  }

  /**
   * The peer address after the first `n` attempts of a send to `peer`: the
   * stub address of the last attempt among them that heard a datagram, or
   * `peer` when none did.
   */
  function PeerAfter(os: seq<Attempt>, n: nat, size: int, peer: SockAddr): SockAddr
    requires n <= |os|
  {
    if n == 0 then peer
    else if Heard(os[n - 1], size) then StubAddr(os[n - 1].sourcePort)
    else PeerAfter(os, n - 1, size, peer)
  }

  /** When no attempt heard a datagram, the peer address is the one the send started with. */
  lemma {:induction false} PeerAfterNoneHeard(os: seq<Attempt>, n: nat, size: int, peer: SockAddr)
    requires n <= |os|
    requires forall k :: 0 <= k < n ==> !Heard(os[k], size)
    ensures PeerAfter(os, n, size, peer) == peer
  {
    if n > 0 {
      PeerAfterNoneHeard(os, n - 1, size, peer);
    }
  }

  /** The peer address is the stub address of the last attempt that heard a datagram. */
  lemma {:induction false} PeerAfterLastHeard(os: seq<Attempt>, n: nat, size: int, peer: SockAddr, k: nat)
    requires k < n <= |os|
    requires Heard(os[k], size)
    requires forall j :: k < j < n ==> !Heard(os[j], size)
    ensures PeerAfter(os, n, size, peer) == StubAddr(os[k].sourcePort)
  {
    if k < n - 1 {
      PeerAfterLastHeard(os, n - 1, size, peer, k);
    }
  }

  /**
   * The state of the send loop when it stops or runs out of outcomes:
   * whether it left the loop, how many outcomes it used, the `perte` flag
   * and the loss counter.
   */
  datatype SendRun = SendRun(exited: bool, used: nat, charged: bool, pertes: nat)

  /**
   * The `do ... while (resend == 1)` loop of `mic_tcp_send`, from outcome
   * `i` on, for a PDU of `size` payload bytes whose acknowledgement must
   * carry `ackSeq`. `charged` is the `perte` flag: only the first loss of a
   * call is charged to the budget.
   */
  function SendLoop(os: seq<Attempt>, i: nat, size: int, ackSeq: u32, charged: bool, pertes: nat, budget: nat): (run: SendRun)
    requires i <= |os|
    ensures i <= run.used <= |os|
    ensures !run.exited ==> run.used == |os|
    ensures charged ==> run.charged && run.pertes == pertes
    decreases |os| - i
  {
    if i == |os| then SendRun(false, i, charged, pertes)
    else if os[i].sent != size then SendLoop(os, i + 1, size, ackSeq, charged, pertes, budget)
    else if Acked(os[i], size, ackSeq) then SendRun(true, i + 1, charged, pertes)
    else if charged then SendLoop(os, i + 1, size, ackSeq, true, pertes, budget)
    else
      var c := ChargeLoss(pertes, budget);
      if c.admissible then SendRun(true, i + 1, true, c.pertes)
      else SendLoop(os, i + 1, size, ackSeq, true, c.pertes, budget)
  }

  /**
   * The loop exits exactly when some outcome acknowledges the PDU, or when
   * some outcome is a loss and the call has not yet charged one and the
   * budget still has room for it.
   */
  lemma {:induction false} SendLoopExitsIff(os: seq<Attempt>, i: nat, size: int, ackSeq: u32, charged: bool, pertes: nat, budget: nat)
    requires i <= |os|
    ensures SendLoop(os, i, size, ackSeq, charged, pertes, budget).exited <==>
      (exists k :: i <= k < |os| && Acked(os[k], size, ackSeq))
      || (!charged && pertes < budget && exists k :: i <= k < |os| && Lost(os[k], size, ackSeq))
    decreases |os| - i
  {
    if i < |os| {
      var a := os[i];
      if a.sent != size || (Lost(a, size, ackSeq) && charged) {
        SendLoopExitsIff(os, i + 1, size, ackSeq, charged, pertes, budget);
        assert !Acked(a, size, ackSeq) && !(Lost(a, size, ackSeq) && !charged);
        assert forall k :: i <= k < |os| && Acked(os[k], size, ackSeq) ==> i + 1 <= k;
      } else if Lost(a, size, ackSeq) && pertes >= budget {
        var c := ChargeLoss(pertes, budget);
        SendLoopExitsIff(os, i + 1, size, ackSeq, true, c.pertes, budget);
        assert forall k :: i <= k < |os| && Acked(os[k], size, ackSeq) ==> i + 1 <= k;
      }
    }
  }

  /**
   * When the loop exits, the last outcome it used is either the
   * acknowledgement or the call's one admissible loss, and no earlier
   * outcome was an acknowledgement.
   */
  lemma {:induction false} SendLoopStop(os: seq<Attempt>, i: nat, size: int, ackSeq: u32, charged: bool, pertes: nat, budget: nat)
    requires i <= |os|
    ensures var run := SendLoop(os, i, size, ackSeq, charged, pertes, budget);
      run.exited ==>
        && i < run.used
        && (Acked(os[run.used - 1], size, ackSeq)
            || (!charged && Lost(os[run.used - 1], size, ackSeq) && run.pertes == pertes + 1 <= budget))
        && forall k :: i <= k < run.used - 1 ==> !Acked(os[k], size, ackSeq)
    decreases |os| - i
  {
    if i < |os| {
      var a := os[i];
      if a.sent != size || (Lost(a, size, ackSeq) && charged) {
        SendLoopStop(os, i + 1, size, ackSeq, charged, pertes, budget);
      } else if Lost(a, size, ackSeq) && pertes >= budget {
        var c := ChargeLoss(pertes, budget);
        SendLoopStop(os, i + 1, size, ackSeq, true, c.pertes, budget);
        var run := SendLoop(os, i + 1, size, ackSeq, true, c.pertes, budget);
        assert run.exited ==> Acked(os[run.used - 1], size, ackSeq);
      }
    }
  }

  /**
   * A call charges at most one loss: the counter is unchanged, or it grew
   * by one within the budget, or it overran the budget and was reset.
   */
  lemma {:induction false} SendLoopChargesOnce(os: seq<Attempt>, i: nat, size: int, ackSeq: u32, charged: bool, pertes: nat, budget: nat)
    requires i <= |os|
    ensures var p := SendLoop(os, i, size, ackSeq, charged, pertes, budget).pertes;
      || p == pertes
      || (!charged && p == pertes + 1 <= budget)
      || (!charged && p == 0 && pertes >= budget)
    decreases |os| - i
  {
    if i < |os| && os[i].sent != size {
      SendLoopChargesOnce(os, i + 1, size, ackSeq, charged, pertes, budget);
    }
  }

  /** The loss counter never leaves the budget. */
  lemma SendLoopKeepsBudget(os: seq<Attempt>, i: nat, size: int, ackSeq: u32, charged: bool, pertes: nat, budget: nat)
    requires i <= |os|
    requires pertes <= budget
    ensures SendLoop(os, i, size, ackSeq, charged, pertes, budget).pertes <= budget
  {
    SendLoopChargesOnce(os, i, size, ackSeq, charged, pertes, budget);
  }

  /**
   * The budget bounds the losses a window accepts only until an overrun:
   * the overrun resets the counter, and later losses of the same window are
   * accepted again. With a budget of 1 and a window of 30, three sends
   * whose first attempt times out (the second then acknowledged) all
   * stay in one window, and the first and third both end on an accepted
   * loss: two accepted losses in a window that admits one.
   */
  lemma LossBudgetRefillsWithinWindow()
    ensures var timeout := Attempt(1, -1, 0, 0, 0);
      var c1 := WindowTick(0, 0, 30);
      var r1 := SendLoop([timeout], 0, 1, 1, false, c1.pertes, 1);
      var c2 := WindowTick(c1.window, r1.pertes, 30);
      var r2 := SendLoop([timeout, Attempt(1, 0, 1, 0, 0)], 0, 1, 0, false, c2.pertes, 1);
      var c3 := WindowTick(c2.window, r2.pertes, 30);
      var r3 := SendLoop([timeout], 0, 1, 1, false, c3.pertes, 1);
      && c1.window == 1 && c2.window == 2 && c3.window == 3
      && Lost(timeout, 1, 1) && r1.exited && r1.used == 1 && r1.pertes == 1
      && r2.exited && r2.used == 2 && r2.pertes == 0
      && r3.exited && r3.used == 1 && r3.pertes == 1
  {
  }
}
