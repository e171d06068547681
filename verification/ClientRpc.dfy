/**
 * The client endpoint as an object: its handlers update the session in place,
 * with the loops of the source. Every handler is one step of the session's
 * state machine, and one turn of the event loop is a run of it.
 */
module ClientRpc {
  import opened Options
  import opened Arith
  import opened Messages
  import opened Datapath
  import opened Session
  import opened SlotInvariant
  import opened Sequences
  import opened SharedQueues
  import opened SessionInvariant
  import opened SessionSteps
  import opened Asserts
  import opened ActiveList
  import opened LossScan
  import opened MsgBuffers

  const kCcPacing: bool
  const kCcOptWheelBypass: bool
  const kPktLossScanCycles: nat             // rpc_pkt_loss_scan_cycles_

  // The steps of one turn of the event loop

  function Reaps(n: nat): seq<Step> { seq(n, _ => Reaped(0)) }

  predicate AllReceived(x: seq<Step>, rx: seq<Pkt>) {
    |x| == |rx| && forall k | 0 <= k < |x| :: x[k].ClientRx? && x[k].pkt == rx[k]
  }

  /** No message in the burst is larger than kMaxMsgSize. */
  predicate AllFit(rx: seq<Pkt>) {
    forall k | 0 <= k < |rx| :: MsgSize(rx[k]) <= maxMsgSize
  }

  predicate AllEnqueued(x: seq<Step>, reqs: seq<Args>) {
    |x| == |reqs| && forall k | 0 <= k < |x| :: x[k].Enqueue? && x[k].args == reqs[k]
  }

  predicate AllUnstalled(x: seq<Step>) {
    forall k | 0 <= k < |x| :: x[k].Unstalled?
  }

  /** What one turn did: the steps of each stage, the packets it took from the wheel, the batch items it sent, and the
      client that the scan found. */
  datatype Turn = Turn(received: seq<Step>, unstalled: seq<Step>, reaped: nat, sent: nat, enqueued: seq<Step>,
                       atScan: World, scans: seq<Scan>)

  function AfterTransmit(before: seq<Step>, unstalled: seq<Step>, reaped: nat, sent: nat): seq<Step> {
    before + [NextStage] + unstalled + [NextStage] + Reaps(reaped) + [NextStage] + Bursts(sent) + [NextStage]
  }

  function UpToScan(before: seq<Step>, now: nat, t: Turn): seq<Step> {
    AfterTransmit(before + [Tick(now)] + t.received, t.unstalled, t.reaped, t.sent) + t.enqueued
  }

  function AfterTurn(before: seq<Step>, now: nat, t: Turn): seq<Step> {
    AfterScans(UpToScan(before, now, t), t.scans) + [NextStage]
  }

  /** Setting the flags of a range of packets from its last one. */
  lemma {:induction false} SetFlagsLast(flags: seq<bool>, from: nat, k: nat)
    requires |flags| == kSessionCredits
    ensures SetFlags(flags, from, k + 1) == SetFlags(flags, from, k)[CreditIdx(from + k) := true]
    decreases k
  {
    if k > 0 {
      SetFlagsLast(flags[CreditIdx(from) := true], from + 1, k - 1);
    }
  }

  lemma {:induction false} SentMore(c: ClientSlot, k: nat)
    requires |c.inWheel| == kSessionCredits
    ensures Sent(c, k + 1, true) == Sent(c, k, true).(numTx := c.numTx + k + 1)
    ensures Sent(c, k + 1, false) ==
            Sent(c, k, false).(numTx := c.numTx + k + 1, wheelCount := c.wheelCount + k + 1,
                               inWheel := Sent(c, k, false).inWheel[CreditIdx(c.numTx + k) := true])
  {
    SetFlagsLast(c.inWheel, c.numTx, k);
  }

  lemma {:induction false} RefsNone(batch: seq<Tagged<ClientItem>>, wheel: seq<Tagged<nat>>, i: nat, from: nat)
    ensures batch + At(i, ReqRefs(from, 0)) == batch && wheel + At(i, PktNums(from, 0)) == wheel
  {
  }

  lemma {:induction false} RefsMore(batch: seq<Tagged<ClientItem>>, wheel: seq<Tagged<nat>>, i: nat, from: nat, k: nat)
    ensures batch + At(i, ReqRefs(from, k + 1)) == batch + At(i, ReqRefs(from, k)) + [Tagged(i, ReqRef(from + k))]
    ensures wheel + At(i, PktNums(from, k + 1)) == wheel + At(i, PktNums(from, k)) + [Tagged(i, from + k)]
  {
    assert At(i, ReqRefs(from, k + 1)) == At(i, ReqRefs(from, k)) + [Tagged(i, ReqRef(from + k))];
    assert At(i, PktNums(from, k + 1)) == At(i, PktNums(from, k)) + [Tagged(i, from + k)];
  }

  lemma {:induction false} SentNone(c: ClientSlot)
    requires |c.inWheel| == kSessionCredits
    ensures Sent(c, 0, true) == c && Sent(c, 0, false) == c
  {
  }

  class Endpoint {
    // Session state at the client
    var credits: nat
    const slots: array<ClientSlot>
    var freeVec: seq<nat>
    var backlog: seq<Args>
    var uncongested: bool
    // State of the Rpc that owns the session
    var stallq: seq<nat>
    var links: Links                        // The list of active requests
    var wheel: seq<Tagged<nat>>
    var batch: seq<Tagged<ClientItem>>
    var tsc: nat
    var pktLossScanTsc: nat
    // What the model adds
    ghost var active: seq<nat>              // What the links stand for
    ghost var stage: LoopStage
    ghost var calls: seq<Args>
    ghost var started: seq<Args>
    ghost var server: Server
    ghost var net: seq<set<Pkt>>

    ghost function State(): Client
      reads this, slots
    {
      Client(credits, slots[..], freeVec, backlog, stallq, active, wheel, batch, stage, tsc, calls, started)
    }

    /** The world this client lives in. */
    ghost function Here(): World
      reads this, slots
    {
      World(State(), server, net)
    }

    /** The client's part of the `Session` constructor: the free vector is filled so that slots are popped in order. */
    constructor ()
      ensures Here() == Init() && Linked(links, active)
    {
      hide Linked;
      EmptyLinked();
      links := Empty();
      slots := new ClientSlot[kSessionReqWindow];
      credits, tsc, pktLossScanTsc, uncongested := kSessionCredits, 0, 0, true;
      freeVec, backlog, stallq, active, wheel, batch := [], [], [], [], [], [];
      stage, calls, started := LoopStage.Receive, [], [];
      server, net := Init().s, Init().net;
      new;
      for i := 0 to kSessionReqWindow
        invariant freeVec == Init().c.freeVec[..i]
        invariant forall k | kSessionReqWindow - i <= k < kSessionReqWindow :: slots[k] == InitialClientSlot(k)
        invariant State() == Init().c.(freeVec := freeVec, slots := slots[..])
        invariant server == Init().s && net == Init().net && Linked(links, active)
      {
        var slotI := kSessionReqWindow - 1 - i;
        slots[slotI] := InitialClientSlot(slotI);
        freeVec := freeVec + [slotI];
      }
      assert slots[..] == Init().c.slots;
    }

    /** The world if the stall queue were `q`. */
    ghost function WithStallq(q: seq<nat>): World
      reads this, slots
    {
      World(State().(stallq := q), server, net)
    }

    /** `can_bypass_wheel` */
    predicate CanBypass(i: nat)
      requires i < slots.Length
      reads this, slots
    {
      !kCcPacing || (kCcOptWheelBypass && slots[i].wheelCount == 0 && uncongested)
    }

    /** `kick_req_st` */
    method KickReq(i: nat)
      requires WellSized(State()) && i < slots.Length && slots[i].tx.Some? && ReqPending(slots[i]) && credits > 0
      modifies this`credits, this`batch, this`wheel, slots
      ensures State() == Datapath.KickReq(old(State()), i, old(CanBypass(i)))
      ensures if !kCcPacing || (kCcOptWheelBypass && old(slots[i].wheelCount) == 0 && uncongested)
              then wheel == old(wheel) else batch == old(batch)
    {
      hide Messages.NumPkts, Messages.CreditIdx, Datapath.SetFlags, Datapath.ReqRefs, Datapath.PktNums, Datapath.At;
      RefsNone(batch, wheel, i, slots[i].numTx);
      ghost var s0, c0 := State(), slots[i];
      var sending := Min(credits, ReqPkts(slots[i].tx.value) - slots[i].numTx);
      var bypass := CanBypass(i);
      var x := 0;
      SentNone(c0);
      while x < sending
        invariant 0 <= x <= sending
        invariant slots[..] == s0.slots[i := Sent(c0, x, bypass)]
        invariant credits == s0.credits - x
        invariant batch == if bypass then s0.batch + At(i, ReqRefs(c0.numTx, x)) else s0.batch
        invariant wheel == if bypass then s0.wheel else s0.wheel + At(i, PktNums(c0.numTx, x))
      {
        var c := slots[i];
        SentMore(c0, x);
        RefsMore(s0.batch, s0.wheel, i, c0.numTx, x);
        if bypass {
          batch := batch + [Tagged(i, ReqRef(c.numTx))];
          slots[i] := c.(numTx := c.numTx + 1);
        } else {
          wheel := wheel + [Tagged(i, c.numTx)];
          slots[i] := c.(numTx := c.numTx + 1, wheelCount := c.wheelCount + 1,
                         inWheel := c.inWheel[CreditIdx(c.numTx) := true]);
        }
        credits := credits - 1;
        x := x + 1;
      }
    }

    /** `kick_rfr_st` */
    method KickRfr(i: nat)
      requires WellSized(State()) && i < slots.Length && KickRfrAsserts(slots[i], credits)
      modifies this`credits, this`batch, slots
      ensures State() == Datapath.KickRfr(old(State()), i)
    {
      ghost var s0, c0 := State(), slots[i];
      var pending := WirePkts(slots[i]) - slots[i].numTx;
      var sending := Min(credits, pending);
      var x := 0;
      while x < sending
        invariant 0 <= x <= sending
        invariant slots[..] == s0.slots[i := c0.(numTx := c0.numTx + x)]
        invariant credits == s0.credits - x
        invariant batch == s0.batch + At(i, Rfrs(c0.respHdr, c0.numTx, x))
      {
        var c := slots[i];
        assert Rfrs(c0.respHdr, c0.numTx, x + 1) == Rfrs(c0.respHdr, c0.numTx, x) + [Ctl(RFR(c.respHdr, c.numTx))];
        batch := batch + [Tagged(i, Ctl(RFR(c.respHdr, c.numTx)))];
        slots[i] := c.(numTx := c.numTx + 1);
        credits := credits - 1;
        x := x + 1;
      }
    }

    /** `add_to_active_rpc_list` */
    method AddToActiveRpcList(i: nat)
      requires Linked(links, active) && i < kSessionReqWindow && i !in active
      modifies this`links, this`active
      ensures Linked(links, active) && active == old(active) + [i]
    {
      AddLinks(links, active, i);
      var prevTail := links.prev[tail];
      links := links.(next := links.next[prevTail := i], prev := links.prev[i := prevTail]);
      links := links.(next := links.next[i := tail], prev := links.prev[tail := i]);
      active := active + [i];
    }

    /** `delete_from_active_rpc_list` */
    method DeleteFromActiveRpcList(i: nat)
      requires Linked(links, active) && i in active
      modifies this`links, this`active
      ensures Linked(links, active) && active == Without(old(active), i) && i !in active
    {
      DeleteLinks(links, active, i);
      var next, prev := links.next[i], links.prev[i];
      links := links.(next := links.next[prev := next]);
      links := links.(prev := links.prev[next := prev]);
      active := Without(active, i);
    }

    /** The slot that would be popped is not in the list. */
    ghost predicate FreeUnlisted()
      reads this
    {
      freeVec != [] ==> freeVec[|freeVec| - 1] !in active
    }

    /** `enqueue_request` on the dispatch thread. `bypass` is what `can_bypass_wheel` said, if it was asked. */
    method EnqueueRequest(a: Args) returns (ghost bypass: bool)
      requires WellSized(State()) && EnqueueAsserts(State()) && Linked(links, active) && FreeUnlisted()
      modifies this`credits, this`freeVec, this`backlog, this`stallq, this`active, this`links, this`wheel,
               this`batch, this`started
      modifies slots
      ensures State() == Datapath.EnqueueRequest(old(State()), a, bypass) && Linked(links, active)
    {
      hide Linked;
      bypass := true;
      if |freeVec| == 0 {
        backlog := backlog + [a];
        return;
      }
      var i := freeVec[|freeVec| - 1];
      freeVec := freeVec[..|freeVec| - 1];
      slots[i] := Started(slots[i], a, tsc);
      AddToActiveRpcList(i);
      started := started + [a];
      if credits > 0 {
        bypass := CanBypass(i);
        KickReq(i);
      } else {
        stallq := stallq + [i];
      }
    }

    /** The application's call. */
    method Enqueue(a: Args) returns (ghost bypass: bool)
      requires SizedWorld(Here()) && EnqueueAsserts(State()) && stage != Flush
      requires Linked(links, active) && FreeUnlisted()
      modifies this`credits, this`freeVec, this`backlog, this`stallq, this`active, this`links, this`wheel,
               this`batch, this`started
      modifies this`calls, slots
      ensures Here() == Next(old(Here()), Step.Enqueue(a, bypass)) && Linked(links, active)
    {
      hide Linked;
      calls := calls + [a];
      bypass := EnqueueRequest(a);
    }

    /** `process_expl_cr_st` */
    method ProcessCr(i: nat, p: Pkt) returns (ghost bypass: bool)
      requires WellSized(State()) && i < slots.Length && CrAsserts(State(), i, p)
      modifies this`credits, this`wheel, this`batch, slots
      ensures State() == Datapath.ProcessCr(old(State()), i, p, bypass)
    {
      bypass := true;
      if !InOrder(slots[i], p) { return; }
      credits := credits + 1;
      slots[i] := slots[i].(numRx := slots[i].numRx + 1, progress := tsc);
      if ReqPending(slots[i]) {
        bypass := CanBypass(i);
        KickReq(i);
      }
    }

    /** The end of `process_resp_one_st`. */
    method Complete(i: nat) returns (ghost bypass: bool)
      requires WellSized(State()) && i < slots.Length && (backlog != [] ==> freeVec == [])
      requires Linked(links, active) && i in active
      modifies this`credits, this`freeVec, this`backlog, this`stallq, this`active, this`links, this`wheel,
               this`batch, this`started
      modifies slots
      ensures State() == Datapath.Complete(old(State()), i, bypass) && Linked(links, active)
    {
      hide Linked;
      var c := slots[i];
      slots[i] := c.(tx := None,
                     done := c.done + [Done(c.cur, c.respBuf[..Min(c.respSize, |c.respBuf|)])]);
      DeleteFromActiveRpcList(i);
      freeVec := freeVec + [i];
      bypass := true;
      if |backlog| > 0 {
        var a := backlog[0];
        backlog := backlog[1..];
        bypass := EnqueueRequest(a);
      }
    }

    /** `process_resp_one_st` on a packet of a multi-packet response, up to the completion test. */
    method StoreMulti(i: nat, p: Pkt)
      requires WellSized(State()) && i < slots.Length && p.Resp? && slots[i].tx.Some?
      requires p.pkt >= ReqPkts(slots[i].tx.value) - 1
      requires var c := Sized(slots[i], p);
               c.numTx <= WirePkts(c) && (c.numTx != WirePkts(c) ==> KickRfrAsserts(c, credits))
      modifies this`credits, this`batch, slots
      ensures State() == Datapath.StoreMulti(old(State()), i, p)
    {
      var pktIdx := p.pkt - (ReqPkts(slots[i].tx.value) - 1);
      slots[i] := Sized(slots[i], p);
      if slots[i].numTx != WirePkts(slots[i]) { KickRfr(i); }
      slots[i] := slots[i].(respBuf := CopyData(slots[i].respBuf, pktIdx, p.size, p.data));
    }

    /** `process_resp_one_st` */
    method ProcessResp(i: nat, p: Pkt) returns (ghost bypass: bool)
      requires WellSized(State()) && i < slots.Length && p.Resp? && RespAsserts(State(), i, p)
      requires Linked(links, active) && (InOrder(slots[i], p) ==> i in active)
      modifies this`credits, this`freeVec, this`backlog, this`stallq, this`active, this`links, this`wheel,
               this`batch, this`started
      modifies slots
      ensures State() == Datapath.ProcessResp(old(State()), i, p, bypass) && Linked(links, active)
    {
      hide Linked;
      bypass := true;
      if !InOrder(slots[i], p) { return; }
      credits := credits + 1;
      var c := slots[i].(numRx := slots[i].numRx + 1, progress := tsc);
      slots[i] := c;
      assert State() == Acked(old(State()), i);
      if p.size <= kMaxDataPerPkt {
        slots[i] := c.(respSize := p.size, respHdr := p.num, respBuf := WriteAt(c.respBuf, 0, p.data));
      } else {
        StoreMulti(i, p);
        if slots[i].numRx != WirePkts(slots[i]) { return; }
      }
      bypass := Complete(i);
    }

    /** The dispatch of `process_comps_st` at the client, with its assertion on the size. */
    method Receive(p: Pkt) returns (ok: bool, ghost bypass: bool)
      requires SizedWorld(Here()) && Enabled(Here(), ClientRx(p, true)) && ProtocolAsserts(Here(), ClientRx(p, true))
      requires Linked(links, active) && (InOrder(slots[SlotOf(p.num)], p) ==> SlotOf(p.num) in active)
      modifies this`credits, this`freeVec, this`backlog, this`stallq, this`active, this`links, this`wheel,
               this`batch, this`started
      modifies slots
      ensures Here() == Next(old(Here()), ClientRx(p, bypass)) && Linked(links, active)
      ensures ok == old(InputAsserts(Here(), ClientRx(p, true)))
    {
      hide Linked;
      ok := MsgSize(p) <= maxMsgSize;
      var i := SlotOf(p.num);
      if p.CR? {
        bypass := ProcessCr(i, p);
      } else {
        bypass := ProcessResp(i, p);
      }
    }

    /** Kick the slot at the head of the model's stall queue; `rest` is what follows it. */
    method KickStalledHead(i: nat, ghost w: World, ghost before: seq<Step>, ghost rest: seq<nat>)
      returns (ghost steps: seq<Step>, ghost bypass: bool)
      requires Led(w, before, WithStallq([i] + rest)) && stage == Unstall && credits > 0
      modifies this`credits, this`wheel, this`batch, slots
      ensures Led(w, steps, WithStallq(rest)) && steps == before + [Unstalled(bypass)]
    {
      hide SessionSteps.Led, Session.Next, Session.Enabled;
      ghost var m := WithStallq([i] + rest);
      StallHead(w, before, m);
      bypass := CanBypass(i);
      UnstalledIsKick(w, before, m, bypass);
      assert ([i] + rest)[1..] == rest;
      KickReq(i);
      LedStep(w, before, m, Unstalled(bypass));
      steps := before + [Unstalled(bypass)];
    }

    /** `process_credit_stall_queue_st`: kicked slots leave the queue, the others are compacted in place. */
    method ProcessCreditStallQueue(ghost w: World, ghost before: seq<Step>)
      returns (ghost steps: seq<Step>, ghost unstalled: seq<Step>)
      requires Led(w, before, Here()) && stage == Unstall
      modifies this`credits, this`stallq, this`wheel, this`batch, slots
      ensures Led(w, steps, Here()) && steps == before + unstalled && AllUnstalled(unstalled)
      ensures |unstalled| <= |old(stallq)| && stallq == old(stallq)[|unstalled|..]
      ensures stallq == [] || credits == 0
    {
      hide SessionSteps.Led;
      steps, unstalled := before, [];
      var writeIndex, k := 0, 0;
      ghost var q0 := stallq;
      assert stallq[..0] + q0[0..] == stallq;
      assert WithStallq(stallq) == Here();
      while k < |stallq|
        invariant 0 <= writeIndex <= k <= |stallq| == |q0|
        invariant stallq[k..] == q0[k..]
        invariant Led(w, steps, WithStallq(stallq[..writeIndex] + q0[k..]))
        invariant writeIndex > 0 ==> credits == 0
        invariant steps == before + unstalled && AllUnstalled(unstalled) && |unstalled| == k - writeIndex
        invariant stallq[..writeIndex] + q0[k..] == q0[|unstalled|..]
      {
        var i := stallq[k];
        Compaction(stallq, q0, writeIndex, k);
        if credits > 0 {
          ghost var bypass;
          steps, bypass := KickStalledHead(i, w, steps, q0[k + 1..]);
          AppendAssoc(before, unstalled, [Unstalled(bypass)]);
          unstalled := unstalled + [Unstalled(bypass)];
        } else {
          stallq := stallq[writeIndex := i];
          writeIndex := writeIndex + 1;
        }
        k := k + 1;
      }
      assert stallq[..writeIndex] + q0[k..] == stallq[..writeIndex];
      stallq := stallq[..writeIndex];
    }

    /** The event loop goes to its next stage. */
    ghost method MoveOn(w: World, before: seq<Step>) returns (steps: seq<Step>)
      requires Led(w, before, Here())
      requires stage.Unstall? ==> stallq == [] || credits == 0
      requires stage.Flush? ==> batch == []
      modifies this`stage
      ensures Led(w, steps, Here()) && stage == AfterStage(old(stage)) && steps == before + [NextStage]
    {
      hide SessionSteps.Led, Session.Next, Session.Enabled;
      StageIs(w, before, Here());
      LedStep(w, before, Here(), NextStage);
      stage := AfterStage(stage);
      steps := before + [NextStage];
    }

    /** One turn of `process_wheel_st`. */
    method ReapFront()
      requires WellSized(State()) && wheel != [] && wheel[0].slot < slots.Length
      requires slots[wheel[0].slot].tx.Some? && slots[wheel[0].slot].wheelCount > 0
      modifies this`wheel, this`batch, slots
      ensures State() == ReapOne(old(State()), 0)
    {
      var e := wheel[0];
      var i := e.slot;
      var c := slots[i];
      if e.item < ReqPkts(c.tx.value) {
        batch := batch + [Tagged(i, ReqRef(e.item))];
      } else {
        batch := batch + [Tagged(i, Ctl(RFR(c.respHdr, c.numTx)))];
      }
      slots[i] := c.(wheelCount := c.wheelCount - 1, inWheel := c.inWheel[CreditIdx(e.item) := false]);
      wheel := wheel[1..];
    }

    /** `process_wheel_st`: the packets in the ready queue, which are the first `numReady` of the wheel's. */
    method ProcessWheel(numReady: nat, ghost w: World, ghost before: seq<Step>) returns (ghost steps: seq<Step>)
      requires Led(w, before, Here()) && stage == Reap && numReady <= |wheel|
      modifies this`wheel, this`batch, slots
      ensures Led(w, steps, Here()) && steps == before + Reaps(numReady)
      ensures wheel == old(wheel)[numReady..]
    {
      hide SessionSteps.Led, Session.Next, Session.Enabled;
      steps := before;
      assert steps == before + Reaps(0);
      for i := 0 to numReady
        invariant Led(w, steps, Here()) && steps == before + Reaps(i)
        invariant wheel == old(wheel)[i..]
      {
        ReapedIsReap(w, steps, Here());
        LedStep(w, steps, Here(), Reaped(0));
        ReapFront();
        OneMore(before, i, 0);
        steps := steps + [Reaped(0)];
      }
    }

    /** `do_tx_burst_st` */
    method DoTxBurst(ghost w: World, ghost before: seq<Step>) returns (ghost steps: seq<Step>)
      requires Led(w, before, Here())
      modifies this`batch, this`net
      ensures Led(w, steps, Here()) && steps == before + Bursts(old(|batch|))
      ensures batch == []
    {
      hide SessionSteps.Led, Session.Enabled;
      steps := before;
      assert steps == before + Bursts(0);
      while |batch| > 0
        invariant Led(w, steps, Here()) && |batch| <= old(|batch|) && steps == before + Bursts(old(|batch|) - |batch|)
        decreases |batch|
      {
        BurstEnabled(w, steps, Here());
        LedStep(w, steps, Here(), ClientBurst);
        OneMore(before, 0, old(|batch|) - |batch|);
        net := Transmit(net, ClientEmit(State(), batch[0]));
        batch := batch[1..];
        steps := steps + [ClientBurst];
      }
    }

    /** `pkt_loss_retransmit_st` */
    method PktLossRetransmit(i: nat) returns (ghost bypass: bool)
      requires WellSized(State()) && i < slots.Length && LossAsserts(State(), i)
      modifies this`credits, this`wheel, this`batch, this`stage, slots
      ensures State() == Retransmit(old(State()), i, bypass)
    {
      bypass := true;
      stage := Flush;
      var delta := slots[i].numTx - slots[i].numRx;
      if delta == 0 || slots[i].wheelCount > 0 { return; }
      credits := credits + delta;
      slots[i] := slots[i].(numTx := slots[i].numRx, progress := tsc);
      if ReqPending(slots[i]) {
        bypass := CanBypass(i);
        KickReq(i);
      } else {
        KickRfr(i);
      }
    }

    /** The loss scan's work on one slot: retransmit if it is past its timeout, and drain. */
    method ScanSlot(i: nat, ghost w: World, ghost before: seq<Step>)
      returns (ghost steps: seq<Step>, ghost scan: Scan)
      requires Led(w, before, Here()) && stage == Tail && i in active && i < slots.Length
      modifies this`credits, this`wheel, this`batch, this`stage, this`net, slots
      ensures Led(w, steps, Here()) && stage == Tail
      ensures scan.slot == i
      ensures if old(slots[i].numTx != slots[i].numRx && tsc - slots[i].progress > kRpcRto)
              then steps == AfterScan(before, scan) && batch == [] else steps == before && Here() == old(Here())
      ensures forall k | 0 <= k < slots.Length && k != i :: slots[k] == old(slots[k])
    {
      hide SessionSteps.Led, Session.Next, Session.Enabled, Datapath.Retransmit;
      steps, scan := before, Scan(i, true, 0);
      if slots[i].numTx != slots[i].numRx && tsc > slots[i].progress + kRpcRto {
        ghost var m := Here();
        LossIsRetransmit(w, steps, m, i);
        ghost var bypass := PktLossRetransmit(i);
        RetransmitFrame(m.c, i, bypass);
        LedStep(w, steps, m, LossDetected(i, bypass));
        scan := Scan(i, bypass, |batch|);
        steps := DoTxBurst(w, steps + [LossDetected(i, bypass)]);
        steps := MoveOn(w, steps);
      }
    }

    /** `process_comps_st`: handle a burst of received packets. `ok` says whether all their assertions held. */
    method ProcessComps(rx: seq<Pkt>, ghost w: World, ghost before: seq<Step>)
      returns (ok: bool, ghost steps: seq<Step>, ghost received: seq<Step>)
      requires Led(w, before, Here()) && stage == LoopStage.Receive && |net| == kSessionReqWindow
      requires forall k | 0 <= k < |rx| :: (rx[k].CR? || rx[k].Resp?) && rx[k] in net[SlotOf(rx[k].num)]
      requires Linked(links, active)
      modifies this`credits, this`freeVec, this`backlog, this`stallq, this`active, this`links, this`wheel,
               this`batch, this`started
      modifies slots
      ensures Led(w, steps, Here()) && steps == before + received && AllReceived(received, rx)
      ensures Linked(links, active) && ok == AllFit(rx)
    {
      hide SessionSteps.Led, Asserts.AssertsHold, Linked;
      ok, steps, received := true, before, [];
      for k := 0 to |rx|
        invariant Led(w, steps, Here()) && steps == before + received && AllReceived(received, rx[..k])
        invariant Linked(links, active) && ok == AllFit(rx[..k])
      {
        var one; ghost var bypass;
        one, steps, bypass := ReceiveOne(rx[k], w, steps);
        ok := ok && one;
        AppendAssoc(before, received, [ClientRx(rx[k], bypass)]);
        received := received + [ClientRx(rx[k], bypass)];
      }
      assert rx[..|rx|] == rx;
    }

    method ReceiveOne(p: Pkt, ghost w: World, ghost before: seq<Step>)
      returns (ok: bool, ghost steps: seq<Step>, ghost bypass: bool)
      requires Led(w, before, Here()) && stage == LoopStage.Receive && |net| == kSessionReqWindow
      requires (p.CR? || p.Resp?) && p in net[SlotOf(p.num)] && Linked(links, active)
      modifies this`credits, this`freeVec, this`backlog, this`stallq, this`active, this`links, this`wheel,
               this`batch, this`started
      modifies slots
      ensures Led(w, steps, Here()) && steps == before + [ClientRx(p, bypass)]
      ensures Linked(links, active) && ok == (MsgSize(p) <= maxMsgSize)
      ensures SizedWorld(old(Here())) && Enabled(old(Here()), ClientRx(p, bypass))
      ensures ok == AssertsHold(old(Here()), ClientRx(p, bypass))
    {
      hide SessionSteps.Led, ProtocolAsserts, Linked;
      ghost var m := Here();
      RxEnabled(w, before, m, p);
      ok, bypass := Receive(p);
      LedStep(w, before, m, ClientRx(p, bypass));
      steps := before + [ClientRx(p, bypass)];
    }

    /** Requests that background threads queued: `process_bg_queues_enqueue_request_st`. */
    method ProcessBgRequests(reqs: seq<Args>, ghost w: World, ghost before: seq<Step>)
      returns (ghost steps: seq<Step>, ghost enqueued: seq<Step>)
      requires Led(w, before, Here()) && stage == Tail && Linked(links, active)
      modifies this`credits, this`freeVec, this`backlog, this`stallq, this`active, this`links, this`wheel,
               this`batch, this`started
      modifies this`calls, slots
      ensures Led(w, steps, Here()) && steps == before + enqueued && AllEnqueued(enqueued, reqs)
      ensures calls == old(calls) + reqs && Linked(links, active)
    {
      hide SessionSteps.Led, Session.Next, Session.Enabled, Linked;
      steps, enqueued := before, [];
      for k := 0 to |reqs|
        invariant Led(w, steps, Here()) && steps == before + enqueued && AllEnqueued(enqueued, reqs[..k])
        invariant calls == old(calls) + reqs[..k] && Linked(links, active)
      {
        ghost var m := Here();
        EnqueueEnabled(w, steps, m, reqs[k]);
        ghost var bypass := Enqueue(reqs[k]);
        EnqueueCalls(m, reqs[k], bypass);
        LedStep(w, steps, m, Step.Enqueue(reqs[k], bypass));
        steps := steps + [Step.Enqueue(reqs[k], bypass)];
        AppendAssoc(before, enqueued, [Step.Enqueue(reqs[k], bypass)]);
        enqueued := enqueued + [Step.Enqueue(reqs[k], bypass)];
      }
      assert reqs[..|reqs|] == reqs;
    }

    /** `run_event_loop_do_one_st` at the client: one turn is a run of the session's state machine, with the steps of
        its stages in order. The scan is done when the last one was long enough ago. */
    method RunEventLoopDoOne(now: nat, rx: seq<Pkt>, numReady: nat, bgReqs: seq<Args>,
                             ghost w: World, ghost before: seq<Step>)
      returns (ok: bool, ghost steps: seq<Step>, ghost turn: Turn)
      requires Led(w, before, Here()) && stage == LoopStage.Receive && tsc <= now && |net| == kSessionReqWindow
      requires pktLossScanTsc <= tsc && Linked(links, active)
      requires forall k | 0 <= k < |rx| :: (rx[k].CR? || rx[k].Resp?) && rx[k] in net[SlotOf(rx[k].num)]
      modifies this, slots
      ensures Led(w, steps, Here()) && stage == LoopStage.Receive && tsc == now && pktLossScanTsc <= tsc
      ensures Linked(links, active) && ok == AllFit(rx)
      ensures steps == AfterTurn(before, now, turn)
      ensures AllReceived(turn.received, rx) && AllUnstalled(turn.unstalled) && turn.reaped <= numReady
      ensures AllEnqueued(turn.enqueued, bgReqs)
      ensures pktLossScanTsc == if now - old(pktLossScanTsc) > kPktLossScanCycles then now else old(pktLossScanTsc)
      ensures Led(w, UpToScan(before, now, turn), turn.atScan)
      ensures if now - old(pktLossScanTsc) > kPktLossScanCycles
              then ScansDue(turn.atScan.c, turn.atScan.c.active, turn.scans) else turn.scans == []
      ensures forall i | i in turn.atScan.c.active && i < |turn.atScan.c.slots| ::
                LossIn(steps, |UpToScan(before, now, turn)|, i) <==>
                && now - old(pktLossScanTsc) > kPktLossScanCycles
                && turn.atScan.c.slots[i].numTx != turn.atScan.c.slots[i].numRx
                && now - turn.atScan.c.slots[i].progress > kRpcRto
    {
      hide SessionSteps.Led, Session.Next, Session.Enabled, Messages.SlotOf;
      hide AllReceived, AllEnqueued, AllUnstalled, AfterTransmit, AfterScans, ScansDue, Linked, AllFit;
      steps := StampClock(now, w, before);
      ghost var received, unstalled, reaped, sent, enqueued, atScan, scans;
      ok, steps, received := ProcessComps(rx, w, steps);
      steps, unstalled, reaped, sent := TransmitStages(numReady, w, steps);
      steps, enqueued, atScan, scans := TailStage(bgReqs, w, steps);
      turn := Turn(received, unstalled, reaped, sent, enqueued, atScan, scans);
    }

    /** The rest of the event loop: background requests and, if the last one was long enough ago, a loss scan. */
    method TailStage(bgReqs: seq<Args>, ghost w: World, ghost before: seq<Step>)
      returns (ghost steps: seq<Step>, ghost enqueued: seq<Step>, ghost atScan: World, ghost scans: seq<Scan>)
      requires Led(w, before, Here()) && stage == Tail && pktLossScanTsc <= tsc && Linked(links, active)
      modifies this`credits, this`freeVec, this`backlog, this`stallq, this`active, this`links, this`wheel,
               this`batch, this`started
      modifies this`calls, this`stage, this`net, this`pktLossScanTsc, slots
      ensures Led(w, steps, Here()) && stage == LoopStage.Receive && Linked(links, active)
      ensures Led(w, before + enqueued, atScan) && AllEnqueued(enqueued, bgReqs)
      ensures steps == AfterScans(before + enqueued, scans) + [NextStage]
      ensures pktLossScanTsc == if tsc - old(pktLossScanTsc) > kPktLossScanCycles then tsc else old(pktLossScanTsc)
      ensures if tsc - old(pktLossScanTsc) > kPktLossScanCycles then ScansDue(atScan.c, atScan.c.active, scans)
              else scans == []
      ensures forall i | i in atScan.c.active && i < |atScan.c.slots| ::
                LossIn(steps, |before + enqueued|, i) <==>
                && tsc - old(pktLossScanTsc) > kPktLossScanCycles
                && atScan.c.slots[i].numTx != atScan.c.slots[i].numRx
                && tsc - atScan.c.slots[i].progress > kRpcRto
    {
      hide SessionSteps.Led, Session.Next, Session.Enabled, AllEnqueued, AfterScans, ScansDue, Linked;
      steps, enqueued := ProcessBgRequests(bgReqs, w, before);
      atScan, scans := Here(), [];
      ScansNone(State(), active, steps);
      if tsc - pktLossScanTsc > kPktLossScanCycles {
        pktLossScanTsc := tsc;
        steps, scans := PktLossScan(w, steps);
      }
      forall i | i in atScan.c.active && i < |atScan.c.slots|
        ensures LossIn(steps + [NextStage], |before + enqueued|, i) <==>
                && tsc - old(pktLossScanTsc) > kPktLossScanCycles
                && atScan.c.slots[i].numTx != atScan.c.slots[i].numRx
                && tsc - atScan.c.slots[i].progress > kRpcRto
      {
        if scans == [] { NoneDetected(before + enqueued, i); }
        if tsc - old(pktLossScanTsc) > kPktLossScanCycles {
          DueDetected(atScan.c, atScan.c.active, before + enqueued, scans, i);
        }
      }
      steps := MoveOn(w, steps);
    }

    method StampClock(now: nat, ghost w: World, ghost before: seq<Step>) returns (ghost steps: seq<Step>)
      requires Led(w, before, Here()) && stage == LoopStage.Receive && tsc <= now
      modifies this`tsc
      ensures Led(w, steps, Here()) && tsc == now && steps == before + [Tick(now)]
    {
      hide SessionSteps.Led, Session.Next, Session.Enabled;
      TickEnabled(w, before, Here(), now);
      LedStep(w, before, Here(), Tick(now));
      tsc := now;
      steps := before + [Tick(now)];
    }

    /** The transmit half of the event loop: stalled slots, the wheel, and the TX batch, which ends up empty. */
    method TransmitStages(numReady: nat, ghost w: World, ghost before: seq<Step>)
      returns (ghost steps: seq<Step>, ghost unstalled: seq<Step>, ghost reaped: nat, ghost sent: nat)
      requires Led(w, before, Here()) && stage == LoopStage.Receive
      modifies this`credits, this`stallq, this`wheel, this`batch, this`stage, this`net, slots
      ensures Led(w, steps, Here()) && stage == Tail && batch == []
      ensures steps == AfterTransmit(before, unstalled, reaped, sent) && AllUnstalled(unstalled)
      ensures reaped <= numReady && (reaped < numReady ==> wheel == []) && (stallq == [] || credits == 0)
    {
      hide SessionSteps.Led, Session.Next, Session.Enabled, AllUnstalled, Reaps, Bursts;
      steps := MoveOn(w, before);
      steps, unstalled := ProcessCreditStallQueue(w, steps);
      steps := MoveOn(w, steps);
      steps, reaped, sent := ReapAndFlush(numReady, w, steps);
    }

    method ReapAndFlush(numReady: nat, ghost w: World, ghost before: seq<Step>)
      returns (ghost steps: seq<Step>, ghost reaped: nat, ghost sent: nat)
      requires Led(w, before, Here()) && stage == Reap
      modifies this`wheel, this`batch, this`stage, this`net, slots
      ensures Led(w, steps, Here()) && stage == Tail && batch == []
      ensures steps == before + Reaps(reaped) + [NextStage] + Bursts(sent) + [NextStage]
      ensures reaped <= numReady && (reaped < numReady ==> wheel == [])
    {
      hide SessionSteps.Led, Session.Next, Session.Enabled, Reaps, Bursts;
      var n := if numReady <= |wheel| then numReady else |wheel|;
      steps := ProcessWheel(n, w, before);
      steps := MoveOn(w, steps);
      reaped, sent := n, |batch|;
      steps := DoTxBurst(w, steps);
      steps := MoveOn(w, steps);
    }

    /** The first `k` slots of the list have been looked at. */
    ghost predicate Scanned(w: World, before: seq<Step>, steps: seq<Step>, scans: seq<Scan>, s0: Client, k: nat)
      reads this, slots
    {
      && Led(w, steps, Here()) && stage == Tail && steps == AfterScans(before, scans)
      && k <= |active| && ScansDue(s0, active[..k], scans) && (scans != [] ==> batch == [])
      && Untouched(State(), s0, active, k)
    }

    /** The loss scan looks at one slot and moves on along the links. */
    method ScanNext(cur: nat, ghost w: World, ghost before: seq<Step>, ghost was: seq<Step>, ghost done: seq<Scan>,
                    ghost s0: Client, ghost k: nat)
      returns (next: nat, ghost steps: seq<Step>, ghost scans: seq<Scan>)
      requires Scanned(w, before, was, done, s0, k) && Linked(links, active)
      requires k <= |active| && cur == Ring(active)[k + 1] != tail
      modifies this`credits, this`wheel, this`batch, this`stage, this`net, slots
      ensures k < |active| && Scanned(w, before, steps, scans, s0, k + 1) && next == Ring(active)[k + 2]
    {
      hide SessionSteps.Led, Due, AfterScan, AfterScans, ScansDue, Linked, LossIn, Untouched, Sequences.Distinct;
      OnActive(links, active, k);
      ActiveDistinct(w, was, Here());
      ActiveInRange(w, was, Here(), active[k]);
      ghost var s := State();
      ghost var scan;
      steps, scan := ScanSlot(cur, w, was);
      StillUntouched(s, State(), s0, active, k);
      ScansMore(s0, active, k, before, done, scan);
      scans := if TimedOut(s0, active[k]) then done + [scan] else done;
      next := links.next[cur];
    }

    /** The datapath part of `pkt_loss_scan_st`, along the links: every active request past its timeout is
        retransmitted, and each retransmission is drained before the next slot is looked at. */
    method PktLossScan(ghost w: World, ghost before: seq<Step>)
      returns (ghost steps: seq<Step>, ghost scans: seq<Scan>)
      requires Led(w, before, Here()) && stage == Tail && Linked(links, active)
      modifies this`credits, this`wheel, this`batch, this`stage, this`net, slots
      ensures Led(w, steps, Here()) && stage == Tail && steps == AfterScans(before, scans)
      ensures ScansDue(old(State()), active, scans)
      ensures forall i | i in active && i < slots.Length ::
                LossIn(steps, |before|, i) <==>
                old(slots[i].numTx != slots[i].numRx && tsc - slots[i].progress > kRpcRto)
      ensures scans != [] ==> batch == []
    {
      hide SessionSteps.Led, Due, AfterScan, AfterScans, ScansDue, Linked, LossIn, Untouched, Sequences.Distinct;
      steps, scans := before, [];
      ghost var s0 := State();
      ActiveDistinct(w, before, Here());
      ScansNone(s0, active, before);
      NoneTouched(s0, active);
      LinksAt(links, active, 0);
      var cur := links.next[root];
      ghost var k := 0;
      while cur != tail
        invariant k <= |active| && cur == Ring(active)[k + 1] && Scanned(w, before, steps, scans, s0, k)
        decreases |active| - k
      {
        cur, steps, scans := ScanNext(cur, w, before, steps, scans, s0, k);
        k := k + 1;
      }
      OnTail(links, active, k);
      assert active[..|active|] == active;
      AllDetected(s0, active, before, scans);
    }
  }

  lemma {:induction false} StageIs(w: World, steps: seq<Step>, m: World)
    requires Led(w, steps, m)
    requires m.c.stage.Unstall? ==> m.c.stallq == [] || m.c.credits == 0
    requires m.c.stage.Flush? ==> m.c.batch == []
    ensures SizedWorld(m) && Enabled(m, NextStage)
    ensures Next(m, NextStage) == m.(c := m.c.(stage := AfterStage(m.c.stage)))
  {
  }

  lemma {:induction false} ReapedIsReap(w: World, steps: seq<Step>, m: World)
    requires Led(w, steps, m) && m.c.wheel != [] && m.c.stage == Reap
    ensures SizedWorld(m) && Enabled(m, Reaped(0)) && ReapAsserts(m.c, 0)
    ensures Next(m, Reaped(0)) == m.(c := ReapOne(m.c, 0))
  {
    hide SessionInvariant.SessionInv;
    ReapAssertsOk(m, 0);
  }

  lemma {:induction false} BurstEnabled(w: World, steps: seq<Step>, m: World)
    requires Led(w, steps, m) && m.c.batch != []
    ensures SizedWorld(m) && Enabled(m, ClientBurst)
  {
  }

  lemma {:induction false} RxEnabled(w: World, steps: seq<Step>, m: World, p: Pkt)
    requires Led(w, steps, m) && m.c.stage.Receive? && |m.net| == kSessionReqWindow
    requires (p.CR? || p.Resp?) && p in m.net[SlotOf(p.num)]
    ensures SizedWorld(m)
    ensures forall bypass :: Enabled(m, ClientRx(p, bypass)) && ProtocolAsserts(m, ClientRx(p, bypass))
    ensures InOrder(m.c.slots[SlotOf(p.num)], p) ==> SlotOf(p.num) in m.c.active
  {
    hide SessionInvariant.SessionInv, ProtocolAsserts;
    AssertsFromInvariant(m, ClientRx(p, true));
    AssertsFromInvariant(m, ClientRx(p, false));
    if InOrder(m.c.slots[SlotOf(p.num)], p) { InOrderActive(m, p); }
  }

  lemma {:induction false} InOrderActive(m: World, p: Pkt)
    requires SizedWorld(m) && SessionInv(m) && InOrder(m.c.slots[SlotOf(p.num)], p)
    ensures SlotOf(p.num) in m.c.active
  {
    hide SlotInvariant.SlotInv;
    SlotBounds(SlotOf(p.num), ViewOf(m, SlotOf(p.num)));
  }

  lemma {:induction false} EnqueueEnabled(w: World, steps: seq<Step>, m: World, a: Args)
    requires Led(w, steps, m) && m.c.stage != Flush
    ensures SizedWorld(m) && EnqueueAsserts(m.c)
    ensures m.c.freeVec != [] ==> m.c.freeVec[|m.c.freeVec| - 1] !in m.c.active
    ensures forall bypass :: Enabled(m, Step.Enqueue(a, bypass))
  {
    AssertsFromInvariant(m, Step.Enqueue(a, true));
  }

  lemma {:induction false} EnqueueCalls(m: World, a: Args, bypass: bool)
    requires SizedWorld(m) && Enabled(m, Step.Enqueue(a, bypass))
    ensures Next(m, Step.Enqueue(a, bypass)).c.calls == m.c.calls + [a]
  {
  }

  lemma {:induction false} OneMore(before: seq<Step>, reaped: nat, sent: nat)
    ensures before + Reaps(reaped) + [Reaped(0)] == before + Reaps(reaped + 1)
    ensures before + Bursts(sent) + [ClientBurst] == before + Bursts(sent + 1)
  {
    assert Reaps(reaped) + [Reaped(0)] == Reaps(reaped + 1);
    assert Bursts(sent) + [ClientBurst] == Bursts(sent + 1);
  }

  lemma {:induction false} RetransmitFrame(s: Client, i: nat, bypass: bool)
    requires WellSized(s) && i < |s.slots|
    ensures var r := Retransmit(s, i, bypass);
            |r.slots| == |s.slots| && forall k | 0 <= k < |s.slots| && k != i :: r.slots[k] == s.slots[k]
  {
  }

  lemma {:induction false} ActiveDistinct(w: World, steps: seq<Step>, m: World)
    requires Led(w, steps, m)
    ensures Distinct(m.c.active)
  {
  }

  lemma {:induction false} TickEnabled(w: World, steps: seq<Step>, m: World, t: nat)
    requires Led(w, steps, m) && m.c.stage.Receive? && m.c.tsc <= t
    ensures SizedWorld(m) && Enabled(m, Tick(t)) && Next(m, Tick(t)) == m.(c := m.c.(tsc := t))
  {
  }

  lemma {:induction false} ActiveInRange(w: World, steps: seq<Step>, m: World, i: nat)
    requires Led(w, steps, m) && i in m.c.active
    ensures SizedWorld(m) && i < |m.c.slots|
  {
  }

  lemma {:induction false} LossIsRetransmit(w: World, steps: seq<Step>, m: World, i: nat)
    requires Led(w, steps, m) && i in m.c.active && m.c.stage == Tail
    ensures SizedWorld(m) && i < |m.c.slots| && LossAsserts(m.c, i)
    ensures m.c.slots[i].numTx != m.c.slots[i].numRx && m.c.tsc > m.c.slots[i].progress + kRpcRto ==>
              forall bypass :: Enabled(m, LossDetected(i, bypass)) &&
                Next(m, LossDetected(i, bypass)) == m.(c := Retransmit(m.c, i, bypass))
  {
    ActiveInRange(w, steps, m, i);
    LossAssertsOk(m, i);
  }

  /** Keeping entry `k` at index `w` preserves what the compacted queue stands for; so does dropping it from the
      front. */
  lemma {:induction false} Compaction(q: seq<nat>, q0: seq<nat>, w: nat, k: nat)
    requires w <= k < |q| == |q0| && q[k..] == q0[k..]
    ensures q[k] == q0[k]
    ensures q[w := q[k]][..w + 1] + q0[k + 1..] == q[..w] + q0[k..]
    ensures q[w := q[k]][k + 1..] == q0[k + 1..] == q[k + 1..]
    ensures w == 0 ==> q[..w] + q0[k..] == [q[k]] + q0[k + 1..] && q[..w] + q0[k + 1..] == q0[k + 1..]
  {
    assert q[k] == q[k..][0] && q0[k] == q0[k..][0];
    assert q[k + 1..] == q[k..][1..] && q0[k + 1..] == q0[k..][1..];
  }

  lemma {:induction false} UnstalledIsKick(w: World, steps: seq<Step>, m: World, bypass: bool)
    requires Led(w, steps, m) && m.c.stallq != [] && m.c.credits > 0 && m.c.stage == Unstall
    ensures SizedWorld(m) && Enabled(m, Unstalled(bypass))
    ensures var i := m.c.stallq[0];
            var s := m.c.(stallq := m.c.stallq[1..]);
            && i < |s.slots| && s.slots[i].tx.Some? && ReqPending(s.slots[i])
            && Next(m, Unstalled(bypass)) == m.(c := Datapath.KickReq(s, i, bypass))
  {
    StallHead(w, steps, m);
  }

  /** A stalled slot has request packets to send. */
  lemma {:induction false} StallHead(w: World, steps: seq<Step>, m: World)
    requires Led(w, steps, m) && m.c.stallq != []
    ensures SizedWorld(m)
    ensures m.c.stallq[0] < kSessionReqWindow
    ensures m.c.slots[m.c.stallq[0]].tx.Some? && ReqPending(m.c.slots[m.c.stallq[0]])
  {
  }
}
