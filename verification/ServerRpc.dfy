/**
 * The server endpoint as an object: packet handlers and `enqueue_response`
 * update its slots in place, and each is one step of the session's state machine.
 */
module ServerRpc {
  import opened Options
  import opened Arith
  import opened Messages
  import opened Datapath
  import opened Session
  import opened SlotInvariant
  import opened SessionInvariant
  import opened SessionSteps
  import opened Asserts
  import opened MsgBuffers

  function Bursts(n: nat): seq<Step> { seq(n, _ => ServerBurst) }

  lemma {:induction false} OneMore(before: seq<Step>, n: nat)
    ensures before + Bursts(n) + [ServerBurst] == before + Bursts(n + 1)
  {
    assert Bursts(n) + [ServerBurst] == Bursts(n + 1);
  }

  /** What the server can receive: requests-for-response, and request packets with the memory that the allocator gives
      for one, if it gives any. */
  predicate Arrives(p: Pkt, mem: Option<Bytes>) {
    p.RFR? || (p.Req? && (mem.Some? ==> |mem.value| == p.size))
  }

  /** A packet that was received: how many batch items its drain sent, and the world that it found. */
  datatype Rx = Rx(pkt: Pkt, mem: Option<Bytes>, sent: nat, at: World)

  function AfterPkt(before: seq<Step>, r: Rx): seq<Step> {
    before + [ServerRx(r.pkt, r.mem)] + Bursts(r.sent)
  }

  function AfterPkts(before: seq<Step>, done: seq<Rx>): seq<Step> {
    if done == [] then before else AfterPkt(AfterPkts(before, done[..|done| - 1]), done[|done| - 1])
  }

  predicate AssertsMet(r: Rx) {
    SizedWorld(r.at) && Enabled(r.at, ServerRx(r.pkt, r.mem)) && AssertsHold(r.at, ServerRx(r.pkt, r.mem))
  }

  predicate AllMet(done: seq<Rx>) {
    forall k | 0 <= k < |done| :: AssertsMet(done[k])
  }

  /** These packets were received so far, each in the world that the steps before it led to. */
  ghost predicate Traced(w: World, before: seq<Step>, rx: seq<(Pkt, Option<Bytes>)>, done: seq<Rx>) {
    |done| <= |rx| &&
    forall k | 0 <= k < |done| ::
      done[k].pkt == rx[k].0 && done[k].mem == rx[k].1 && Led(w, AfterPkts(before, done[..k]), done[k].at)
  }

  lemma {:induction false} TraceMore(w: World, before: seq<Step>, rx: seq<(Pkt, Option<Bytes>)>, done: seq<Rx>, r: Rx)
    requires Traced(w, before, rx, done) && |done| < |rx| && r.pkt == rx[|done|].0 && r.mem == rx[|done|].1
    requires Led(w, AfterPkts(before, done), r.at)
    ensures Traced(w, before, rx, done + [r])
    ensures AfterPkts(before, done + [r]) == AfterPkt(AfterPkts(before, done), r)
    ensures AllMet(done + [r]) <==> AllMet(done) && AssertsMet(r)
  {
    hide SessionSteps.Led, AfterPkt, AssertsMet;
    var more := done + [r];
    assert more[..|done|] == done && more[|done|] == r;
    forall k | 0 <= k < |more|
      ensures more[k].pkt == rx[k].0 && more[k].mem == rx[k].1 && Led(w, AfterPkts(before, more[..k]), more[k].at)
    {
      if k < |done| { assert more[..k] == done[..k]; }
    }
    assert AllMet(more) ==> AssertsMet(more[|done|]);
    assert AllMet(more) ==> forall k | 0 <= k < |done| :: AssertsMet(more[k]) && more[k] == done[k];
  }

  lemma {:induction false} TraceNone(w: World, before: seq<Step>, rx: seq<(Pkt, Option<Bytes>)>)
    ensures Traced(w, before, rx, []) && AfterPkts(before, []) == before && AllMet([])
  {
  }

  /** The wire only gains packets. */
  ghost predicate GrownNet(a: seq<set<Pkt>>, b: seq<set<Pkt>>) {
    |b| == |a| && forall l | 0 <= l < |a| :: a[l] <= b[l]
  }

  class Endpoint {
    const slots: array<ServerSlot>
    var batch: seq<Tagged<ServerItem>>
    var flushing: bool                       // A handler has asked for the batch to be drained
    // What the model adds
    ghost var client: Client
    ghost var net: seq<set<Pkt>>

    ghost function State(): Server
      reads this, slots
    {
      Server(slots[..], batch, flushing)
    }

    ghost function Here(): World
      reads this, slots
    {
      World(client, State(), net)
    }

    /** The server's part of the `Session` constructor. */
    constructor ()
      ensures Here() == Init()
    {
      slots := new ServerSlot[kSessionReqWindow];
      batch, flushing, client, net := [], false, Init().c, Init().net;
      new;
      for i := 0 to kSessionReqWindow
        invariant forall k | 0 <= k < i :: slots[k] == InitialServerSlot(k)
        invariant batch == [] && !flushing && client == Init().c && net == Init().net
      {
        slots[i] := InitialServerSlot(i);
      }
      assert slots[..] == Init().s.slots;
    }

    /** What handling a packet on slot `i` must leave behind. */
    twostate predicate Became(i: nat, o: Served)
      reads this, slots
    {
      && i < slots.Length
      && slots[..] == old(slots[..])[i := o.v]
      && batch == old(batch) + At(i, o.items)
      && flushing == o.drain
    }

    /** Send a packet of the slot's response again; the batch is then drained. */
    method Resend(i: nat, pktIdx: nat)
      modifies this`batch, this`flushing
      ensures batch == old(batch) + At(i, [RespRef(pktIdx)]) && flushing
    {
      batch := batch + [Tagged(i, RespRef(pktIdx))];
      flushing := true;
    }

    /** `process_small_req_st`. `ok` says whether its assertions held. */
    method ProcessSmallReq(i: nat, p: Pkt, mem: Option<Bytes>) returns (ok: bool)
      requires i < slots.Length && p.Req? && p.size <= kMaxDataPerPkt && !flushing && ServerRxAsserts(slots[i], p)
      modifies this`batch, this`flushing, slots
      ensures Became(i, ServerReceive(old(slots[i]), p, mem)) && ok == AllocAsserts(old(slots[i]), p, mem)
    {
      ok := true;
      if p.num <= slots[i].cur {
        if p.num < slots[i].cur { return; }
        if slots[i].tx.Some? { Resend(i, 0); }
        return;
      }
      if p.typ in backgroundTypes || !kZeroCopyRX {
        ok := p.size >= 1 && mem.Some?;
        if mem.None? { return; }               // A null buffer
      }
      slots[i] := slots[i].(tx := None);       // bury_resp_msgbuf_server_st
      slots[i] := slots[i].(cur := p.num, numRx := 1);
      slots[i] := slots[i].(reqType := Some(p.typ), reqBuf := Some(p.data),
                            execs := slots[i].execs + [Exec(p.num, p.typ, p.data)]);
    }

    /** `process_large_req_one_st`. `ok` says whether its assertions held. */
    method ProcessLargeReq(i: nat, p: Pkt, mem: Option<Bytes>) returns (ok: bool)
      requires i < slots.Length && p.Req? && p.size > kMaxDataPerPkt && !flushing && ServerRxAsserts(slots[i], p)
      modifies this`batch, this`flushing, slots
      ensures Became(i, ServerReceive(old(slots[i]), p, mem)) && ok == AllocAsserts(old(slots[i]), p, mem)
    {
      ok := true;
      var v := slots[i];
      var isNextPktSameReq := p.num == v.cur && p.pkt == v.numRx;
      var isFirstPktNextReq := p.num == v.cur + kSessionReqWindow && p.pkt == 0;
      if !isNextPktSameReq && !isFirstPktNextReq {
        if p.num != v.cur || p.pkt > v.numRx { return; }
        if p.pkt != NumPkts(p.size) - 1 {
          batch := batch + [Tagged(i, SCtl(CR(p.num, p.pkt)))];
          return;
        }
        if v.tx.Some? { Resend(i, 0); }
        return;
      }
      if p.pkt == 0 {
        if mem.None? { return false; }         // The assertion on the buffer
        slots[i] := v.(tx := None, cur := p.num, numRx := 1, reqBuf := mem);
      } else {
        slots[i] := v.(numRx := v.numRx + 1);
      }
      StorePkt(i, p);
    }

    /** The rest of `process_large_req_one_st`: return the credit, copy the data, and invoke the handler when
        all packets are there. */
    method StorePkt(i: nat, p: Pkt)
      requires i < slots.Length && p.Req? && slots[i].reqBuf.Some?
      modifies this`batch, slots
      ensures var v := old(slots[i]);
              var n := NumPkts(|v.reqBuf.value|);
              var buf := CopyData(v.reqBuf.value, p.pkt, p.size, p.data);
              && slots[..] == old(slots[..])[i :=
                   if v.numRx != n then v.(reqBuf := Some(buf)) else Invoked(v.(reqBuf := Some(buf)), p.typ, buf)]
              && batch == old(batch) + At(i, if p.pkt != n - 1 then [SCtl(CR(p.num, p.pkt))] else [])
    {
      var buf := slots[i].reqBuf.value;
      var numPkts := NumPkts(|buf|);
      if p.pkt != numPkts - 1 {
        batch := batch + [Tagged(i, SCtl(CR(p.num, p.pkt)))];
      }
      buf := CopyData(buf, p.pkt, p.size, p.data);
      slots[i] := slots[i].(reqBuf := Some(buf));
      if slots[i].numRx != numPkts { return; }
      slots[i] := slots[i].(reqType := Some(p.typ),
                            execs := slots[i].execs + [Exec(slots[i].cur, p.typ, buf)]);
    }

    /** `process_rfr_st` */
    method ProcessRfr(i: nat, p: Pkt)
      requires i < slots.Length && p.RFR? && !flushing && ServerRxAsserts(slots[i], p)
      modifies this`batch, this`flushing, slots
      ensures Became(i, Datapath.ProcessRfr(old(slots[i]), p))
    {
      var v := slots[i];
      if p.num < v.cur || p.pkt > v.numRx { return; }
      if p.pkt != v.numRx {
        Resend(i, p.pkt - (v.savReqPkts - 1));
        return;
      }
      slots[i] := v.(numRx := v.numRx + 1);
      batch := batch + [Tagged(i, RespRef(p.pkt - (v.savReqPkts - 1)))];
    }

    /** The dispatch of `process_comps_st` at the server, with its assertion on the size. */
    method Receive(p: Pkt, mem: Option<Bytes>) returns (ok: bool)
      requires SizedWorld(Here()) && Enabled(Here(), ServerRx(p, mem)) && ProtocolAsserts(Here(), ServerRx(p, mem))
      modifies this`batch, this`flushing, slots
      ensures Here() == Next(old(Here()), ServerRx(p, mem))
      ensures ok == old(InputAsserts(Here(), ServerRx(p, mem)))
    {
      var i := SlotOf(p.num);
      if p.RFR? {
        ProcessRfr(i, p);
        ok := true;
      } else if p.size <= kMaxDataPerPkt {
        ok := ProcessSmallReq(i, p, mem);
      } else {
        ok := ProcessLargeReq(i, p, mem);
      }
      ok := ok && MsgSize(p) <= maxMsgSize;
    }

    /** `enqueue_response` */
    method EnqueueResponse(i: nat, d: Bytes, ghost w: World, ghost before: seq<Step>) returns (ghost steps: seq<Step>)
      requires Led(w, before, Here()) && SizedWorld(Here()) && Enabled(Here(), Respond(i, d))
      modifies this`batch, slots
      ensures Led(w, steps, Here()) && steps == before + [Respond(i, d)]
    {
      hide SessionSteps.Led;
      ghost var m := Here();
      LedStep(w, before, m, Respond(i, d));
      RespondFinds(w, before, m, i, d);
      slots[i] := slots[i].(savReqPkts := NumPkts(|slots[i].reqBuf.value|), reqBuf := None);
      slots[i] := slots[i].(tx := Some(d), reqType := None, resps := slots[i].resps[slots[i].cur := d]);
      batch := batch + [Tagged(i, RespRef(0))];
      assert slots[..] == m.s.slots[i := Responded(m.s.slots[i], d)] && batch == m.s.batch + At(i, [RespRef(0)]);
      assert Here() == Next(m, Respond(i, d));
      steps := before + [Respond(i, d)];
    }

    /** `do_tx_burst_st`, also as the end of `drain_tx_batch_and_dma_queue`. */
    method DoTxBurst(ghost w: World, ghost before: seq<Step>) returns (ghost steps: seq<Step>)
      requires Led(w, before, Here()) && (flushing ==> batch != [])
      modifies this`batch, this`net, this`flushing
      ensures Led(w, steps, Here()) && steps == before + Bursts(old(|batch|))
      ensures batch == [] && !flushing && GrownNet(old(net), net)
    {
      hide SessionSteps.Led, Session.Enabled;
      steps := before;
      assert steps == before + Bursts(0);
      while |batch| > 0
        invariant Led(w, steps, Here()) && (flushing ==> batch != []) && GrownNet(old(net), net)
        invariant |batch| <= old(|batch|) && steps == before + Bursts(old(|batch|) - |batch|)
        decreases |batch|
      {
        OneMore(before, old(|batch|) - |batch|);
        BurstEnabled(w, steps, Here());
        LedStep(w, steps, Here(), ServerBurst);
        net := Transmit(net, ServerEmit(State(), batch[0]));
        flushing := flushing && |batch| > 1;
        batch := batch[1..];
        steps := steps + [ServerBurst];
      }
    }

    /** Receive one packet and, if its handler drains the batch, drain it. `ok` says whether all assertions held. */
    method ReceiveOne(p: Pkt, mem: Option<Bytes>, ghost w: World, ghost before: seq<Step>)
      returns (ok: bool, ghost steps: seq<Step>, ghost sent: nat)
      requires Led(w, before, Here()) && SizedWorld(Here()) && Enabled(Here(), ServerRx(p, mem))
      modifies this`batch, this`flushing, this`net, slots
      ensures Led(w, steps, Here()) && !flushing && GrownNet(old(net), net)
      ensures steps == AfterPkt(before, Rx(p, mem, sent, old(Here()))) && (sent > 0 ==> batch == [])
      ensures sent > 0 <==> ServerReceive(old(slots[..])[SlotOf(p.num)], p, mem).drain
      ensures ok == AssertsHold(old(Here()), ServerRx(p, mem))
    {
      hide SessionSteps.Led, Session.Enabled, Session.Next, ProtocolAsserts, InputAsserts, Messages.SlotOf;
      ghost var m := Here();
      RxAsserts(w, before, m, p, mem);
      LedStep(w, before, m, ServerRx(p, mem));
      RxDrains(m, p, mem);
      ok := Receive(p, mem);
      steps := before + [ServerRx(p, mem)];
      sent := 0;
      assert steps == steps + Bursts(0);
      if flushing {
        sent := |batch|;
        steps := DoTxBurst(w, steps);
      }
    }

    /** `process_comps_st`: handle a burst of received packets. `ok` says whether all their assertions held. */
    method ProcessComps(rx: seq<(Pkt, Option<Bytes>)>, ghost w: World, ghost before: seq<Step>)
      returns (ok: bool, ghost steps: seq<Step>, ghost done: seq<Rx>)
      requires Led(w, before, Here()) && |net| == kSessionReqWindow && !flushing
      requires forall k | 0 <= k < |rx| :: Arrives(rx[k].0, rx[k].1) && rx[k].0 in net[SlotOf(rx[k].0.num)]
      modifies this`batch, this`flushing, this`net, slots
      ensures Led(w, steps, Here()) && !flushing
      ensures steps == AfterPkts(before, done) && |done| == |rx| && Traced(w, before, rx, done)
      ensures ok <==> AllMet(done)
    {
      hide SessionSteps.Led, Session.Enabled, AssertsHold, Messages.SlotOf, AfterPkt, AfterPkts, Traced, AllMet;
      ok, steps, done := true, before, [];
      TraceNone(w, before, rx);
      for k := 0 to |rx|
        invariant Led(w, steps, Here()) && !flushing && GrownNet(old(net), net)
        invariant steps == AfterPkts(before, done) && |done| == k && Traced(w, before, rx, done)
        invariant ok <==> AllMet(done)
      {
        ghost var m := Here();
        RxEnabled(w, steps, m, rx[k].0, rx[k].1);
        var one; ghost var sent;
        one, steps, sent := ReceiveOne(rx[k].0, rx[k].1, w, steps);
        ok := ok && one;
        ghost var r := Rx(rx[k].0, rx[k].1, sent, m);
        TraceMore(w, before, rx, done, r);
        done := done + [r];
      }
    }
  }

  lemma {:induction false} BurstEnabled(w: World, steps: seq<Step>, m: World)
    requires Led(w, steps, m) && m.s.batch != []
    ensures SizedWorld(m) && Enabled(m, ServerBurst)
  {
  }

  lemma {:induction false} RxAsserts(w: World, steps: seq<Step>, m: World, p: Pkt, mem: Option<Bytes>)
    requires Led(w, steps, m) && SizedWorld(m) && Enabled(m, ServerRx(p, mem))
    ensures ProtocolAsserts(m, ServerRx(p, mem))
  {
    hide SessionInvariant.SessionInv, ProtocolAsserts;
    AssertsFromInvariant(m, ServerRx(p, mem));
  }

  lemma {:induction false} RespondFinds(w: World, steps: seq<Step>, m: World, i: nat, d: Bytes)
    requires Led(w, steps, m) && SizedWorld(m) && Enabled(m, Respond(i, d))
    ensures RespondAsserts(m.s.slots[i])
  {
    hide SessionInvariant.SessionInv;
    AssertsFromInvariant(m, Respond(i, d));
  }

  lemma {:induction false} RxEnabled(w: World, steps: seq<Step>, m: World, p: Pkt, mem: Option<Bytes>)
    requires Led(w, steps, m) && |m.net| == kSessionReqWindow && !m.s.flushing
    requires Arrives(p, mem) && p in m.net[SlotOf(p.num)]
    ensures SizedWorld(m) && Enabled(m, ServerRx(p, mem))
  {
  }

  /** A handler that drains has put something into the batch. */
  lemma {:induction false} RxDrains(m: World, p: Pkt, mem: Option<Bytes>)
    requires SizedWorld(m) && Enabled(m, ServerRx(p, mem))
    ensures Next(m, ServerRx(p, mem)).s.flushing ==> Next(m, ServerRx(p, mem)).s.batch != []
    ensures Next(m, ServerRx(p, mem)).s.flushing == ServerReceive(m.s.slots[SlotOf(p.num)], p, mem).drain
  {
  }
}
