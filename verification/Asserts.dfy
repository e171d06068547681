/** The assertions written into the datapath's handlers, and the pointers they dereference without a check. */
module Asserts {
  import opened Options
  import opened Arith
  import opened Messages
  import opened Datapath
  import opened Session
  import opened SlotInvariant
  import opened ClientSlotSteps
  import opened ServerSlotSteps
  import opened SharedQueues
  import opened SessionInvariant
  import opened SessionSteps
  import opened MsgBuffers

  /** `enqueue_request`: the popped slot exists and its previous response was received. */
  predicate EnqueueAsserts(s: Client)
    requires WellSized(s)
  {
    s.freeVec != [] ==>
      s.freeVec[|s.freeVec| - 1] < |s.slots| && s.slots[s.freeVec[|s.freeVec| - 1]].tx.None?
  }

  /** `kick_rfr_st` */
  predicate KickRfrAsserts(c: ClientSlot, credits: int) {
    c.tx.Some? && credits > 0 && ReqPkts(c.tx.value) <= c.numRx < WirePkts(c) && c.numTx <= WirePkts(c)
  }

  /** `process_expl_cr_st`, with `bump_credits` and `kick_req_st` */
  predicate CrAsserts(s: Client, i: nat, p: Pkt)
    requires WellSized(s) && i < |s.slots|
  {
    var c := s.slots[i];
    && p.num <= c.cur
    && (InOrder(c, p) ==> s.credits < kSessionCredits && c.tx.Some?)
  }

  /** `process_resp_one_st`, with `bump_credits`, `resize_msg_buffer`, `kick_rfr_st` and `copy_data_to_msgbuf` */
  predicate RespAsserts(s: Client, i: nat, p: Pkt)
    requires WellSized(s) && i < |s.slots| && p.Resp?
  {
    var c := s.slots[i];
    && p.num <= c.cur
    && (InOrder(c, p) ==>
          && s.credits < kSessionCredits && c.tx.Some?
          && p.size <= |c.respBuf|
          && |p.data| <= kMaxDataPerPkt
          && (p.size <= kMaxDataPerPkt ==> c.wheelCount == 0 && (s.backlog != [] ==> s.freeVec == []))
          && (p.size > kMaxDataPerPkt ==>
                && p.pkt >= ReqPkts(c.tx.value) - 1
                && var c' := Copied(c, p, s.tsc);
                && c'.numTx <= WirePkts(c')
                && (c'.numTx != WirePkts(c') ==> KickRfrAsserts(c', s.credits + 1))
                && (c'.numRx == WirePkts(c') ==> c.wheelCount == 0 && (s.backlog != [] ==> s.freeVec == []))))
  }

  /** `process_credit_stall_queue_st`: a stalled slot is active and has request packets to send. */
  predicate UnstallAsserts(s: Client)
    requires WellSized(s)
  {
    s.stallq != [] ==>
      && s.stallq[0] < |s.slots| && s.slots[s.stallq[0]].tx.Some?
      && ReqPending(s.slots[s.stallq[0]])
  }

  /** `process_wheel_st`: the slot is active, counts the entry, and the entry is a request packet. */
  predicate ReapAsserts(s: Client, k: nat)
    requires WellSized(s) && k < |s.wheel|
  {
    var e := s.wheel[k];
    && e.slot < |s.slots|
    && s.slots[e.slot].tx.Some? && s.slots[e.slot].wheelCount > 0
    && s.slots[e.slot].inWheel[CreditIdx(e.item)]
    && e.item < ReqPkts(s.slots[e.slot].tx.value)
  }

  /** `pkt_loss_retransmit_st` */
  predicate LossAsserts(s: Client, i: nat)
    requires WellSized(s) && i < |s.slots|
  {
    var c := s.slots[i];
    && c.tx.Some?
    && c.numRx <= c.numTx && s.credits + (c.numTx - c.numRx) <= kSessionCredits
    && (c.numTx > c.numRx ==> i !in s.stallq)
    && (c.numTx > c.numRx && c.numRx >= ReqPkts(c.tx.value) ==>
          KickRfrAsserts(c.(numTx := c.numRx), s.credits + (c.numTx - c.numRx)))
  }

  /** `process_small_req_st`, `process_large_req_one_st`, `process_rfr_st` */
  predicate ServerRxAsserts(v: ServerSlot, p: Pkt)
    requires p.Req? || p.RFR?
  {
    if p.RFR? then
      && p.num <= v.cur
      && (p.num == v.cur ==>
            v.tx.Some? && v.savReqPkts <= p.pkt && p.pkt - (v.savReqPkts - 1) < NumPkts(|v.tx.value|))
    else
      && (p.num > v.cur ==>
            p.num == v.cur + kSessionReqWindow && v.reqBuf.None? && v.reqType.None?)
      && (p.num == v.cur && p.size > kMaxDataPerPkt && p.pkt == v.numRx ==>
            v.reqBuf.Some? && |v.reqBuf.value| == p.size && v.reqType.None?)
  }

  /** `enqueue_response` */
  predicate RespondAsserts(v: ServerSlot) {
    v.tx.None? && v.reqType.Some? && v.reqBuf.Some?
  }

  /** The assertions that depend on the protocol alone. */
  predicate ProtocolAsserts(w: World, step: Step)
    requires SizedWorld(w) && Enabled(w, step)
  {
    match step
    case Enqueue(_, _) => EnqueueAsserts(w.c)
    case ClientRx(p, _) =>
      if p.CR? then CrAsserts(w.c, SlotOf(p.num), p) else RespAsserts(w.c, SlotOf(p.num), p)
    case Unstalled(_) => UnstallAsserts(w.c)
    case Reaped(k) => ReapAsserts(w.c, k)
    case LossDetected(i, _) => LossAsserts(w.c, i)
    case ServerRx(p, _) => ServerRxAsserts(w.s.slots[SlotOf(p.num)], p)
    case Respond(i, _) => RespondAsserts(w.s.slots[i])
    case _ => true
  }

  /** `msg_size_` in the packet's header. */
  function MsgSize(p: Pkt): nat {
    match p
    case Req(_, _, _, size, _) => size
    case Resp(_, _, size, _) => size
    case _ => 0
  }

  /** `alloc_msg_buffer` wants a size, and those who call it for a request want a buffer. */
  predicate AllocAsserts(v: ServerSlot, p: Pkt, mem: Option<Bytes>) {
    p.Req? && Allocates(v, p) ==> p.size >= 1 && mem.Some?
  }

  /** The assertions that depend on messages and memory. */
  predicate InputAsserts(w: World, step: Step)
    requires SizedWorld(w) && Enabled(w, step)
  {
    match step
    case ClientRx(p, _) => MsgSize(p) <= maxMsgSize
    case ServerRx(p, mem) => MsgSize(p) <= maxMsgSize && AllocAsserts(w.s.slots[SlotOf(p.num)], p, mem)
    case _ => true
  }

  predicate AssertsHold(w: World, step: Step)
    requires SizedWorld(w) && Enabled(w, step)
  {
    ProtocolAsserts(w, step) && InputAsserts(w, step)
  }

  lemma {:induction false} ServerRxAssertsOk(i: nat, x: View, p: Pkt)
    requires SlotInv(i, x) && p in x.net && (p.Req? || p.RFR?)
    ensures ServerRxAsserts(x.v, p)
  {
    if p.RFR? {
      RfrFacts(i, x, p);
    } else if p.num > x.v.cur {
      NewRequest(i, x, p);
      SettledFacts(i, x);
    } else if p.num == x.v.cur && p.pkt == x.v.numRx {
      NextRequestPkt(i, x, p);
    }
  }

  lemma {:induction false} SettledFacts(i: nat, x: View)
    requires SlotInv(i, x) && x.v.cur != x.c.cur
    ensures x.v.reqBuf.None? && x.v.reqType.None?
  {
  }

  lemma {:induction false} NumOrder(i: nat, x: View, p: Pkt)
    requires SlotInv(i, x) && p in x.net
    ensures p.num <= x.c.cur
  {
    assert PktOk(x.c, x.v, p);
  }

  lemma {:induction false} ChunkSize(d: Bytes, k: nat)
    ensures |Chunk(d, k)| <= kMaxDataPerPkt
  {
    CoveredMono(k, |d|);
  }

  lemma {:induction false} CrAssertsOk(w: World, p: Pkt)
    requires SessionInv(w) && p.CR? && p in w.net[SlotOf(p.num)]
    ensures CrAsserts(w.c, SlotOf(p.num), p)
  {
    hide SlotInvariant.SlotInv;
    var i := SlotOf(p.num);
    assert SlotInv(i, ViewOf(w, i));
    NumOrder(i, ViewOf(w, i), p);
    if InOrder(w.c.slots[i], p) {
      CrOk(i, ViewOf(w, i), p, w.c.tsc);
      WindowBound(w, i);
    }
  }

  lemma {:induction false} MultiRespAssertsOk(i: nat, x: View, p: Pkt, credits: nat, tsc: nat)
    requires SlotInv(i, x) && p in x.net && p.Resp? && InOrder(x.c, p) && p.size > kMaxDataPerPkt && x.listening
    ensures x.c.tx.Some? && p.pkt >= ReqPkts(x.c.tx.value) - 1
    ensures var c' := Copied(x.c, p, tsc);
            && c'.numTx <= WirePkts(c')
            && (c'.numTx != WirePkts(c') ==> KickRfrAsserts(c', credits + 1))
            && (c'.numRx == WirePkts(c') ==> x.c.wheelCount == 0)
  {
    hide SlotInvariant.SlotInv;
    SlotBounds(i, x);
    RespInOrder(i, x, p);
    CopiedHolds(i, x, p, tsc);
    RespMoreOk(i, x, p, tsc);
    var c' := Copied(x.c, p, tsc);
    if c'.numRx == WirePkts(c') { NoReferenceLeft(i, x, p); }
  }

  lemma {:induction false} RespAssertsOk(w: World, p: Pkt)
    requires SessionInv(w) && p.Resp? && p in w.net[SlotOf(p.num)] && w.c.stage.Receive?
    ensures RespAsserts(w.c, SlotOf(p.num), p)
  {
    hide SlotInvariant.SlotInv;
    var i := SlotOf(p.num);
    var x := ViewOf(w, i);
    assert SlotInv(i, x);
    NumOrder(i, x, p);
    if InOrder(w.c.slots[i], p) {
      RespInOrder(i, x, p);
      WindowBound(w, i);
      ChunkSize(x.v.tx.value, x.c.numRx + 1 - ReqPkts(x.c.tx.value));
      if p.size > kMaxDataPerPkt {
        MultiRespAssertsOk(i, x, p, w.c.credits, w.c.tsc);
      } else {
        NoReferenceLeft(i, x, p);
      }
    }
  }

  lemma {:induction false} ReapAssertsOk(w: World, k: nat)
    requires SessionInv(w) && k < |w.c.wheel|
    ensures ReapAsserts(w.c, k)
  {
    hide SlotInvariant.SlotInv;
    var e := w.c.wheel[k];
    var x, p := ViewOf(w, e.slot), |Of(w.c.wheel[..k], e.slot)|;
    SlotBounds(e.slot, x);
    OfRemove(w.c.wheel, k, e.slot);
    FlagSet(e.slot, x, p);
  }

  lemma {:induction false} FlagSet(i: nat, x: View, k: nat)
    requires SlotInv(i, x) && k < |x.wh|
    ensures |x.c.inWheel| == kSessionCredits && x.c.inWheel[CreditIdx(x.wh[k])]
  {
  }

  lemma {:induction false} LossAssertsOk(w: World, i: nat)
    requires SessionInv(w) && i < kSessionReqWindow && i in w.c.active
    ensures LossAsserts(w.c, i)
  {
    hide SlotInvariant.SlotInv;
    SlotBounds(i, ViewOf(w, i));
    WindowBound(w, i);
  }

  lemma {:induction false} RespondAssertsOk(i: nat, x: View)
    requires SlotInv(i, x) && x.v.reqType.Some?
    ensures RespondAsserts(x.v)
  {
    PendingFacts(i, x);
  }

  lemma {:induction false} AssertsFromInvariant(w: World, step: Step)
    requires SessionInv(w) && Enabled(w, step)
    ensures ProtocolAsserts(w, step)
  {
    hide SlotInvariant.SlotInv, SlotOf;
    match step {
      case Enqueue(_, _) =>
        if w.c.freeVec != [] { assert w.c.freeVec[|w.c.freeVec| - 1] in w.c.freeVec; }
      case ClientRx(p, _) =>
        if p.CR? { CrAssertsOk(w, p); } else { RespAssertsOk(w, p); }
      case Unstalled(_) =>
      case Reaped(k) => ReapAssertsOk(w, k);
      case LossDetected(i, _) => LossAssertsOk(w, i);
      case ServerRx(p, _) => ServerRxAssertsOk(SlotOf(p.num), ViewOf(w, SlotOf(p.num)), p);
      case Respond(i, _) => RespondAssertsOk(i, ViewOf(w, i));
      case _ =>
    }
  }

  // When an assertion can fail

  /** What the applications and the server's memory must provide, in terms of the messages they pass: a message that is
      received is not larger than kMaxMsgSize, and the first packet of a new request that needs a buffer finds memory
      for it, and data. */
  ghost predicate InputFits(w: World, step: Step)
    requires SizedWorld(w)
  {
    match step
    case ClientRx(p, _) =>
      var resps := w.s.slots[SlotOf(p.num)].resps;
      p.Resp? ==> p.num in resps && |resps[p.num]| <= maxMsgSize
    case ServerRx(p, mem) =>
      var c, v := w.c.slots[SlotOf(p.num)], w.s.slots[SlotOf(p.num)];
      p.Req? ==>
        && p.num in c.sent && |c.sent[p.num].data| <= maxMsgSize
        && (p.num == c.cur != v.cur && p.pkt == 0 && NeedsBuffer(c.sent[p.num].typ, |c.sent[p.num].data|) ==>
              c.sent[p.num].data != [] && mem.Some?)
    case _ => true
  }

  /** In every reachable world, a step meets the assertions of the code it runs exactly then. */
  lemma {:induction false} AssertsExactly(w: World, step: Step)
    requires Reachable(w) && SizedWorld(w) && Enabled(w, step) && 0 <= maxMsgSize
    ensures AssertsHold(w, step) <==> InputFits(w, step)
  {
    hide Session.Reachable, ProtocolAsserts, SlotInvariant.SlotInv, SessionInvariant.SessionInv, Allocates, NeedsBuffer;
    ReachableOk(w);
    AssertsFromInvariant(w, step);
    if step.ClientRx? || step.ServerRx? {
      var i := SlotOf(step.pkt.num);
      ReachableSlot(w, i);
      MessageIs(i, ViewOf(w, i), step.pkt);
    }
  }

  /** The message of a packet on the wire. A buffer is allocated for the first packet of the client's request when the
      server is not there yet. */
  lemma {:induction false} MessageIs(i: nat, x: View, p: Pkt)
    requires SlotInv(i, x) && p in x.net
    ensures p.Resp? ==> p.num in x.v.resps && p.size == |x.v.resps[p.num]|
    ensures p.Req? ==> p.num in x.c.sent && p.size == |x.c.sent[p.num].data| && p.typ == x.c.sent[p.num].typ
    ensures p.Req? ==>
              (Allocates(x.v, p) <==> p.num == x.c.cur != x.v.cur && p.pkt == 0 && NeedsBuffer(p.typ, p.size))
  {
    hide SlotInvariant.SlotInv, SlotInvariant.NetInv, SlotInvariant.DoneLog, SlotInvariant.ExecLog;
    hide SlotInvariant.Settled, SlotInvariant.RespSent, Messages.Holds, SlotInvariant.RespLog;
    NetHas(i, x, p);
    CoreOf(i, x);
  }

  /** Any request can be on the wire, for a server that has not seen it. */
  lemma {:induction false} RequestOnWire(a: Args) returns (w: World, p: Pkt)
    ensures Reachable(w) && SizedWorld(w) && p == ReqPkt(kSessionReqWindow, a, 0) && SlotOf(p.num) == 0
    ensures p in w.net[0] && !w.s.flushing && w.s.slots[0] == InitialServerSlot(0)
  {
    var w0 := Init();
    assert w0.c.freeVec[kSessionReqWindow - 1] == 0;
    var w1 := Next(w0, Step.Enqueue(a, true));
    StartsFirst(a);
    w := Next(w1, ClientBurst);
    p := ReqPkt(kSessionReqWindow, a, 0);
    assert SlotOf(kSessionReqWindow) == SlotOf(0) == 0;
    assert ClientEmit(w1.c, w1.c.batch[0]) == {p};
    assert Run(w, [], w);
    assert Run(w1, [ClientBurst], w) by { assert [ClientBurst][1..] == []; }
    var steps := [Step.Enqueue(a, true), ClientBurst];
    assert Run(w0, steps, w) by { assert steps[1..] == [ClientBurst]; }
  }

  lemma {:induction false} StartsFirst(a: Args)
    ensures var r := EnqueueRequest(Init().c.(calls := [a]), a, true);
            && |r.slots| == kSessionReqWindow && r.slots[0].tx == Some(a) && r.slots[0].cur == kSessionReqWindow
            && r.batch != [] && r.batch[0] == Tagged(0, ReqRef(0))
  {
    var s := Init().c.(calls := [a]);
    assert s.freeVec[|s.freeVec| - 1] == 0;
  }

  /** Nothing keeps an application from sending a message larger than kMaxMsgSize; receiving it fails the assertion on
      the size. */
  lemma {:induction false} SizeCanFail()
    requires 0 <= maxMsgSize
    ensures exists w, p, mem: Option<Bytes> ::
              && Reachable(w) && SizedWorld(w) && Enabled(w, ServerRx(p, mem)) && mem.Some?
              && MsgSize(p) == maxMsgSize + 1 && !AssertsHold(w, ServerRx(p, mem))
  {
    hide Session.Reachable, ProtocolAsserts;
    var data: Bytes := seq(maxMsgSize + 1, _ => 0);
    var w, p := RequestOnWire(Args(0, data, []));
    assert Enabled(w, ServerRx(p, Some(data)));
  }

  /** An allocation that fails for a multi-packet request fails the assertion on its result. */
  lemma {:induction false} AllocationCanFail()
    ensures exists w, p ::
              && Reachable(w) && SizedWorld(w) && Enabled(w, ServerRx(p, None))
              && MsgSize(p) == kMaxDataPerPkt + 1 && !AssertsHold(w, ServerRx(p, None))
  {
    hide Session.Reachable, ProtocolAsserts;
    var w, p := RequestOnWire(Args(0, seq(kMaxDataPerPkt + 1, _ => 0), []));
    assert Enabled(w, ServerRx(p, None));
  }

  /** An empty request for a background handler fails the assertion of `alloc_msg_buffer`, whatever memory there is. */
  lemma {:induction false} EmptyCanFail(typ: nat)
    requires typ in backgroundTypes
    ensures exists w, p ::
              && Reachable(w) && SizedWorld(w) && Enabled(w, ServerRx(p, Some([])))
              && p.Req? && p.typ == typ && !AssertsHold(w, ServerRx(p, Some([])))
  {
    hide Session.Reachable, ProtocolAsserts;
    var w, p := RequestOnWire(Args(typ, [], []));
    assert Enabled(w, ServerRx(p, Some([])));
  }
}
