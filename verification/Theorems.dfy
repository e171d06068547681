/** What the protocol guarantees in every reachable world. */
module Theorems {
  import opened Options
  import opened Sequences
  import opened Arith
  import opened Messages
  import opened Datapath
  import opened Session
  import opened SlotInvariant
  import opened ClientSlotSteps
  import opened ServerSlotSteps
  import opened SharedQueues
  import opened SessionInvariant
  import opened SessionSteps

  // ---------------------------------------------------------- execution --

  /** Under any loss, duplication and reordering, each request number makes the server invoke its handler at
      most once, in increasing order per slot, with exactly the type and bytes that the client enqueued. */
  lemma {:induction false} ExecutedAtMostOnce(w: World)
    requires Reachable(w)
    ensures SizedWorld(w)
    ensures forall i, k | 0 <= i < kSessionReqWindow && 0 <= k < |w.s.slots[i].execs| ::
              var e := w.s.slots[i].execs[k];
              && SlotOf(e.num) == i && e.num in w.c.slots[i].sent
              && e.typ == w.c.slots[i].sent[e.num].typ && e.data == w.c.slots[i].sent[e.num].data
    ensures forall i, j, k | 0 <= i < kSessionReqWindow && 0 <= j < k < |w.s.slots[i].execs| ::
              w.s.slots[i].execs[j].num < w.s.slots[i].execs[k].num
    ensures forall i, i', k, k' | 0 <= i < kSessionReqWindow && 0 <= i' < kSessionReqWindow &&
                                  0 <= k < |w.s.slots[i].execs| && 0 <= k' < |w.s.slots[i'].execs| &&
                                  w.s.slots[i].execs[k].num == w.s.slots[i'].execs[k'].num ::
              i == i' && k == k'
  {
    ReachableOk(w);
    forall i, k | 0 <= i < kSessionReqWindow && 0 <= k < |w.s.slots[i].execs|
      ensures var e := w.s.slots[i].execs[k];
              && SlotOf(e.num) == i && e.num in w.c.slots[i].sent
              && e.typ == w.c.slots[i].sent[e.num].typ && e.data == w.c.slots[i].sent[e.num].data
    {
      ExecFacts(w, i);
    }
    forall i, j, k | 0 <= i < kSessionReqWindow && 0 <= j < k < |w.s.slots[i].execs|
      ensures w.s.slots[i].execs[j].num < w.s.slots[i].execs[k].num
    {
      ExecFacts(w, i);
    }
  }

  lemma {:induction false} ExecFacts(w: World, i: nat)
    requires SessionInv(w) && i < kSessionReqWindow
    ensures ExecLog(w.c.slots[i], w.s.slots[i])
    ensures forall r | r in w.c.slots[i].sent :: SlotOf(r) == i
  {
    assert SlotInv(i, ViewOf(w, i));
  }

  /** A continuation runs at most once per request, in order, and it sees exactly the size and bytes of the
      response that the handler enqueued for that request number. */
  lemma {:induction false} ContinuationSeesItsResponse(w: World, i: nat)
    requires Reachable(w) && i < kSessionReqWindow
    ensures SizedWorld(w)
    ensures forall k | 0 <= k < |w.c.slots[i].done| ::
              var d := w.c.slots[i].done[k];
              && d.num in w.c.slots[i].sent && d.num in w.s.slots[i].resps
              && d.resp == w.s.slots[i].resps[d.num] && Executed(w.s.slots[i].execs, d.num)
    ensures forall j, k | 0 <= j < k < |w.c.slots[i].done| :: w.c.slots[i].done[j].num < w.c.slots[i].done[k].num
  {
    ReachableOk(w);
    assert SlotInv(i, ViewOf(w, i));
  }

  /** Exactly once: a request that is no longer active was executed and its continuation ran. */
  lemma {:induction false} ExactlyOnce(w: World, i: nat, num: nat)
    requires Reachable(w) && i < kSessionReqWindow
    ensures SizedWorld(w)
    ensures num in w.c.slots[i].sent && (num != w.c.slots[i].cur || w.c.slots[i].tx.None?) ==>
              Completed(w.c.slots[i].done, num) && Executed(w.s.slots[i].execs, num)
  {
    hide SlotInvariant.SlotInv, Session.Reachable;
    ReachableSlot(w, i);
    if num in w.c.slots[i].sent && (num != w.c.slots[i].cur || w.c.slots[i].tx.None?) {
      FinishedFacts(i, ViewOf(w, i), num);
    }
  }

  lemma {:induction false} FinishedFacts(i: nat, x: View, num: nat)
    requires SlotInv(i, x) && num in x.c.sent && (num != x.c.cur || x.c.tx.None?)
    ensures Completed(x.c.done, num) && Executed(x.v.execs, num)
  {
    var k :| 0 <= k < |x.c.done| && x.c.done[k].num == num;
    assert x.c.done[k].num in x.v.resps;
  }

  /** A response is recorded once per request and never changes: a later answer is to a later request. */
  lemma {:induction false} ResponseIsFinal(w: World, step: Step, i: nat, num: nat)
    requires Reachable(w) && SizedWorld(w) && Enabled(w, step) && i < kSessionReqWindow
    requires num in w.s.slots[i].resps
    ensures num in Next(w, step).s.slots[i].resps
    ensures Next(w, step).s.slots[i].resps[num] == w.s.slots[i].resps[num]
  {
    hide SlotInvariant.SlotInv, Session.Reachable;
    hide Datapath.ProcessCr, Datapath.ProcessResp, Datapath.EnqueueRequest, Datapath.KickStalled, Datapath.Retransmit;
    if step.Respond? && step.slot == i {
      ReachableSlot(w, i);
      PendingFacts(i, ViewOf(w, i));
    }
  }

  // ------------------------------------------------------- lockstep, asserts --

  /** The server's request number is the client's or exactly one window behind, and while they are at the same
      request the client has acknowledgements only for packets the server received. */
  lemma {:induction false} Lockstep(w: World, i: nat)
    requires Reachable(w) && i < kSessionReqWindow
    ensures SizedWorld(w)
    ensures var c, v := w.c.slots[i], w.s.slots[i];
            && SlotOf(c.cur) == SlotOf(v.cur) == i
            && (v.cur == c.cur || v.cur + kSessionReqWindow == c.cur)
            && (v.cur != c.cur ==> c.tx.Some? && c.numRx == 0)
            && (v.cur == c.cur && c.tx.Some? ==> c.numRx <= v.numRx)
  {
    hide SlotInvariant.SlotInv, Session.Reachable;
    ReachableSlot(w, i);
    LockstepFacts(i, ViewOf(w, i));
  }

  lemma {:induction false} LockstepFacts(i: nat, x: View)
    requires SlotInv(i, x)
    ensures SlotOf(x.c.cur) == SlotOf(x.v.cur) == i
    ensures x.v.cur == x.c.cur || x.v.cur + kSessionReqWindow == x.c.cur
    ensures x.v.cur != x.c.cur ==> x.c.tx.Some? && x.c.numRx == 0
    ensures x.v.cur == x.c.cur && x.c.tx.Some? ==> x.c.numRx <= x.v.numRx
  {
  }

  /** `handle_disconnect_req_st`: when every client slot is idle, every server slot has answered its last
      request and received every packet of it. */
  lemma {:induction false} DisconnectChecksPass(w: World, i: nat)
    requires Reachable(w) && i < kSessionReqWindow
    requires SizedWorld(w) && |w.c.freeVec| == kSessionReqWindow
    ensures var v := w.s.slots[i];
            && v.reqBuf.None? && v.reqType.None?
            && (v.tx.Some? ==> v.numRx == v.savReqPkts + NumPkts(|v.tx.value|) - 1)
  {
    ReachableOk(w);
    assert SlotInv(i, ViewOf(w, i));
    AllFree(w.c, i);
  }

  /** A free vector as long as the window holds every slot. */
  lemma {:induction false} AllFree(s: Client, i: nat)
    requires WellSized(s) && FreeInv(s) && |s.freeVec| == kSessionReqWindow && i < kSessionReqWindow
    ensures s.slots[i].tx.None?
  {
    Pigeonhole(s.freeVec, kSessionReqWindow, i);
  }

  /** A list of `n` distinct numbers below `n` contains each of them. */
  lemma {:induction false} Pigeonhole(q: seq<nat>, n: nat, i: nat)
    requires Distinct(q) && |q| == n && i < n && forall k | 0 <= k < |q| :: q[k] < n
    ensures i in q
  {
    ElemsSize(q);
    RangeFacts(n, i);
    forall x | x in Elems(q) ensures x in Range(n) {
      ElemsFacts(q, x);
      RangeFacts(n, x);
    }
    ElemsFacts(q, i);
    assert |Range(n) - {i}| == n - 1;
    if i !in q {
      SubsetSize(Elems(q), Range(n) - {i});
    }
  }

  function Elems(q: seq<nat>): set<nat> {
    if q == [] then {} else Elems(q[1..]) + {q[0]}
  }

  lemma {:induction false} ElemsFacts(q: seq<nat>, x: nat)
    ensures x in Elems(q) <==> x in q
  {
    if q != [] {
      ElemsFacts(q[1..], x);
      assert q == [q[0]] + q[1..];
    }
  }

  lemma {:induction false} ElemsSize(q: seq<nat>)
    requires Distinct(q)
    ensures |Elems(q)| == |q|
  {
    if q != [] {
      ElemsSize(q[1..]);
      ElemsFacts(q[1..], q[0]);
      assert q[0] !in q[1..];
    }
  }

  function Range(n: nat): set<nat> {
    if n == 0 then {} else Range(n - 1) + {n - 1}
  }

  lemma {:induction false} RangeFacts(n: nat, x: nat)
    ensures |Range(n)| == n
    ensures x in Range(n) <==> x < n
  {
    if n > 0 {
      RangeFacts(n - 1, x);
      RangeFacts(n - 1, n - 1);
    }
  }

  lemma {:induction false} SubsetSize(a: set<nat>, b: set<nat>)
    requires a <= b
    ensures |a| <= |b|
    decreases a
  {
    if a != {} {
      var x :| x in a;
      SubsetSize(a - {x}, b - {x});
    }
  }

  // --------------------------------------------------------------- credits --

  /** Credits are conserved, so no slot has more than `kSessionCredits` packets outstanding. */
  lemma {:induction false} CreditsConserved(w: World)
    requires Reachable(w)
    ensures SizedWorld(w)
    ensures w.c.credits + Outstanding(w.c.slots) == kSessionCredits
    ensures forall i | 0 <= i < kSessionReqWindow ::
              w.c.slots[i].numRx <= w.c.slots[i].numTx <= w.c.slots[i].numRx + kSessionCredits - w.c.credits
    ensures forall i | 0 <= i < kSessionReqWindow && w.c.slots[i].tx.None? :: w.c.slots[i].numTx == w.c.slots[i].numRx
  {
    ReachableOk(w);
    forall i | 0 <= i < kSessionReqWindow
      ensures w.c.slots[i].numRx <= w.c.slots[i].numTx <= w.c.slots[i].numRx + kSessionCredits - w.c.credits
      ensures w.c.slots[i].tx.None? ==> w.c.slots[i].numTx == w.c.slots[i].numRx
    {
      WindowBound(w, i);
      SlotBounds(i, ViewOf(w, i));
    }
  }

  // ------------------------------------------------------------------ progress --

  /** Every active request has packets outstanding, or waits once in the stall queue without having sent any. */
  lemma {:induction false} NothingForgotten(w: World, i: nat)
    requires Reachable(w) && SizedWorld(w) && i < kSessionReqWindow && w.c.slots[i].tx.Some?
    ensures i in w.c.active
    ensures w.c.slots[i].numTx > w.c.slots[i].numRx ||
            (i in w.c.stallq && w.c.slots[i].numTx == w.c.slots[i].numRx == 0)
    ensures Distinct(w.c.stallq)
  {
    ReachableOk(w);
    SlotBounds(i, ViewOf(w, i));
  }

  /** A request past its timeout with nothing in the wheel is sent again from its first unacknowledged packet. */
  lemma {:induction false} RetransmissionResends(w: World, i: nat, bypass: bool)
    requires Reachable(w) && SizedWorld(w) && Enabled(w, LossDetected(i, bypass)) && w.c.slots[i].wheelCount == 0
    ensures Resent(w, i, bypass)
  {
    hide SlotInvariant.SlotInv, Session.Reachable, Resent;
    ReachableOk(w);
    Resends(w, i, bypass);
  }

  /** After the loss scan found slot `i`, its packet `numRx` is on its way again and nothing was taken back. */
  ghost predicate Resent(w: World, i: nat, bypass: bool)
    requires SizedWorld(w) && Enabled(w, LossDetected(i, bypass))
  {
    var m := Next(w, LossDetected(i, bypass)).c;
    var c, d := w.c.slots[i], m.slots[i];
    && c.tx.Some? && d.numRx == c.numRx && d.numTx >= c.numTx > c.numRx
    && (c.numRx < ReqPkts(c.tx.value) && bypass ==> Tagged(i, ReqRef(c.numRx)) in m.batch)
    && (c.numRx < ReqPkts(c.tx.value) && !bypass ==> Tagged(i, c.numRx) in m.wheel)
    && (c.numRx >= ReqPkts(c.tx.value) ==> Tagged(i, Ctl(RFR(c.cur, c.numRx))) in m.batch)
  }

  lemma {:induction false} Resends(w: World, i: nat, bypass: bool)
    requires SizedWorld(w) && SessionInv(w) && Enabled(w, LossDetected(i, bypass)) && w.c.slots[i].wheelCount == 0
    ensures Resent(w, i, bypass)
  {
    hide SlotInvariant.SlotInv, Datapath.Retransmit;
    var x := ViewOf(w, i);
    SlotBounds(i, x);
    RespHdrFacts(i, x);
    WindowBound(w, i);
    RollbackSends(w.c, i, bypass);
  }

  /** A rollback sends from packet `numRx` on, at least as far as before: it has taken back that many credits. */
  lemma {:induction false} RollbackSends(s: Client, i: nat, bypass: bool)
    requires WellSized(s) && i < |s.slots| && s.slots[i].tx.Some? && s.slots[i].numRx < s.slots[i].numTx
    requires s.slots[i].wheelCount == 0
    requires var c := s.slots[i];
             if c.numRx < ReqPkts(c.tx.value) then c.numTx <= ReqPkts(c.tx.value)
             else c.numTx <= WirePkts(c) && c.respHdr == c.cur
    ensures var c, r := s.slots[i], Retransmit(s, i, bypass);
            && r.slots[i].numRx == c.numRx && r.slots[i].numTx >= c.numTx
            && (c.numRx < ReqPkts(c.tx.value) && bypass ==> Tagged(i, ReqRef(c.numRx)) in r.batch)
            && (c.numRx < ReqPkts(c.tx.value) && !bypass ==> Tagged(i, c.numRx) in r.wheel)
            && (c.numRx >= ReqPkts(c.tx.value) ==> Tagged(i, Ctl(RFR(c.cur, c.numRx))) in r.batch)
  {
    hide Messages.NumPkts, Messages.CreditIdx, Datapath.SetFlags;
    var c, r := s.slots[i], Retransmit(s, i, bypass);
    if c.numRx < ReqPkts(c.tx.value) {
      if bypass {
        assert r.batch[|s.batch|] == Tagged(i, ReqRef(c.numRx));
      } else {
        assert r.wheel[|s.wheel|] == Tagged(i, c.numRx);
      }
    } else {
      assert r.batch[|s.batch|] == Tagged(i, Ctl(RFR(c.cur, c.numRx)));
    }
  }

  lemma {:induction false} RespHdrFacts(i: nat, x: View)
    requires SlotInv(i, x)
    ensures x.c.tx.Some? && x.c.numRx >= ReqPkts(x.c.tx.value) ==> x.c.respHdr == x.c.cur
  {
  }

  // ---------------------------------------------------------- the wheel --

  /** Wheel entries of a slot are distinct unacknowledged packets of its current request with distinct credit
      indices; the slot's count and flags describe them exactly. */
  lemma {:induction false} WheelAccounting(w: World, i: nat)
    requires Reachable(w) && i < kSessionReqWindow
    ensures SizedWorld(w)
    ensures var c, wh := w.c.slots[i], Of(w.c.wheel, i);
            && c.wheelCount == |wh| == CountTrue(c.inWheel)
            && (forall k | 0 <= k < |wh| :: c.tx.Some? && c.numRx <= wh[k] < c.numTx && wh[k] < ReqPkts(c.tx.value))
            && (forall j, k | 0 <= j < k < |wh| :: CreditIdx(wh[j]) != CreditIdx(wh[k]))
            && (forall f | 0 <= f < kSessionCredits ::
                  c.inWheel[f] <==> exists k :: 0 <= k < |wh| && CreditIdx(wh[k]) == f)
  {
    hide SlotInvariant.CoreInv, SlotInvariant.ClientBatchInv, SlotInvariant.ServerBatchInv;
    hide SessionInvariant.FreeInv, SessionInvariant.StallInv, SessionInvariant.Outstanding;
    ReachableOk(w);
    assert SlotInv(i, ViewOf(w, i));
    WindowBound(w, i);
    var wh := Of(w.c.wheel, i);
    forall j, k | 0 <= j < k < |wh| ensures CreditIdx(wh[j]) != CreditIdx(wh[k]) {
      CreditIdxDistinct(wh[j], wh[k]);
    }
  }

  /** Each packet in the wheel or its ready queue holds one of the session's credits, so a packet that is about to
      enter the wheel with a credit in hand finds fewer than kSessionCredits there. */
  lemma {:induction false} WheelHoldsCredits(w: World)
    requires Reachable(w)
    ensures |w.c.wheel| + w.c.credits <= kSessionCredits
  {
    ReachableOk(w);
    CreditsConserved(w);
    SumOf(w.c.wheel, kSessionReqWindow);
    WheelSum(w, 0);
    assert w.c.slots[0..] == w.c.slots;
  }

  function SumFrom(q: seq<Tagged<nat>>, i: nat, n: nat): nat
    decreases n - i
  {
    if i >= n then 0 else |Of(q, i)| + SumFrom(q, i + 1, n)
  }

  lemma {:induction false} SumOf(q: seq<Tagged<nat>>, n: nat)
    requires forall k | 0 <= k < |q| :: q[k].slot < n
    ensures SumFrom(q, 0, n) == |q|
  {
    if q == [] {
      SumEmpty(0, n);
    } else {
      SumOf(q[1..], n);
      SumStep(q, 0, n);
    }
  }

  lemma {:induction false} SumEmpty(i: nat, n: nat)
    ensures SumFrom([], i, n) == 0
    decreases n - i
  {
    if i < n { SumEmpty(i + 1, n); }
  }

  lemma {:induction false} SumStep(q: seq<Tagged<nat>>, i: nat, n: nat)
    requires q != []
    ensures SumFrom(q, i, n) == SumFrom(q[1..], i, n) + if i <= q[0].slot < n then 1 else 0
    decreases n - i
  {
    if i < n { SumStep(q, i + 1, n); }
  }

  lemma {:induction false} WheelSum(w: World, i: nat)
    requires SizedWorld(w) && SlotsInv(w) && i <= kSessionReqWindow
    ensures SumFrom(w.c.wheel, i, kSessionReqWindow) <= Outstanding(w.c.slots[i..])
    decreases kSessionReqWindow - i
  {
    if i < kSessionReqWindow {
      WheelSum(w, i + 1);
      assert w.c.slots[i..][1..] == w.c.slots[i + 1..];
      assert SlotInv(i, ViewOf(w, i));
      SlotBounds(i, ViewOf(w, i));
      DistinctWithin(Of(w.c.wheel, i), w.c.slots[i].numRx, w.c.slots[i].numTx);
    }
  }

  lemma {:induction false} DistinctWithin(q: seq<nat>, lo: nat, hi: nat)
    requires Distinct(q) && lo <= hi && forall k | 0 <= k < |q| :: lo <= q[k] < hi
    ensures |q| <= hi - lo
  {
    ElemsSize(q);
    forall x | x in Elems(q) ensures x in Range(hi) - Range(lo) {
      ElemsFacts(q, x);
      RangeFacts(hi, x);
      RangeFacts(lo, x);
    }
    forall x | x in Range(lo) ensures x in Range(hi) {
      RangeFacts(hi, x);
      RangeFacts(lo, x);
    }
    if hi > 0 { RangeFacts(hi, 0); }
    if lo > 0 { RangeFacts(lo, 0); }
    assert |Range(hi) - Range(lo)| == |Range(hi)| - |Range(lo)|;
    SubsetSize(Elems(q), Range(hi) - Range(lo));
  }

  // ---------------------------------------------------------- buffer lifetime --

  /** When a continuation fires, no TX batch item refers to the request's buffer and no wheel entry names the slot. */
  lemma {:induction false} BufferFreeAtCompletion(w: World, p: Pkt, bypass: bool)
    requires Reachable(w) && SizedWorld(w) && Enabled(w, ClientRx(p, bypass))
    requires var i := SlotOf(p.num); |Next(w, ClientRx(p, bypass)).c.slots[i].done| > |w.c.slots[i].done|
    ensures forall k | 0 <= k < |w.c.batch| && w.c.batch[k].slot == SlotOf(p.num) :: w.c.batch[k].item.Ctl?
    ensures forall k | 0 <= k < |w.c.wheel| :: w.c.wheel[k].slot != SlotOf(p.num)
    ensures w.c.slots[SlotOf(p.num)].wheelCount == 0
  {
    ReachableOk(w);
    var i := SlotOf(p.num);
    var x := ViewOf(w, i);
    assert SlotInv(i, x);
    CompletionMeansLast(w, p, bypass);
    NoReferenceLeft(i, x, p);
    forall k | 0 <= k < |w.c.batch| && w.c.batch[k].slot == i ensures w.c.batch[k].item.Ctl? {
      OfIn(w.c.batch, k);
    }
    forall k | 0 <= k < |w.c.wheel| ensures w.c.wheel[k].slot != i {
      OfIn(w.c.wheel, k);
    }
  }

  /** A continuation fires only on the last packet of the response. */
  lemma {:induction false} CompletionMeansLast(w: World, p: Pkt, bypass: bool)
    requires SessionInv(w) && Enabled(w, ClientRx(p, bypass))
    requires var i := SlotOf(p.num); |Next(w, ClientRx(p, bypass)).c.slots[i].done| > |w.c.slots[i].done|
    ensures var i := SlotOf(p.num);
            && p.Resp? && InOrder(w.c.slots[i], p) && w.c.slots[i].tx.Some? && w.s.slots[i].tx.Some?
            && w.c.slots[i].numRx + 1 ==
               ReqPkts(w.c.slots[i].tx.value) + NumPkts(|w.s.slots[i].tx.value|) - 1
  {
    hide SlotInvariant.SlotInv, SessionInvariant.FreeInv, SessionInvariant.StallInv, SessionInvariant.Outstanding;
    hide Messages.Holds, Messages.CopyData, Messages.CreditIdx;
    var i := SlotOf(p.num);
    var x := ViewOf(w, i);
    assert SlotInv(i, x);
    if p.Resp? && InOrder(x.c, p) {
      RespInOrder(i, x, p);
      if p.size > kMaxDataPerPkt {
        CopiedHolds(i, x, p, w.c.tsc);
        RespMoreOk(i, x, p, w.c.tsc);
        ClientSteps.RespOutcome(w.c, i, p, bypass);
      }
    }
  }

  /** The server changes its current request only for a packet of the client's next one. */
  lemma {:induction false} NewCurrent(i: nat, x: View, p: Pkt, mem: Option<Bytes>)
    requires SlotInv(i, x) && p in x.net && (p.RFR? || p.Req?) && ServerReceive(x.v, p, mem).v.cur != x.v.cur
    ensures p.Req? && x.v.cur != x.c.cur
  {
    assert PktOk(x.c, x.v, p);
    if p.Req? && p.num > x.v.cur { NewRequest(i, x, p); }
  }

  /** The server buries a response only when no TX batch item refers to it. */
  lemma {:induction false} BufferFreeAtBurial(w: World, p: Pkt, mem: Option<Bytes>)
    requires Reachable(w) && SizedWorld(w) && Enabled(w, ServerRx(p, mem))
    requires var i := SlotOf(p.num); Next(w, ServerRx(p, mem)).s.slots[i].cur != w.s.slots[i].cur
    ensures forall k | 0 <= k < |w.s.batch| && w.s.batch[k].slot == SlotOf(p.num) :: w.s.batch[k].item.SCtl?
  {
    hide SlotInvariant.SlotInv, Session.Reachable;
    var i := SlotOf(p.num);
    ReachableSlot(w, i);
    NewCurrent(i, ViewOf(w, i), p, mem);
    forall k | 0 <= k < |w.s.batch| && w.s.batch[k].slot == i ensures w.s.batch[k].item.SCtl? {
      OfIn(w.s.batch, k);
      var y :| 0 <= y < |Of(w.s.batch, i)| && Of(w.s.batch, i)[y] == w.s.batch[k].item;
      NoRespRefLeft(i, ViewOf(w, i), y);
    }
  }

  /** Every reference in a TX batch is live, and every packet on the wire carries the true content of its message. */
  lemma {:induction false} WireIsTrue(w: World, i: nat, p: Pkt)
    requires Reachable(w) && SizedWorld(w) && i < kSessionReqWindow && p in w.net[i]
    ensures SlotOf(p.num) == i && p.num in w.c.slots[i].sent
    ensures p.Req? ==> p == ReqPkt(p.num, w.c.slots[i].sent[p.num], p.pkt) && p.pkt < ReqPkts(w.c.slots[i].sent[p.num])
    ensures p.Resp? ==>
              && p.num in w.s.slots[i].resps
              && var n := ReqPkts(w.c.slots[i].sent[p.num]);
              p.pkt >= n - 1 && p == RespPkt(p.num, n, w.s.slots[i].resps[p.num], p.pkt - (n - 1))
  {
    hide SlotInvariant.SlotInv, Session.Reachable;
    ReachableSlot(w, i);
    WireFacts(i, ViewOf(w, i), p);
  }

  lemma {:induction false} WireFacts(i: nat, x: View, p: Pkt)
    requires SlotInv(i, x) && p in x.net
    ensures SlotOf(p.num) == i && p.num in x.c.sent
    ensures p.Req? ==> p == ReqPkt(p.num, x.c.sent[p.num], p.pkt) && p.pkt < ReqPkts(x.c.sent[p.num])
    ensures p.Resp? ==>
              && p.num in x.v.resps
              && var n := ReqPkts(x.c.sent[p.num]);
              p.pkt >= n - 1 && p == RespPkt(p.num, n, x.v.resps[p.num], p.pkt - (n - 1))
  {
    hide SlotInvariant.SlotInv, SlotInvariant.ServerInv, SlotInvariant.ClientInv, SlotInvariant.Settled;
    NetHas(i, x, p);
  }

  lemma {:induction false} ReferencesLive(w: World)
    requires Reachable(w)
    ensures SizedWorld(w)
    ensures w.c.batch != [] ==> ClientEmit(w.c, w.c.batch[0]) != {}
    ensures w.s.batch != [] ==> ServerEmit(w.s, w.s.batch[0]) != {}
  {
    hide SlotInvariant.SlotInv, Session.Reachable;
    ReachableOk(w);
    if w.c.batch != [] {
      var e := w.c.batch[0];
      OfTail(w.c.batch, e.slot);
      ClientItemFacts(e.slot, ViewOf(w, e.slot));
      assert e.item.Ctl? ==> e.item.pkt in ClientEmit(w.c, e);
      assert e.item.ReqRef? ==>
          ReqPkt(w.c.slots[e.slot].cur, w.c.slots[e.slot].tx.value, e.item.idx) in ClientEmit(w.c, e);
    }
    if w.s.batch != [] {
      var e := w.s.batch[0];
      OfTail(w.s.batch, e.slot);
      ServerItemFacts(e.slot, ViewOf(w, e.slot));
      assert e.item.SCtl? ==> e.item.pkt in ServerEmit(w.s, e);
      assert e.item.RespRef? ==>
          RespPkt(w.s.slots[e.slot].cur, w.s.slots[e.slot].savReqPkts, w.s.slots[e.slot].tx.value, e.item.idx)
          in ServerEmit(w.s, e);
    }
  }

  // ------------------------------------------------------------ request order --

  /** Requests take slots in the order of their enqueue_request calls; a backlog means no slot is free; the
      free vector and the active list hold each slot exactly once between them. */
  lemma {:induction false} RequestsInOrder(w: World)
    requires Reachable(w)
    ensures SizedWorld(w)
    ensures w.c.calls == w.c.started + w.c.backlog
    ensures w.c.backlog != [] ==> w.c.freeVec == []
    ensures Distinct(w.c.freeVec) && Distinct(w.c.active)
    ensures forall i | 0 <= i < kSessionReqWindow ::
              (i in w.c.freeVec <==> w.c.slots[i].tx.None?) && (i in w.c.active <==> w.c.slots[i].tx.Some?)
  {
    ReachableOk(w);
  }
}
