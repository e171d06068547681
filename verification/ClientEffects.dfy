/**
 * What each step of the client does in every reachable world, in terms of
 * messages, packets, credits and queues.
 */
module ClientEffects {
  import opened Options
  import opened Sequences
  import opened Arith
  import opened Messages
  import opened Datapath
  import opened Session
  import opened SlotInvariant
  import opened ClientSlotSteps
  import opened SharedQueues
  import opened SessionInvariant
  import opened SessionSteps
  import ClientSteps
  import Theorems

  // How a client changes

  /** `k` request packets of slot `i`, from packet `from` on, went to the end of the TX batch, or of the wheel. */
  predicate ReqsQueued(s: Client, r: Client, i: nat, from: nat, k: nat, bypass: bool) {
    if bypass then
      && r.wheel == s.wheel && |r.batch| == |s.batch| + k && s.batch <= r.batch
      && forall y | |s.batch| <= y < |r.batch| :: r.batch[y] == Tagged(i, ReqRef(from + y - |s.batch|))
    else
      && r.batch == s.batch && |r.wheel| == |s.wheel| + k && s.wheel <= r.wheel
      && forall y | |s.wheel| <= y < |r.wheel| :: r.wheel[y] == Tagged(i, from + y - |s.wheel|)
  }

  /** `k` requests-for-response of request `num`, from packet `from` on, went to the end of the TX batch. */
  predicate RfrsQueued(s: Client, r: Client, i: nat, num: nat, from: nat, k: nat) {
    && r.wheel == s.wheel && |r.batch| == |s.batch| + k && s.batch <= r.batch
    && forall y | |s.batch| <= y < |r.batch| :: r.batch[y] == Tagged(i, Ctl(RFR(num, from + y - |s.batch|)))
  }

  /** Besides credits, TX batch and wheel, only slot `i` differs. */
  predicate OnlySlot(s: Client, r: Client, i: nat) {
    && i < |s.slots| == |r.slots| && r.slots == s.slots[i := r.slots[i]]
    && r.freeVec == s.freeVec && r.backlog == s.backlog && r.stallq == s.stallq && r.active == s.active
    && r.tsc == s.tsc && r.calls == s.calls && r.started == s.started
  }

  /** The slot has these counters and is otherwise as before, except for its record of what is in the wheel. */
  predicate Counts(c: ClientSlot, d: ClientSlot, numTx: nat, numRx: nat, progress: nat) {
    d == c.(numTx := numTx, numRx := numRx, progress := progress, inWheel := d.inWheel, wheelCount := d.wheelCount)
  }

  lemma {:induction false} KickReqQueues(s: Client, i: nat, bypass: bool)
    requires WellSized(s) && i < |s.slots| && s.slots[i].tx.Some? && ReqPending(s.slots[i])
    ensures var c, r := s.slots[i], KickReq(s, i, bypass);
            var k := Min(s.credits, ReqPkts(c.tx.value) - c.numTx);
            && OnlySlot(s, r, i) && r.stage == s.stage && r.credits == s.credits - k
            && Counts(c, r.slots[i], c.numTx + k, c.numRx, c.progress) && ReqsQueued(s, r, i, c.numTx, k, bypass)
  {
    hide Messages.NumPkts, Datapath.SetFlags, ReqRefs, PktNums, Datapath.At, ReqsQueued;
    var c := s.slots[i];
    var k := Min(s.credits, ReqPkts(c.tx.value) - c.numTx);
    ReqsAppended(s, KickReq(s, i, bypass), i, c.numTx, k, bypass);
  }

  lemma {:induction false} ReqsAppended(s: Client, r: Client, i: nat, from: nat, k: nat, bypass: bool)
    requires r.batch == if bypass then s.batch + At(i, ReqRefs(from, k)) else s.batch
    requires r.wheel == if bypass then s.wheel else s.wheel + At(i, PktNums(from, k))
    ensures ReqsQueued(s, r, i, from, k, bypass)
  {
  }

  lemma {:induction false} KickRfrQueues(s: Client, i: nat)
    requires WellSized(s) && i < |s.slots| && s.slots[i].tx.Some? && s.slots[i].numTx <= WirePkts(s.slots[i])
    ensures var c, r := s.slots[i], KickRfr(s, i);
            var k := Min(s.credits, WirePkts(c) - c.numTx);
            && OnlySlot(s, r, i) && r.stage == s.stage && r.credits == s.credits - k
            && Counts(c, r.slots[i], c.numTx + k, c.numRx, c.progress) && RfrsQueued(s, r, i, c.respHdr, c.numTx, k)
  {
    hide Messages.NumPkts;
  }

  // Packets from the server

  /** The packet acknowledges the first unacknowledged packet of the slot's request, which has left the wheel. */
  predicate AcksNext(w: World, p: Pkt)
    requires SizedWorld(w)
  {
    var i := SlotOf(p.num);
    p.num == w.c.slots[i].cur && p.pkt == w.c.slots[i].numRx < w.c.slots[i].numTx && Tagged(i, p.pkt) !in w.c.wheel
  }

  /** That is what the handlers test with the slot's flags. */
  lemma {:induction false} InOrderAcks(w: World, p: Pkt)
    requires Reachable(w) && SizedWorld(w)
    ensures InOrder(w.c.slots[SlotOf(p.num)], p) <==> AcksNext(w, p)
    ensures AcksNext(w, p) ==> w.c.slots[SlotOf(p.num)].tx.Some?
  {
    hide SlotInvariant.SlotInv, Session.Reachable, Messages.CreditIdx;
    var i := SlotOf(p.num);
    ReachableSlot(w, i);
    var x := ViewOf(w, i);
    SlotBounds(i, x);
    if p.pkt == x.c.numRx < x.c.numTx {
      Counters(i, x);
      FlagMeansEntry(x.c, x.wh, p.pkt);
      OfMeansIn(w.c.wheel, i, p.pkt);
    }
  }

  lemma {:induction false} FlagMeansEntry(c: ClientSlot, wh: seq<nat>, k: nat)
    requires WheelInv(c, wh) && c.numRx <= k < c.numTx <= c.numRx + kSessionCredits
    ensures c.inWheel[CreditIdx(k)] <==> k in wh
  {
    if c.inWheel[CreditIdx(k)] {
      var y :| 0 <= y < |wh| && CreditIdx(wh[y]) == CreditIdx(k);
      if wh[y] != k { CreditIdxDistinct(wh[y], k); }
    }
  }

  lemma {:induction false} OfMeansIn(q: seq<Tagged<nat>>, i: nat, k: nat)
    ensures k in Of(q, i) <==> Tagged(i, k) in q
  {
    if q != [] {
      OfMeansIn(q[1..], i, k);
      assert q == [q[0]] + q[1..];
    }
  }

  /** An explicit credit return that acknowledges the next packet brings a credit back, and all credits there are now
      go to the request's packets that were not sent yet. Any other one changes nothing. */
  lemma {:induction false} CreditReturnSpends(w: World, p: Pkt, bypass: bool)
    requires Reachable(w) && SizedWorld(w) && p.CR? && Enabled(w, ClientRx(p, bypass))
    ensures var i, v := SlotOf(p.num), Next(w, ClientRx(p, bypass));
            var c, m := w.c.slots[i], v.c;
            if !AcksNext(w, p) then v == w
            else
              && c.tx.Some? && c.numTx <= ReqPkts(c.tx.value)
              && var k := Min(w.c.credits + 1, ReqPkts(c.tx.value) - c.numTx);
              && v == w.(c := m) && OnlySlot(w.c, m, i) && m.stage == w.c.stage && m.credits == w.c.credits + 1 - k
              && Counts(c, m.slots[i], c.numTx + k, c.numRx + 1, w.c.tsc)
              && ReqsQueued(w.c, m, i, c.numTx, k, bypass)
  {
    hide SlotInvariant.SlotInv, Session.Reachable, InOrder, AcksNext, Messages.NumPkts, KickReq;
    hide Datapath.EnqueueRequest, Datapath.ProcessResp, SlotOf;
    var i := SlotOf(p.num);
    InOrderAcks(w, p);
    if AcksNext(w, p) {
      CrBelongs(w, p);
      var s1 := Acked(w.c, i);
      if ReqPending(s1.slots[i]) { KickReqQueues(s1, i, bypass); }
    }
  }

  lemma {:induction false} CrBelongs(w: World, p: Pkt)
    requires Reachable(w) && SizedWorld(w) && p.CR? && p in w.net[SlotOf(p.num)] && AcksNext(w, p)
    ensures var c := w.c.slots[SlotOf(p.num)]; c.tx.Some? && c.numTx <= ReqPkts(c.tx.value)
  {
    hide SlotInvariant.SlotInv, Session.Reachable, InOrder, AcksNext, Messages.NumPkts, SlotOf;
    var i := SlotOf(p.num);
    InOrderAcks(w, p);
    ReachableSlot(w, i);
    CrOk(i, ViewOf(w, i), p, w.c.tsc);
    Counters(i, ViewOf(w, i));
  }

  /** What a response packet that acknowledges the next packet belongs to. */
  lemma {:induction false} RespBelongs(w: World, p: Pkt)
    requires Reachable(w) && SizedWorld(w) && p.Resp? && p in w.net[SlotOf(p.num)] && AcksNext(w, p)
    ensures var i := SlotOf(p.num);
            var c, v := w.c.slots[i], w.s.slots[i];
            && c.tx.Some? && c.cur == p.num && p.num in v.resps && v.tx == Some(v.resps[p.num])
            && p.size == |v.resps[p.num]|
            && InOrder(c, p) && c.numRx < c.numTx <= Total(c.tx.value, v.resps[p.num])
            && ReqPkts(c.tx.value) <= c.numRx + 1 <= Total(c.tx.value, v.resps[p.num])
  {
    hide SlotInvariant.SlotInv, Session.Reachable, Messages.CreditIdx;
    var i := SlotOf(p.num);
    InOrderAcks(w, p);
    ReachableSlot(w, i);
    RespInOrder(i, ViewOf(w, i), p);
    Counters(i, ViewOf(w, i));
  }

  /** Packets that the client sends, and gets acknowledged, for a request and its response. */
  function Total(a: Args, d: Bytes): nat { ReqPkts(a) + NumPkts(|d|) - 1 }

  /** A response packet that acknowledges the next packet, but not the last of all, brings a credit back, and all
      credits there are now go to the requests-for-response that were not sent yet. */
  lemma {:induction false} ResponseAsksOn(w: World, p: Pkt, bypass: bool)
    requires Reachable(w) && SizedWorld(w) && p.Resp? && Enabled(w, ClientRx(p, bypass)) && AcksNext(w, p)
    requires var i := SlotOf(p.num);
             p.num in w.s.slots[i].resps && w.c.slots[i].tx.Some?
             && w.c.slots[i].numRx + 1 < Total(w.c.slots[i].tx.value, w.s.slots[i].resps[p.num])
    ensures var i, v := SlotOf(p.num), Next(w, ClientRx(p, bypass));
            var c, m := w.c.slots[i], v.c;
            var all := Total(c.tx.value, w.s.slots[i].resps[p.num]);
            && c.numTx <= all
            && var k := Min(w.c.credits + 1, all - c.numTx);
            && v == w.(c := m) && OnlySlot(w.c, m, i) && m.stage == w.c.stage && m.credits == w.c.credits + 1 - k
            && m.slots[i].numTx == c.numTx + k && m.slots[i].numRx == c.numRx + 1 && m.slots[i].progress == w.c.tsc
            && m.slots[i].cur == c.cur && m.slots[i].tx == c.tx && m.slots[i].done == c.done
            && RfrsQueued(w.c, m, i, p.num, c.numTx, k)
  {
    hide SlotInvariant.SlotInv, Session.Reachable, InOrder, AcksNext, Messages.NumPkts, KickRfr, Complete, CopyData;
    hide Datapath.EnqueueRequest, Datapath.ProcessResp, SlotOf;
    var i := SlotOf(p.num);
    var c := w.c.slots[i];
    RespBelongs(w, p);
    NumPktsOne(p.size);
    CopiedSlot(w, p);
    ClientSteps.RespOutcome(w.c, i, p, bypass);
    hide Copied;
    var c1 := Copied(c, p, w.c.tsc);
    var s1 := w.c.(credits := w.c.credits + 1, slots := w.c.slots[i := c1]);
    if c1.numTx < WirePkts(c1) { KickRfrQueues(s1, i); }
  }

  /** The slot after a packet of a multi-packet response was copied. */
  lemma {:induction false} CopiedSlot(w: World, p: Pkt)
    requires Reachable(w) && SizedWorld(w) && p.Resp? && p in w.net[SlotOf(p.num)] && AcksNext(w, p)
    requires p.size > kMaxDataPerPkt
    ensures var i := SlotOf(p.num);
            var c, v := w.c.slots[i], w.s.slots[i];
            && c.tx.Some? && p.num in v.resps && p.pkt + 1 >= ReqPkts(c.tx.value)
            && var d := Copied(c, p, w.c.tsc);
            && d.tx == c.tx && WirePkts(d) == Total(c.tx.value, v.resps[p.num]) && d.respHdr == p.num
            && d.cur == c.cur && d.done == c.done && d.sent == c.sent && d.progress == w.c.tsc
            && d.numTx == c.numTx && d.numRx == c.numRx + 1 && |d.inWheel| == kSessionCredits
            && d.respSize == |v.resps[p.num]| <= |d.respBuf|
            && Holds(d.respBuf, v.resps[p.num], d.numRx + 1 - ReqPkts(c.tx.value))
  {
    hide SlotInvariant.SlotInv, Session.Reachable, InOrder, AcksNext, Messages.NumPkts, CopyData, SlotOf;
    var i := SlotOf(p.num);
    RespBelongs(w, p);
    ReachableSlot(w, i);
    RespInOrder(i, ViewOf(w, i), p);
    CopiedHolds(i, ViewOf(w, i), p, w.c.tsc);
    CopiedFrame(w.c.slots[i], p, w.c.tsc);
  }

  lemma {:induction false} NumPktsOne(size: nat)
    ensures NumPkts(size) == 1 <==> size <= kMaxDataPerPkt
  {
  }

  lemma {:induction false} CopiedFrame(c: ClientSlot, p: Pkt, tsc: nat)
    requires p.Resp? && c.tx.Some?
    ensures var d := Copied(c, p, tsc);
            && d.cur == c.cur && d.tx == c.tx && d.done == c.done && d.sent == c.sent && d.progress == tsc
            && d.numTx == c.numTx && d.numRx == c.numRx + 1 && d.inWheel == c.inWheel && d.wheelCount == c.wheelCount
  {
  }

  /** The slot carries a new request of which the first `k` packets were sent. */
  predicate Carries(c: ClientSlot, d: ClientSlot, a: Args, k: nat, tsc: nat) {
    && d.cur == c.cur + kSessionReqWindow && d.tx == Some(a) && d.sent == c.sent[d.cur := a] && d.done == c.done
    && d.numTx == k && d.numRx == 0 && d.progress == tsc && d.respBuf == a.respBuf
  }

  /** A request takes the last free slot; all credits there are go to its packets, and without any it joins the stall
      queue. Without a free slot it joins the backlog. */
  lemma {:induction false} EnqueueStarts(w: World, a: Args, bypass: bool)
    requires Reachable(w) && SizedWorld(w) && Enabled(w, Enqueue(a, bypass))
    ensures var v := Next(w, Enqueue(a, bypass));
            v == w.(c := v.c) && v.c.calls == w.c.calls + [a] && Begun(w.c, v.c, a, bypass)
  {
    hide Session.Reachable, Messages.NumPkts, EnqueueRequest, ReqsQueued;
    FreeInRange(w);
    StartsLast(w.c.(calls := w.c.calls + [a]), a, bypass);
    QueuedSame(w.c.(calls := w.c.calls + [a]), w.c, Next(w, Enqueue(a, bypass)).c, a, bypass);
  }

  lemma {:induction false} FreeInRange(w: World)
    requires Reachable(w)
    ensures w.c.freeVec != [] ==> w.c.freeVec[|w.c.freeVec| - 1] < kSessionReqWindow
  {
    ReachableOk(w);
  }

  /** Whether a request was begun does not depend on the record of calls. */
  lemma {:induction false} QueuedSame(s: Client, t: Client, r: Client, a: Args, bypass: bool)
    requires t == s.(calls := t.calls) && Begun(s, r, a, bypass)
    ensures Begun(t, r, a, bypass)
  {
  }

  /** How a client that is given a request goes on. */
  predicate Begun(s: Client, r: Client, a: Args, bypass: bool) {
    && r.stage == s.stage && r.tsc == s.tsc
    && if s.freeVec == [] then
      && r.backlog == s.backlog + [a] && r.slots == s.slots && r.credits == s.credits && r.batch == s.batch
      && r.wheel == s.wheel && r.stallq == s.stallq && r.active == s.active && r.freeVec == [] && r.started == s.started
    else
      var i := s.freeVec[|s.freeVec| - 1];
      && i < |s.slots| == |r.slots| && r.slots == s.slots[i := r.slots[i]] && r.freeVec == s.freeVec[..|s.freeVec| - 1]
      && r.active == s.active + [i] && r.started == s.started + [a] && r.backlog == s.backlog
      && var k := Min(s.credits, ReqPkts(a));
      && r.credits == s.credits - k && Carries(s.slots[i], r.slots[i], a, k, s.tsc)
      && ReqsQueued(s, r, i, 0, k, bypass) && r.stallq == if s.credits == 0 then s.stallq + [i] else s.stallq
  }

  lemma {:induction false} StartsLast(s: Client, a: Args, bypass: bool)
    requires WellSized(s) && (s.freeVec != [] ==> s.freeVec[|s.freeVec| - 1] < |s.slots|)
    ensures Begun(s, EnqueueRequest(s, a, bypass), a, bypass) && EnqueueRequest(s, a, bypass).calls == s.calls
  {
    hide Messages.NumPkts, KickReq;
    if s.freeVec != [] && s.credits > 0 {
      var i := s.freeVec[|s.freeVec| - 1];
      var s1 := s.(freeVec := s.freeVec[..|s.freeVec| - 1], slots := s.slots[i := Started(s.slots[i], a, s.tsc)],
                   active := s.active + [i], started := s.started + [a]);
      KickReqQueues(s1, i, bypass);
    }
  }

  /** The response packet that acknowledges the last packet of all completes the request: its continuation gets the
      handler's response, the slot is free, and the first request of the backlog, if any, starts in it with the credit
      that came back. */
  lemma {:induction false} LastCompletes(w: World, p: Pkt, bypass: bool)
    requires Reachable(w) && SizedWorld(w) && p.Resp? && Enabled(w, ClientRx(p, bypass)) && AcksNext(w, p)
    requires var i := SlotOf(p.num);
             p.num in w.s.slots[i].resps && w.c.slots[i].tx.Some?
             && w.c.slots[i].numRx + 1 == Total(w.c.slots[i].tx.value, w.s.slots[i].resps[p.num])
    ensures var i, v := SlotOf(p.num), Next(w, ClientRx(p, bypass));
            v == w.(c := v.c) && Ended(w.c, v.c, i, Done(p.num, w.s.slots[i].resps[p.num]), bypass)
  {
    hide SlotInvariant.SlotInv, Session.Reachable, InOrder, AcksNext, Messages.NumPkts, Complete, CopyData, Ended;
    hide Datapath.EnqueueRequest, Datapath.ProcessResp, SlotOf, KickRfr;
    var i := SlotOf(p.num);
    RespBelongs(w, p);
    var c1 := LastSlot(w, p, bypass);
    ReachableOk(w);
    BacklogMeansFull(w);
    CompletesSlot(w.c, w.c.(credits := w.c.credits + 1, slots := w.c.slots[i := c1]), i, bypass);
  }

  /** The slot when the last response packet has been copied, before the request completes. */
  lemma {:induction false} LastSlot(w: World, p: Pkt, bypass: bool) returns (c1: ClientSlot)
    requires Reachable(w) && SizedWorld(w) && p.Resp? && Enabled(w, ClientRx(p, bypass)) && AcksNext(w, p)
    requires var i := SlotOf(p.num);
             p.num in w.s.slots[i].resps && w.c.slots[i].tx.Some?
             && w.c.slots[i].numRx + 1 == Total(w.c.slots[i].tx.value, w.s.slots[i].resps[p.num])
    ensures var i := SlotOf(p.num);
            && |c1.inWheel| == kSessionCredits && c1.cur == p.num && c1.sent == w.c.slots[i].sent
            && c1.done == w.c.slots[i].done
            && c1.respBuf[..Min(c1.respSize, |c1.respBuf|)] == w.s.slots[i].resps[p.num]
            && Next(w, ClientRx(p, bypass)) ==
               w.(c := Complete(w.c.(credits := w.c.credits + 1, slots := w.c.slots[i := c1]), i, bypass))
  {
    hide SlotInvariant.SlotInv, Session.Reachable, AcksNext, Messages.NumPkts, Complete, CopyData;
    hide Datapath.EnqueueRequest, SlotOf, KickRfr, InOrder;
    var i := SlotOf(p.num);
    var c := w.c.slots[i];
    RespBelongs(w, p);
    NumPktsOne(p.size);
    hide Datapath.ProcessResp;
    if p.size <= kMaxDataPerPkt {
      c1 := c.(numRx := c.numRx + 1, progress := w.c.tsc, respSize := p.size, respHdr := p.num,
               respBuf := WriteAt(c.respBuf, 0, p.data));
      OnlyChunk(w, p);
      WholeChunk(w.s.slots[i].tx.value, p, c.respBuf);
      SmallOutcome(w.c, i, p, bypass);
    } else {
      CopiedSlot(w, p);
      ClientSteps.RespOutcome(w.c, i, p, bypass);
      hide Copied;
      c1 := Copied(c, p, w.c.tsc);
      HoldsAll(c1.respBuf, w.s.slots[i].tx.value);
    }
  }

  lemma {:induction false} OnlyChunk(w: World, p: Pkt)
    requires Reachable(w) && SizedWorld(w) && p.Resp? && p in w.net[SlotOf(p.num)] && AcksNext(w, p)
    requires p.size <= kMaxDataPerPkt
    ensures var i := SlotOf(p.num);
            && w.s.slots[i].tx.Some? && p.data == Chunk(w.s.slots[i].tx.value, 0)
            && p.size == |w.s.slots[i].tx.value| <= |w.c.slots[i].respBuf| && |w.c.slots[i].inWheel| == kSessionCredits
  {
    hide SlotInvariant.SlotInv, Session.Reachable, InOrder, AcksNext, Messages.NumPkts, Messages.Chunk, SlotOf;
    var i := SlotOf(p.num);
    RespBelongs(w, p);
    ReachableSlot(w, i);
    RespInOrder(i, ViewOf(w, i), p);
    NumPktsOne(p.size);
  }

  lemma {:induction false} SmallOutcome(s: Client, i: nat, p: Pkt, bypass: bool)
    requires WellSized(s) && i < |s.slots| && p.Resp? && InOrder(s.slots[i], p) && s.slots[i].tx.Some?
    requires p.size <= kMaxDataPerPkt
    ensures var c := s.slots[i];
            var c1 := c.(numRx := c.numRx + 1, progress := s.tsc, respSize := p.size, respHdr := p.num,
                         respBuf := WriteAt(c.respBuf, 0, p.data));
            ProcessResp(s, i, p, bypass) ==
            Complete(s.(credits := s.credits + 1, slots := s.slots[i := c1]), i, bypass)
  {
    hide Complete, InOrder, WriteAt;
    var c := s.slots[i];
    var c1 := c.(numRx := c.numRx + 1, progress := s.tsc, respSize := p.size, respHdr := p.num,
                 respBuf := WriteAt(c.respBuf, 0, p.data));
    assert Acked(s, i).slots[i := c1] == s.slots[i := c1];
  }

  lemma {:induction false} WholeChunk(d: Bytes, p: Pkt, buf: Bytes)
    requires p.Resp? && p.size == |d| <= kMaxDataPerPkt && p.data == Chunk(d, 0) && |d| <= |buf|
    ensures WriteAt(buf, 0, p.data)[..Min(p.size, |WriteAt(buf, 0, p.data)|)] == d
  {
  }

  /** How a client goes on when a request in slot `i` is done. */
  predicate Ended(s: Client, r: Client, i: nat, d: Done, bypass: bool) {
    && i < |s.slots| == |r.slots| && r.slots == s.slots[i := r.slots[i]] && r.stage == s.stage && r.tsc == s.tsc
    && r.slots[i].done == s.slots[i].done + [d] && r.stallq == s.stallq && r.calls == s.calls
    && if s.backlog == [] then
      && r.slots[i].tx.None? && r.freeVec == s.freeVec + [i] && i !in r.active && r.credits == s.credits + 1
      && r.batch == s.batch && r.wheel == s.wheel && r.backlog == [] && r.started == s.started
      && r.slots[i].sent == s.slots[i].sent
    else
      var a := s.backlog[0];
      var k := Min(s.credits + 1, ReqPkts(a));
      && r.freeVec == [] && i in r.active && r.credits == s.credits + 1 - k && r.backlog == s.backlog[1..]
      && r.started == s.started + [a] && ReqsQueued(s, r, i, 0, k, bypass)
      && r.slots[i].cur == d.num + kSessionReqWindow && r.slots[i].tx == Some(a) && r.slots[i].numTx == k
      && r.slots[i].numRx == 0 && r.slots[i].sent == s.slots[i].sent[r.slots[i].cur := a]
  }

  lemma {:induction false} BacklogMeansFull(w: World)
    requires SizedWorld(w) && SessionInv(w)
    ensures Distinct(w.c.active) && (w.c.backlog != [] ==> w.c.freeVec == [])
  {
  }

  lemma {:induction false} CompletesSlot(s: Client, s1: Client, i: nat, bypass: bool)
    requires WellSized(s) && WellSized(s1) && Distinct(s.active) && (s.backlog != [] ==> s.freeVec == [])
    requires i < kSessionReqWindow && s1 == s.(credits := s.credits + 1, slots := s.slots[i := s1.slots[i]])
    requires s1.slots[i].done == s.slots[i].done && s1.slots[i].sent == s.slots[i].sent
    ensures var c1 := s1.slots[i];
            Ended(s, Complete(s1, i, bypass), i, Done(c1.cur, c1.respBuf[..Min(c1.respSize, |c1.respBuf|)]), bypass)
  {
    hide Messages.NumPkts, EnqueueRequest, Without, Sequences.Distinct;
    var c1 := s1.slots[i];
    var d := Done(c1.cur, c1.respBuf[..Min(c1.respSize, |c1.respBuf|)]);
    var s2 := s1.(slots := s1.slots[i := c1.(tx := None, done := c1.done + [d])], active := Without(s1.active, i),
                  freeVec := s1.freeVec + [i]);
    WithoutGone(s.active, i);
    var r := Complete(s1, i, bypass);
    if s2.backlog != [] {
      assert s2.freeVec == [i];
      StartsLast(s2.(backlog := s2.backlog[1..]), s2.backlog[0], bypass);
      assert r.active == s2.active + [i];
    }
    assert r.slots == s.slots[i := r.slots[i]];
  }

  lemma {:induction false} WithoutGone(q: seq<nat>, i: nat)
    requires Distinct(q)
    ensures i !in Without(q, i)
  {
    if q != [] && q[0] != i {
      WithoutGone(q[1..], i);
    } else if q != [] {
      assert forall k | 1 <= k < |q| :: q[k] != q[0];
    }
  }

  /** A response packet that does not acknowledge the next packet changes nothing. */
  lemma {:induction false} OthersIgnored(w: World, p: Pkt, bypass: bool)
    requires Reachable(w) && SizedWorld(w) && p.Resp? && Enabled(w, ClientRx(p, bypass)) && !AcksNext(w, p)
    ensures Next(w, ClientRx(p, bypass)) == w
  {
    hide Session.Reachable, InOrder, AcksNext;
    InOrderAcks(w, p);
  }

  // Queues

  /** The head of the stall queue leaves it, and all credits there are go to its request. */
  lemma {:induction false} UnstalledStarts(w: World, bypass: bool)
    requires Reachable(w) && SizedWorld(w) && Enabled(w, Unstalled(bypass))
    ensures var i, v := w.c.stallq[0], Next(w, Unstalled(bypass));
            && i < kSessionReqWindow && w.c.slots[i].tx.Some?
            && var c, m := w.c.slots[i], v.c;
            var k := Min(w.c.credits, ReqPkts(c.tx.value));
            && v == w.(c := m) && m.stallq == w.c.stallq[1..] && OnlySlot(w.c.(stallq := m.stallq), m, i)
            && m.stage == w.c.stage && m.credits == w.c.credits - k
            && Counts(c, m.slots[i], k, 0, c.progress) && ReqsQueued(w.c, m, i, 0, k, bypass)
  {
    hide SlotInvariant.SlotInv, Session.Reachable, Messages.NumPkts, KickReq;
    ReachableOk(w);
    HeadIdle(w);
    KickReqQueues(w.c.(stallq := w.c.stallq[1..]), w.c.stallq[0], bypass);
  }

  lemma {:induction false} HeadIdle(w: World)
    requires SizedWorld(w) && SessionInv(w) && w.c.stallq != []
    ensures var i := w.c.stallq[0];
            i < kSessionReqWindow && w.c.slots[i].tx.Some? && w.c.slots[i].numTx == w.c.slots[i].numRx == 0
  {
  }

  /** A packet leaves the wheel for the end of the TX batch. */
  lemma {:induction false} ReapedMoves(w: World, k: nat)
    requires Reachable(w) && SizedWorld(w) && Enabled(w, Reaped(k))
    ensures var e, v := w.c.wheel[k], Next(w, Reaped(k));
            var m := v.c;
            && e.slot < kSessionReqWindow && v == w.(c := m) && OnlySlot(w.c, m, e.slot) && m.credits == w.c.credits
            && m.stage == w.c.stage
            && Counts(w.c.slots[e.slot], m.slots[e.slot], w.c.slots[e.slot].numTx, w.c.slots[e.slot].numRx,
                      w.c.slots[e.slot].progress)
            && m.wheel == w.c.wheel[..k] + w.c.wheel[k + 1..]
            && m.batch == w.c.batch + [Tagged(e.slot, ReqRef(e.item))]
  {
    hide SlotInvariant.SlotInv, Session.Reachable, Messages.NumPkts, Messages.CreditIdx;
    ReachableOk(w);
    var e := w.c.wheel[k];
    OfIn(w.c.wheel, k);
    var x := ViewOf(w, e.slot);
    var y :| 0 <= y < |x.wh| && x.wh[y] == e.item;
    ReapFacts(e.slot, x, y);
  }

  /** The first item of the TX batch leaves it and its packet is on the wire: a packet of the slot's request, or the
      request-for-response that the item is. */
  lemma {:induction false} BurstSends(w: World)
    requires Reachable(w) && SizedWorld(w) && Enabled(w, ClientBurst)
    ensures var x, v := w.c.batch[0], Next(w, ClientBurst);
            && x.slot < kSessionReqWindow && v.s == w.s && v.c == w.c.(batch := w.c.batch[1..])
            && (x.item.ReqRef? ==> w.c.slots[x.slot].tx.Some?)
            && var p := if x.item.Ctl? then x.item.pkt
                        else ReqPkt(w.c.slots[x.slot].cur, w.c.slots[x.slot].tx.value, x.item.idx);
            v.net == w.net[x.slot := w.net[x.slot] + {p}]
  {
    hide SlotInvariant.SlotInv, Session.Reachable, Messages.NumPkts, SlotOf, Messages.Chunk;
    ReachableOk(w);
    var x := w.c.batch[0];
    OfTail(w.c.batch, x.slot);
    ClientItemFacts(x.slot, ViewOf(w, x.slot));
    var p := if x.item.Ctl? then x.item.pkt
             else ReqPkt(w.c.slots[x.slot].cur, w.c.slots[x.slot].tx.value, x.item.idx);
    hide Transmit;
    TransmitOne(w.net, x.slot, p);
  }

  // Loss

  /** The loss scan takes back the credits of all unacknowledged packets of a request and sends as many packets from the
      first of them on as credits and message allow. A request with packets in the wheel is left alone. */
  lemma {:induction false} LossSendsAgain(w: World, i: nat, bypass: bool)
    requires Reachable(w) && SizedWorld(w) && Enabled(w, LossDetected(i, bypass))
    ensures var c, v := w.c.slots[i], Next(w, LossDetected(i, bypass));
            var m := v.c;
            && c.tx.Some? && c.numRx < c.numTx && v == w.(c := m) && m.stage == Flush
            && if exists k :: Tagged(i, k) in w.c.wheel then m == w.c.(stage := Flush)
               else
                 && OnlySlot(w.c, m, i)
                 && var back := w.c.credits + (c.numTx - c.numRx);
                 if c.numRx < ReqPkts(c.tx.value) then
                   var k := Min(back, ReqPkts(c.tx.value) - c.numRx);
                   && m.credits == back - k && Counts(c, m.slots[i], c.numRx + k, c.numRx, w.c.tsc)
                   && ReqsQueued(w.c, m, i, c.numRx, k, bypass)
                 else
                   && w.s.slots[i].tx.Some? && c.numRx <= Total(c.tx.value, w.s.slots[i].tx.value)
                   && var k := Min(back, Total(c.tx.value, w.s.slots[i].tx.value) - c.numRx);
                   && m.credits == back - k && Counts(c, m.slots[i], c.numRx + k, c.numRx, w.c.tsc)
                   && RfrsQueued(w.c, m, i, c.cur, c.numRx, k)
  {
    hide SlotInvariant.SlotInv, Session.Reachable, Messages.NumPkts, Retransmit;
    hide OnlySlot, Counts, ReqsQueued, RfrsQueued;
    ReachableSlot(w, i);
    LossFacts(w, i);
    InWheelMeans(w, i);
    RollbackQueues(w.c, i, bypass);
  }

  lemma {:induction false} LossFacts(w: World, i: nat)
    requires SizedWorld(w) && i < kSessionReqWindow && SlotInv(i, ViewOf(w, i))
    requires w.c.slots[i].numTx != w.c.slots[i].numRx
    ensures var c, v := w.c.slots[i], w.s.slots[i];
            && c.tx.Some? && c.numRx < c.numTx
            && (c.numRx >= ReqPkts(c.tx.value) ==>
                 v.tx.Some? && c.respHdr == c.cur && c.numRx <= WirePkts(c) == Total(c.tx.value, v.tx.value))
  {
    hide SlotInvariant.SlotInv, Messages.NumPkts;
    SlotBounds(i, ViewOf(w, i));
    Counters(i, ViewOf(w, i));
  }

  /** A rollback, on the client alone. */
  lemma {:induction false} RollbackQueues(s: Client, i: nat, bypass: bool)
    requires WellSized(s) && i < |s.slots| && s.slots[i].tx.Some? && s.slots[i].numRx < s.slots[i].numTx
    requires s.slots[i].numRx >= ReqPkts(s.slots[i].tx.value) ==>
               s.slots[i].numRx <= WirePkts(s.slots[i]) && s.slots[i].respHdr == s.slots[i].cur
    ensures var c, m := s.slots[i], Retransmit(s, i, bypass);
            && m.stage == Flush
            && if c.wheelCount > 0 then m == s.(stage := Flush)
               else
                 && OnlySlot(s, m, i)
                 && var back := s.credits + (c.numTx - c.numRx);
                 if c.numRx < ReqPkts(c.tx.value) then
                   var k := Min(back, ReqPkts(c.tx.value) - c.numRx);
                   && m.credits == back - k && Counts(c, m.slots[i], c.numRx + k, c.numRx, s.tsc)
                   && ReqsQueued(s, m, i, c.numRx, k, bypass)
                 else
                   var k := Min(back, WirePkts(c) - c.numRx);
                   && m.credits == back - k && Counts(c, m.slots[i], c.numRx + k, c.numRx, s.tsc)
                   && RfrsQueued(s, m, i, c.cur, c.numRx, k)
  {
    hide Messages.NumPkts, KickReq, KickRfr;
    var c := s.slots[i];
    if c.wheelCount == 0 {
      var s1 := s.(credits := s.credits + (c.numTx - c.numRx), stage := Flush,
                   slots := s.slots[i := c.(numTx := c.numRx, progress := s.tsc)]);
      if c.numRx < ReqPkts(c.tx.value) { KickReqQueues(s1, i, bypass); } else { KickRfrQueues(s1, i); }
    }
  }

  lemma {:induction false} InWheelMeans(w: World, i: nat)
    requires Reachable(w) && SizedWorld(w) && i < kSessionReqWindow
    ensures w.c.slots[i].wheelCount > 0 <==> exists k :: Tagged(i, k) in w.c.wheel
  {
    hide SlotInvariant.SlotInv, Session.Reachable;
    ReachableSlot(w, i);
    SlotBounds(i, ViewOf(w, i));
    var wh := Of(w.c.wheel, i);
    if wh != [] { OfMeansIn(w.c.wheel, i, wh[0]); }
    forall k | Tagged(i, k) in w.c.wheel ensures wh != [] { OfMeansIn(w.c.wheel, i, k); }
  }
}
