/** The client's handlers preserve the session invariant. */
module ClientSteps {
  import opened Options
  import opened Sequences
  import opened Arith
  import opened Messages
  import opened Datapath
  import opened Session
  import opened SlotInvariant
  import opened ClientSlotSteps
  import opened SharedQueues
  import opened SessionInvariant

  /** The client changed slot `i`, its credits, and appended batch items and wheel entries for that slot. */
  ghost predicate Changed(s: Client, s': Client, i: nat, c': ClientSlot, items: seq<ClientItem>, nums: seq<nat>) {
    && WellSized(s) && i < kSessionReqWindow && |c'.inWheel| == kSessionCredits
    && s'.slots == s.slots[i := c']
    && s'.batch == s.batch + At(i, items)
    && s'.wheel == s.wheel + At(i, nums)
    && (Listening(s'.stage) ==> Listening(s.stage))
    && s'.credits + (c'.numTx - c'.numRx) == s.credits + (s.slots[i].numTx - s.slots[i].numRx)
  }

  lemma {:induction false} ChangedView(w: World, w': World, i: nat, c': ClientSlot, items: seq<ClientItem>,
                                       nums: seq<nat>, j: nat)
    requires SlotsInv(w) && Changed(w.c, w'.c, i, c', items, nums) && w'.s == w.s && w'.net == w.net
    requires j < kSessionReqWindow
    ensures SizedWorld(w')
    ensures ViewOf(w', j) ==
            if i == j then ViewOf(w, i).(c := c', cb := Of(w.c.batch, i) + items, wh := Of(w.c.wheel, i) + nums,
                                         listening := Listening(w'.c.stage))
            else ViewOf(w, j).(listening := Listening(w'.c.stage))
  {
    hide SlotInvariant.SlotInv, SessionInvariant.SlotsInv, Of, Datapath.At;
    SizedOf(w);
    OfAppend(w.c.batch, i, items, j);
    OfAppend(w.c.wheel, i, nums, j);
  }

  lemma {:induction false} ClientChange(w: World, w': World, i: nat, c': ClientSlot, items: seq<ClientItem>,
                                        nums: seq<nat>)
    requires SlotsInv(w) && Changed(w.c, w'.c, i, c', items, nums) && w'.s == w.s && w'.net == w.net
    requires SlotInv(i, ViewOf(w, i).(c := c', cb := Of(w.c.batch, i) + items, wh := Of(w.c.wheel, i) + nums,
                                      listening := Listening(w'.c.stage)))
    ensures SlotsInv(w')
  {
    hide SlotInvariant.SlotInv;
    forall j | 0 <= j < kSessionReqWindow ensures SlotInv(j, ViewOf(w', j)) {
      ChangedView(w, w', i, c', items, nums, j);
      if j != i {
        assert SlotInv(j, ViewOf(w, j));
        ListenOk(j, ViewOf(w, j), Listening(w'.c.stage));
      }
    }
    OutstandingUpdate(w.c.slots, i, c');
  }

  /** A change of slot `i` alone. */
  lemma {:induction false} SlotChange(w: World, w': World, i: nat, c': ClientSlot)
    requires SlotsInv(w) && w'.s == w.s && w'.net == w.net
    requires i < kSessionReqWindow && |c'.inWheel| == kSessionCredits
    requires w'.c.slots == w.c.slots[i := c'] && w'.c.batch == w.c.batch && w'.c.wheel == w.c.wheel
    requires w'.c.stage == w.c.stage
    requires w'.c.credits + (c'.numTx - c'.numRx) == w.c.credits + (w.c.slots[i].numTx - w.c.slots[i].numRx)
    requires SlotInv(i, ViewOf(w, i).(c := c'))
    ensures SlotsInv(w')
  {
    hide SlotInvariant.SlotInv;
    assert w.c.batch + At(i, []) == w.c.batch && w.c.wheel + At(i, []) == w.c.wheel;
    assert Of(w.c.batch, i) + [] == Of(w.c.batch, i) && Of(w.c.wheel, i) + [] == Of(w.c.wheel, i);
    ClientChange(w, w', i, c', [], []);
  }

  // ------------------------------------------------------------------ kicks --

  lemma {:induction false} KickReqSlots(w: World, i: nat, bypass: bool)
    requires SlotsInv(w) && i < kSessionReqWindow && w.c.slots[i].tx.Some? && ReqPending(w.c.slots[i])
    ensures SlotsInv(w.(c := KickReq(w.c, i, bypass)))
  {
    hide SlotInvariant.SlotInv;
    var c := w.c.slots[i];
    var k := Min(w.c.credits, ReqPkts(c.tx.value) - c.numTx);
    var w' := w.(c := KickReq(w.c, i, bypass));
    WindowBound(w, i);
    assert SlotInv(i, ViewOf(w, i));
    KickReqOk(i, ViewOf(w, i), k, bypass);
    var items := if bypass then ReqRefs(c.numTx, k) else [];
    var nums := if bypass then [] else PktNums(c.numTx, k);
    assert Of(w.c.batch, i) + [] == Of(w.c.batch, i) && Of(w.c.wheel, i) + [] == Of(w.c.wheel, i);
    assert w.c.batch + At(i, []) == w.c.batch && w.c.wheel + At(i, []) == w.c.wheel;
    ClientChange(w, w', i, Sent(c, k, bypass), items, nums);
  }

  lemma {:induction false} KickRfrSlots(w: World, i: nat)
    requires SlotsInv(w) && i < kSessionReqWindow && w.c.slots[i].tx.Some?
    requires w.c.slots[i].numRx >= ReqPkts(w.c.slots[i].tx.value) && w.c.slots[i].numTx <= WirePkts(w.c.slots[i])
    ensures SlotsInv(w.(c := KickRfr(w.c, i)))
  {
    hide SlotInvariant.SlotInv;
    var c := w.c.slots[i];
    var k := Min(w.c.credits, WirePkts(c) - c.numTx);
    WindowBound(w, i);
    assert SlotInv(i, ViewOf(w, i));
    KickRfrOk(i, ViewOf(w, i), k);
    assert Of(w.c.wheel, i) + [] == Of(w.c.wheel, i);
    assert w.c.wheel + At(i, []) == w.c.wheel;
    ClientChange(w, w.(c := KickRfr(w.c, i)), i, c.(numTx := c.numTx + k), Rfrs(c.respHdr, c.numTx, k), []);
  }

  ghost predicate SameQueues(s: Client, s': Client) {
    && s'.freeVec == s.freeVec && s'.active == s.active && s'.stallq == s.stallq
    && s'.backlog == s.backlog && s'.calls == s.calls && s'.started == s.started
  }

  /** A slot that ends up with packets outstanding needs no place in the stall queue. */
  lemma {:induction false} SchedFrame(s: Client, s': Client, i: nat, c': ClientSlot)
    requires WellSized(s) && WellSized(s') && SameQueues(s, s') && i < kSessionReqWindow
    requires s'.slots == s.slots[i := c'] && s.slots[i].tx.Some? && c'.tx.Some?
    requires FreeInv(s) && StallInv(s, i) && c'.numRx < c'.numTx
    ensures FreeInv(s') && StallInv(s', -1)
  {
  }

  lemma {:induction false} StallExempt(s: Client, i: nat)
    requires WellSized(s) && i < kSessionReqWindow && StallInv(s, -1) && s.slots[i].numTx != s.slots[i].numRx
    ensures StallInv(s, i) && i !in s.stallq
  {
  }

  /** A kick that finds a credit leaves the slot with packets outstanding. */
  lemma {:induction false} KickReqSched(s: Client, i: nat, bypass: bool)
    requires WellSized(s) && i < kSessionReqWindow && s.slots[i].tx.Some? && ReqPending(s.slots[i])
    requires FreeInv(s) && StallInv(s, i) && s.credits > 0 && s.slots[i].numRx <= s.slots[i].numTx
    ensures FreeInv(KickReq(s, i, bypass)) && StallInv(KickReq(s, i, bypass), -1)
  {
    hide SessionInvariant.FreeInv, SessionInvariant.StallInv;
    SchedFrame(s, KickReq(s, i, bypass), i, KickReq(s, i, bypass).slots[i]);
  }

  lemma {:induction false} KickRfrSched(s: Client, i: nat)
    requires WellSized(s) && i < kSessionReqWindow && s.slots[i].tx.Some?
    requires s.slots[i].numTx < WirePkts(s.slots[i])
    requires FreeInv(s) && StallInv(s, i) && s.credits > 0 && s.slots[i].numRx <= s.slots[i].numTx
    ensures FreeInv(KickRfr(s, i)) && StallInv(KickRfr(s, i), -1)
  {
    hide SessionInvariant.FreeInv, SessionInvariant.StallInv;
    SchedFrame(s, KickRfr(s, i), i, KickRfr(s, i).slots[i]);
  }

  /** What the slots' invariant reads. */
  lemma {:induction false} SlotsSame(w: World, w': World)
    requires SlotsInv(w) && w'.s == w.s && w'.net == w.net
    requires w'.c.slots == w.c.slots && w'.c.batch == w.c.batch && w'.c.wheel == w.c.wheel
    requires w'.c.stage == w.c.stage && w'.c.credits == w.c.credits
    ensures SlotsInv(w')
  {
    hide SlotInvariant.SlotInv;
    assert forall j | 0 <= j < kSessionReqWindow :: ViewOf(w', j) == ViewOf(w, j);
  }

  // -------------------------------------------------------------- requests --

  lemma {:induction false} StartSched(s: Client, s1: Client, i: nat, a: Args)
    requires WellSized(s) && WellSized(s1) && FreeInv(s) && StallInv(s, -1)
    requires s.freeVec != [] && i == s.freeVec[|s.freeVec| - 1]
    requires s1 == s.(freeVec := s.freeVec[..|s.freeVec| - 1], slots := s.slots[i := Started(s.slots[i], a, s.tsc)],
                      active := s.active + [i], started := s.started + [a], calls := s1.calls)
    requires s.backlog != [] ==> s.freeVec == []
    requires s1.calls == s1.started
    ensures s.backlog == [] && FreeInv(s1) && StallInv(s1, i)
  {
    forall j | 0 <= j < kSessionReqWindow ensures j in s1.freeVec <==> s1.slots[j].tx.None? {
      assert s.freeVec == s1.freeVec + [i];
      if j in s.freeVec {
      }
    }
    forall k | 0 <= k < |s.stallq| ensures s.stallq[k] != i {
      assert s.slots[s.stallq[k]].tx.Some?;
    }
  }

  /** `enqueue_request`: `s` already counts the call. */
  lemma {:induction false} EnqueueOk(w: World, a: Args, bypass: bool, calls: seq<Args>)
    requires SessionInv(w) && calls == w.c.calls + [a]
    ensures SessionInv(w.(c := EnqueueRequest(w.c.(calls := calls), a, bypass)))
  {
    hide SlotInvariant.SlotInv;
    var s := w.c;
    var w' := w.(c := EnqueueRequest(s.(calls := calls), a, bypass));
    if s.freeVec == [] {
      assert s.started + s.backlog + [a] == s.started + (s.backlog + [a]);
      SlotsSame(w, w');
    } else {
      var i := s.freeVec[|s.freeVec| - 1];
      assert i in s.freeVec;
      var s1 := s.(calls := calls, freeVec := s.freeVec[..|s.freeVec| - 1],
                   slots := s.slots[i := Started(s.slots[i], a, s.tsc)],
                   active := s.active + [i], started := s.started + [a]);
      StartAndKick(w, s1, i, a, bypass);
    }
  }

  lemma {:induction false} StallPush(s: Client, i: nat)
    requires WellSized(s) && i < kSessionReqWindow && StallInv(s, i)
    requires s.slots[i].tx.Some? && s.slots[i].numTx == s.slots[i].numRx == 0
    ensures StallInv(s.(stallq := s.stallq + [i]), -1)
  {
    var q := s.stallq + [i];
    assert q[|s.stallq|] == i;
    assert forall j :: j in s.stallq ==> j in q;
  }

  /** A request takes the last free slot of the vector and is kicked or stalled. */
  lemma {:induction false} StartAndKick(w: World, s1: Client, i: nat, a: Args, bypass: bool)
    requires SlotsInv(w) && FreeInv(w.c) && StallInv(w.c, -1)
    requires w.c.freeVec != [] && i == w.c.freeVec[|w.c.freeVec| - 1]
    requires i < kSessionReqWindow
    requires s1 == w.c.(freeVec := w.c.freeVec[..|w.c.freeVec| - 1],
                        slots := w.c.slots[i := Started(w.c.slots[i], a, w.c.tsc)],
                        active := w.c.active + [i], started := w.c.started + [a], calls := s1.calls)
    requires s1.calls == s1.started
    ensures WellSized(s1) && s1.slots[i].tx.Some? && ReqPending(s1.slots[i])
    ensures SessionInv(w.(c := if s1.credits > 0 then KickReq(s1, i, bypass) else s1.(stallq := s1.stallq + [i])))
  {
    hide SlotInvariant.SlotInv;
    var s := w.c;
    assert i in s.freeVec;
    var c' := Started(s.slots[i], a, s.tsc);
    SlotBounds(i, ViewOf(w, i));
    StartOk(i, ViewOf(w, i), a, s.tsc);
    SlotChange(w, w.(c := s1), i, c');
    StartSched(s, s1, i, a);
    if s1.credits > 0 {
      KickReqSlots(w.(c := s1), i, bypass);
      KickReqSched(s1, i, bypass);
    } else {
      var s2 := s1.(stallq := s1.stallq + [i]);
      SlotsSame(w.(c := s1), w.(c := s2));
      StallPush(s1, i);
    }
  }

  // ------------------------------------------------------------ credit returns --

  /** An acknowledgement leaves the queues alone; the slot is about to be served. */
  lemma {:induction false} AckSched(s: Client, s': Client, i: nat, c': ClientSlot)
    requires WellSized(s) && WellSized(s') && SameQueues(s, s') && i < kSessionReqWindow
    requires s'.slots == s.slots[i := c'] && s.slots[i].tx.Some? && c'.tx.Some?
    requires FreeInv(s) && StallInv(s, i)
    ensures FreeInv(s') && StallInv(s', i)
  {
  }

  lemma {:induction false} CrStep(w: World, p: Pkt, bypass: bool)
    requires SessionInv(w) && p.CR? && p in w.net[SlotOf(p.num)]
    ensures SessionInv(w.(c := ProcessCr(w.c, SlotOf(p.num), p, bypass)))
  {
    hide SlotInvariant.SlotInv;
    var i := SlotOf(p.num);
    var c := w.c.slots[i];
    SlotBounds(i, ViewOf(w, i));
    if InOrder(c, p) {
      CrOk(i, ViewOf(w, i), p, w.c.tsc);
      var s1 := Acked(w.c, i);
      var c1 := s1.slots[i];
      SlotChange(w, w.(c := s1), i, c1);
      StallExempt(w.c, i);
      AckSched(w.c, s1, i, c1);
      if ReqPending(c1) {
        KickReqSlots(w.(c := s1), i, bypass);
        KickReqSched(s1, i, bypass);
      } else {
        SchedFrame(s1, s1, i, c1);
      }
    }
  }

  // ------------------------------------------------------------------ responses --

  lemma {:induction false} WithoutMembers(q: seq<nat>, i: nat, j: nat)
    requires Distinct(q)
    ensures j in Without(q, i) <==> j in q && j != i
    decreases q
  {
    if q != [] {
      WithoutMembers(q[1..], i, j);
      assert q == [q[0]] + q[1..];
      assert q[0] !in q[1..];
    }
  }

  lemma {:induction false} WithoutDistinct(q: seq<nat>, i: nat)
    requires Distinct(q)
    ensures Distinct(Without(q, i))
    decreases q
  {
    if q != [] && q[0] != i {
      WithoutDistinct(q[1..], i);
      WithoutMembers(q[1..], i, q[0]);
      var r := Without(q[1..], i);
      assert q[0] !in q[1..];
      assert forall k | 0 <= k < |r| :: r[k] in r;
    }
  }

  lemma {:induction false} FinishFree(s: Client, s1: Client, i: nat, c: ClientSlot)
    requires WellSized(s) && WellSized(s1) && FreeInv(s) && i < kSessionReqWindow
    requires s.slots[i].tx.Some? && c.tx.None?
    requires s1 == s.(slots := s.slots[i := c], active := Without(s.active, i), freeVec := s.freeVec + [i])
    ensures s1.backlog == [] ==> FreeInv(s1)
    ensures s1.backlog != [] ==>
              s.freeVec == [] && FreeInv(s1.(backlog := [], calls := s1.started))
  {
    WithoutDistinct(s.active, i);
    forall j | 0 <= j < kSessionReqWindow
      ensures j in s1.active <==> s1.slots[j].tx.Some?
      ensures j in s1.freeVec <==> s1.slots[j].tx.None?
    {
      WithoutMembers(s.active, i, j);
    }
    forall k | 0 <= k < |s1.active| ensures s1.active[k] < kSessionReqWindow {
      assert s1.active[k] in s1.active;
      WithoutMembers(s.active, i, s1.active[k]);
    }
    assert i !in s.freeVec;
  }

  /** The end of `process_resp_one_st`. */
  lemma {:induction false} CompleteOk(w: World, s: Client, i: nat, bypass: bool)
    requires SessionInv(w) && i < kSessionReqWindow && WellSized(s) && w.c.slots[i].tx.Some?
    requires s == w.c.(slots := w.c.slots[i := s.slots[i]], credits := s.credits)
    requires s.credits + (s.slots[i].numTx - s.slots[i].numRx) ==
             w.c.credits + (w.c.slots[i].numTx - w.c.slots[i].numRx)
    requires SlotInv(i, ViewOf(w, i).(c := Finished(s.slots[i])))
    requires i !in w.c.stallq
    ensures SessionInv(w.(c := Complete(s, i, bypass)))
  {
    hide SlotInvariant.SlotInv;
    var c := Finished(s.slots[i]);
    var s1 := s.(slots := s.slots[i := c], active := Without(s.active, i), freeVec := s.freeVec + [i]);
    assert s1 == w.c.(slots := w.c.slots[i := c], credits := s.credits, active := s1.active, freeVec := s1.freeVec);
    SlotChange(w, w.(c := s1), i, c);
    FinishFree(w.c.(credits := s.credits), s1, i, c);
    assert StallInv(s1, -1);
    if s1.backlog != [] {
      BacklogOk(w, s1, i, bypass);
    }
  }

  /** A request waiting in the backlog takes the slot that was just freed. */
  lemma {:induction false} BacklogOk(w: World, s1: Client, i: nat, bypass: bool)
    requires SlotsInv(w.(c := s1)) && StallInv(s1, -1) && s1.backlog != [] && i < kSessionReqWindow
    requires s1.freeVec == [i] && FreeInv(s1.(backlog := [], calls := s1.started))
    requires s1.calls == s1.started + s1.backlog
    ensures SessionInv(w.(c := EnqueueRequest(s1.(backlog := s1.backlog[1..]), s1.backlog[0], bypass)))
  {
    hide SlotInvariant.SlotInv, SessionInvariant.FreeInv, SessionInvariant.Outstanding, Datapath.SetFlags;
    hide Messages.CreditIdx, Messages.NumPkts;
    var a := s1.backlog[0];
    var s2 := s1.(backlog := [], calls := s1.started);
    var w2 := w.(c := s2);
    SlotsSame(w.(c := s1), w2);
    var s3 := s2.(freeVec := s2.freeVec[..|s2.freeVec| - 1], slots := s2.slots[i := Started(s2.slots[i], a, s2.tsc)],
                  active := s2.active + [i], started := s2.started + [a], calls := s2.started + [a]);
    StartAndKick(w2, s3, i, a, bypass);
    var r := if s3.credits > 0 then KickReq(s3, i, bypass) else s3.(stallq := s3.stallq + [i]);
    var r' := EnqueueRequest(s1.(backlog := s1.backlog[1..]), a, bypass);
    assert r' == r.(backlog := s1.backlog[1..], calls := s1.calls);
    SlotsSame(w.(c := r), w.(c := r'));
    BacklogQueues(r, r', s1, a);
  }

  lemma {:induction false} BacklogQueues(r: Client, r': Client, s: Client, a: Args)
    requires WellSized(r) && FreeInv(r) && StallInv(r, -1) && s.backlog != [] && a == s.backlog[0]
    requires r' == r.(backlog := s.backlog[1..], calls := s.calls)
    requires r.freeVec == [] && r.started == s.started + [a] && s.calls == s.started + s.backlog
    ensures FreeInv(r') && StallInv(r', -1)
  {
    assert s.started + [a] + s.backlog[1..] == s.started + s.backlog;
  }

  /** What `process_resp_one_st` does with an in-order packet, step by step in the slot's terms. */
  lemma {:induction false} RespOutcome(s: Client, i: nat, p: Pkt, bypass: bool)
    requires WellSized(s) && i < |s.slots| && p.Resp? && InOrder(s.slots[i], p) && s.slots[i].tx.Some?
    requires p.size > kMaxDataPerPkt && p.pkt >= ReqPkts(s.slots[i].tx.value) - 1
    ensures var c := Copied(s.slots[i], p, s.tsc);
            var s1 := s.(credits := s.credits + 1, slots := s.slots[i := c]);
            && WellSized(s1)
            && ProcessResp(s, i, p, bypass) ==
               (var s2 := if c.numTx < WirePkts(c) then KickRfr(s1, i) else s1;
                if c.numRx != WirePkts(c) then s2 else Complete(s2, i, bypass))
  {
    hide Messages.NumPkts, Messages.CreditIdx, Messages.CopyData, Datapath.Complete;
    var c := Copied(s.slots[i], p, s.tsc);
    var s1 := s.(credits := s.credits + 1, slots := s.slots[i := c]);
    var s2 := if c.numTx < WirePkts(c) then KickRfr(s1, i) else s1;
    var t := StoreMulti(Acked(s, i), i, p);
    assert t.slots == s2.slots;
    assert t == s2;
  }

  /** A response packet that is not the last: the remaining requests-for-response go out. */
  lemma {:induction false} MoreRespStep(w: World, i: nat, p: Pkt)
    requires SessionInv(w) && p.Resp? && i == SlotOf(p.num) && p in w.net[i]
    requires InOrder(w.c.slots[i], p) && p.size > kMaxDataPerPkt && w.c.slots[i].tx.Some?
    requires var c := Copied(w.c.slots[i], p, w.c.tsc); c.numRx != WirePkts(c)
    ensures var c := Copied(w.c.slots[i], p, w.c.tsc);
            var s1 := w.c.(credits := w.c.credits + 1, slots := w.c.slots[i := c]);
            && WellSized(s1)
            && SessionInv(w.(c := if c.numTx < WirePkts(c) then KickRfr(s1, i) else s1))
  {
    hide SlotInvariant.SlotInv;
    hide SessionInvariant.FreeInv, SessionInvariant.StallInv;
    var x := ViewOf(w, i);
    assert SlotInv(i, x);
    RespMoreOk(i, x, p, w.c.tsc);
    SlotBounds(i, x);
    var c := Copied(x.c, p, w.c.tsc);
    var s1 := w.c.(credits := w.c.credits + 1, slots := w.c.slots[i := c]);
    StallExempt(w.c, i);
    SlotChange(w, w.(c := s1), i, c);
    AckSched(w.c, s1, i, c);
    if c.numTx < WirePkts(c) {
      KickRfrSlots(w.(c := s1), i);
      KickRfrSched(s1, i);
    } else {
      SchedFrame(s1, s1, i, c);
    }
  }

  /** The last response packet. */
  lemma {:induction false} LastRespStep(w: World, i: nat, p: Pkt, bypass: bool)
    requires SessionInv(w) && p.Resp? && i == SlotOf(p.num) && p in w.net[i] && w.c.stage.Receive?
    requires InOrder(w.c.slots[i], p) && p.size > kMaxDataPerPkt && w.c.slots[i].tx.Some?
    requires var c := Copied(w.c.slots[i], p, w.c.tsc); c.numRx == WirePkts(c)
    ensures var c := Copied(w.c.slots[i], p, w.c.tsc);
            var s1 := w.c.(credits := w.c.credits + 1, slots := w.c.slots[i := c]);
            && WellSized(s1)
            && SessionInv(w.(c := Complete(s1, i, bypass)))
  {
    hide SlotInvariant.SlotInv;
    hide SessionInvariant.FreeInv, SessionInvariant.StallInv;
    assert SlotInv(i, ViewOf(w, i));
    RespLastOk(i, ViewOf(w, i), p, w.c.tsc);
    StallExempt(w.c, i);
    var c := Copied(w.c.slots[i], p, w.c.tsc);
    CompleteOk(w, w.c.(credits := w.c.credits + 1, slots := w.c.slots[i := c]), i, bypass);
  }

  lemma {:induction false} MultiRespStep(w: World, i: nat, p: Pkt, bypass: bool)
    requires SessionInv(w) && p.Resp? && i == SlotOf(p.num) && p in w.net[i] && w.c.stage.Receive?
    requires InOrder(w.c.slots[i], p) && p.size > kMaxDataPerPkt
    ensures SessionInv(w.(c := ProcessResp(w.c, i, p, bypass)))
  {
    hide SlotInvariant.SlotInv;
    hide SessionInvariant.FreeInv, SessionInvariant.StallInv;
    hide Datapath.Complete, Datapath.ProcessResp, Datapath.KickRfr;
    assert SlotInv(i, ViewOf(w, i));
    SlotBounds(i, ViewOf(w, i));
    RespInOrder(i, ViewOf(w, i), p);
    RespMoreOk(i, ViewOf(w, i), p, w.c.tsc);
    RespOutcome(w.c, i, p, bypass);
    var c := Copied(w.c.slots[i], p, w.c.tsc);
    if c.numRx != WirePkts(c) {
      MoreRespStep(w, i, p);
    } else {
      LastRespStep(w, i, p, bypass);
    }
  }

  lemma {:induction false} RespStep(w: World, p: Pkt, bypass: bool)
    requires SessionInv(w) && p.Resp? && p in w.net[SlotOf(p.num)] && w.c.stage.Receive?
    ensures SessionInv(w.(c := ProcessResp(w.c, SlotOf(p.num), p, bypass)))
  {
    hide SlotInvariant.SlotInv;
    var i := SlotOf(p.num);
    if InOrder(w.c.slots[i], p) {
      if p.size > kMaxDataPerPkt {
        MultiRespStep(w, i, p, bypass);
      } else {
        SingleRespStep(w, i, p, bypass);
      }
    }
  }

  lemma {:induction false} SingleRespStep(w: World, i: nat, p: Pkt, bypass: bool)
    requires SessionInv(w) && p.Resp? && i == SlotOf(p.num) && p in w.net[i] && w.c.stage.Receive?
    requires InOrder(w.c.slots[i], p) && p.size <= kMaxDataPerPkt
    ensures SessionInv(w.(c := ProcessResp(w.c, i, p, bypass)))
  {
    hide SlotInvariant.SlotInv;
    var x := ViewOf(w, i);
    assert SlotInv(i, x);
    RespInOrder(i, x, p);
    RespSingleOk(i, x, p, w.c.tsc);
    StallExempt(w.c, i);
    var s1 := Acked(w.c, i);
    var c1 := s1.slots[i].(respSize := p.size, respHdr := p.num, respBuf := WriteAt(s1.slots[i].respBuf, 0, p.data));
    CompleteOk(w, s1.(slots := s1.slots[i := c1]), i, bypass);
  }

  // -------------------------------------------------------- queues and the wheel --

  /** The head of the stall queue leaves it to be served. */
  lemma {:induction false} StallPop(s: Client)
    requires WellSized(s) && FreeInv(s) && StallInv(s, -1) && s.stallq != []
    ensures var i, s1 := s.stallq[0], s.(stallq := s.stallq[1..]);
            && i < kSessionReqWindow && s.slots[i].tx.Some? && s.slots[i].numTx == s.slots[i].numRx == 0
            && FreeInv(s1) && StallInv(s1, i)
  {
    assert s.stallq == [s.stallq[0]] + s.stallq[1..];
  }

  lemma {:induction false} UnstallStep(w: World, bypass: bool)
    requires SessionInv(w) && w.c.stallq != [] && w.c.credits > 0
    ensures SessionInv(w.(c := KickStalled(w.c, bypass)))
  {
    hide SessionInvariant.SlotsInv, SessionInvariant.FreeInv, SessionInvariant.StallInv, KickReq;
    var i := w.c.stallq[0];
    var s1 := w.c.(stallq := w.c.stallq[1..]);
    SizedOf(w);
    StallPop(w.c);
    var w1 := w.(c := s1);
    SlotsSame(w, w1);
    KickReqSlots(w1, i, bypass);
    KickReqSched(s1, i, bypass);
  }

  /** The slot that a retransmission rolls back. */
  ghost predicate RollsBack(c: ClientSlot) {
    c.tx.Some? && c.numRx < c.numTx && c.wheelCount == 0
  }

  /** What a rollback sends: at least as far as before, and at most what credits and the message allow. */
  lemma {:induction false} RetransmitReqStep(w: World, i: nat, bypass: bool)
    requires SessionInv(w) && i < kSessionReqWindow && RollsBack(w.c.slots[i])
    requires w.c.slots[i].numRx < ReqPkts(w.c.slots[i].tx.value)
    ensures SessionInv(w.(c := Retransmit(w.c, i, bypass)))
  {
    hide SlotInvariant.SlotInv;
    hide SessionInvariant.FreeInv, SessionInvariant.StallInv;
    var x, c := ViewOf(w, i), w.c.slots[i];
    var w' := w.(c := Retransmit(w.c, i, bypass));
    SlotBounds(i, x);
    WindowBound(w, i);
    var k := Min(w.c.credits + (c.numTx - c.numRx), ReqPkts(c.tx.value) - c.numRx);
    RetransmitReqOk(i, x, k, bypass, w.c.tsc);
    var c' := Sent(c.(numTx := c.numRx, progress := w.c.tsc), k, bypass);
    var items := if bypass then ReqRefs(c.numRx, k) else [];
    var nums := if bypass then [] else PktNums(c.numRx, k);
    assert w'.c.slots == w.c.slots[i := c'];
    assert Of(w.c.batch, i) + [] == Of(w.c.batch, i) && Of(w.c.wheel, i) + [] == Of(w.c.wheel, i);
    assert w.c.batch + At(i, []) == w.c.batch && w.c.wheel + At(i, []) == w.c.wheel;
    ClientChange(w, w', i, c', items, nums);
    StallExempt(w.c, i);
    SchedFrame(w.c, w'.c, i, c');
  }

  lemma {:induction false} RetransmitRfrStep(w: World, i: nat, bypass: bool)
    requires SessionInv(w) && i < kSessionReqWindow && RollsBack(w.c.slots[i])
    requires w.c.slots[i].numRx >= ReqPkts(w.c.slots[i].tx.value)
    ensures SessionInv(w.(c := Retransmit(w.c, i, bypass)))
  {
    hide SlotInvariant.SlotInv;
    hide SessionInvariant.FreeInv, SessionInvariant.StallInv;
    var x, c := ViewOf(w, i), w.c.slots[i];
    var w' := w.(c := Retransmit(w.c, i, bypass));
    SlotBounds(i, x);
    WindowBound(w, i);
    var k := Min(w.c.credits + (c.numTx - c.numRx), WirePkts(c) - c.numRx);
    RetransmitRfrOk(i, x, k, w.c.tsc);
    var c' := c.(numTx := c.numRx + k, progress := w.c.tsc);
    assert w'.c.slots == w.c.slots[i := c'];
    assert Of(w.c.wheel, i) + [] == Of(w.c.wheel, i);
    assert w.c.wheel + At(i, []) == w.c.wheel;
    ClientChange(w, w', i, c', Rfrs(c.respHdr, c.numRx, k), []);
    StallExempt(w.c, i);
    SchedFrame(w.c, w'.c, i, c');
  }

  lemma {:induction false} RetransmitStep(w: World, i: nat, bypass: bool)
    requires SessionInv(w) && i < kSessionReqWindow
    ensures SessionInv(w.(c := Retransmit(w.c, i, bypass)))
  {
    hide SlotInvariant.SlotInv;
    var c := w.c.slots[i];
    if !RollsBack(c) {
      StageStep(w, Flush);
    } else if c.numRx < ReqPkts(c.tx.value) {
      RetransmitReqStep(w, i, bypass);
    } else {
      RetransmitRfrStep(w, i, bypass);
    }
  }

  /** The event loop may move to any stage, except to one that listens while the batch holds items sent before. */
  lemma {:induction false} StageStep(w: World, g: LoopStage)
    requires SessionInv(w) && (Listening(g) ==> Listening(w.c.stage) || w.c.batch == [])
    ensures SessionInv(w.(c := w.c.(stage := g)))
  {
    hide SlotInvariant.SlotInv;
    var w' := w.(c := w.c.(stage := g));
    forall j | 0 <= j < kSessionReqWindow ensures SlotInv(j, ViewOf(w', j)) {
      assert SlotInv(j, ViewOf(w, j));
      ListenOk(j, ViewOf(w, j), Listening(g));
    }
  }

  /** The slot of a reaped packet. */
  lemma {:induction false} ReapSlot(w: World, k: nat)
    requires SlotsInv(w) && k < |w.c.wheel|
    ensures var e := w.c.wheel[k];
            && w.c.slots[e.slot].tx.Some? && e.item < ReqPkts(w.c.slots[e.slot].tx.value)
            && w.c.slots[e.slot].wheelCount > 0
    ensures var e := w.c.wheel[k];
            var x, p := ViewOf(w, e.slot), |Of(w.c.wheel[..k], e.slot)|;
            && p < |x.wh|
            && SlotInv(e.slot, x.(c := x.c.(wheelCount := x.c.wheelCount - 1,
                                            inWheel := x.c.inWheel[CreditIdx(e.item) := false]),
                                  wh := x.wh[..p] + x.wh[p + 1..], cb := x.cb + [ReqRef(e.item)], listening := false))
  {
    hide SlotInvariant.SlotInv, SharedQueues.Of, SessionInvariant.Outstanding, Messages.CreditIdx, Messages.NumPkts;
    var e := w.c.wheel[k];
    var x, p := ViewOf(w, e.slot), |Of(w.c.wheel[..k], e.slot)|;
    SlotBounds(e.slot, x);
    OfRemove(w.c.wheel, k, e.slot);
    assert x.wh[p] == e.item;
    ReapOk(e.slot, x, p);
  }

  lemma {:induction false} ReapView(w: World, w': World, k: nat, j: nat, c': ClientSlot)
    requires SizedWorld(w) && TagsOk(w.c.wheel) && k < |w.c.wheel| && w.c.stage.Reap?
    requires j < kSessionReqWindow && |c'.inWheel| == kSessionCredits
    requires var e := w.c.wheel[k];
             w' == w.(c := w.c.(wheel := w.c.wheel[..k] + w.c.wheel[k + 1..], slots := w.c.slots[e.slot := c'],
                                batch := w.c.batch + At(e.slot, [ReqRef(e.item)])))
    ensures SizedWorld(w')
    ensures var e := w.c.wheel[k];
            var x, p := ViewOf(w, j), |Of(w.c.wheel[..k], e.slot)|;
            && (e.slot == j ==> p < |x.wh|)
            && ViewOf(w', j) == if e.slot == j
                                then x.(c := c', wh := x.wh[..p] + x.wh[p + 1..], cb := x.cb + [ReqRef(e.item)])
                                else x
  {
    hide SlotInvariant.SlotInv, SharedQueues.Of, Messages.CreditIdx, Messages.NumPkts;
    OfRemove(w.c.wheel, k, j);
    OfAppend(w.c.batch, w.c.wheel[k].slot, [ReqRef(w.c.wheel[k].item)], j);
  }

  lemma {:induction false} ReapStep(w: World, k: nat)
    requires SessionInv(w) && k < |w.c.wheel| && w.c.stage.Reap?
    ensures SessionInv(w.(c := ReapOne(w.c, k)))
  {
    hide SlotInvariant.SlotInv, SessionInvariant.SlotsInv, SessionInvariant.FreeInv, SessionInvariant.StallInv;
    SizedOf(w);
    ReapSlot(w, k);
    ReapSlots(w, k);
    ReapQueues(w.c, k);
  }

  lemma {:induction false} ReapSlots(w: World, k: nat)
    requires SlotsInv(w) && k < |w.c.wheel| && w.c.stage.Reap?
    ensures SlotsInv(w.(c := ReapOne(w.c, k)))
  {
    hide SlotInvariant.SlotInv;
    var e, w' := w.c.wheel[k], w.(c := ReapOne(w.c, k));
    ReapSlot(w, k);
    var c' := w'.c.slots[e.slot];
    forall j | 0 <= j < kSessionReqWindow ensures SlotInv(j, ViewOf(w', j)) {
      assert SlotInv(j, ViewOf(w, j));
      ReapView(w, w', k, j, c');
    }
    OutstandingUpdate(w.c.slots, e.slot, c');
  }

  lemma {:induction false} ReapQueues(s: Client, k: nat)
    requires WellSized(s) && k < |s.wheel| && FreeInv(s) && StallInv(s, -1)
    ensures FreeInv(ReapOne(s, k)) && StallInv(ReapOne(s, k), -1)
  {
  }
}
