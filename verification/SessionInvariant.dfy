/** What always holds of a session: the slot invariant of every slot, credit accounting, and the client's queues. */
module SessionInvariant {
  import opened Options
  import opened Sequences
  import opened Arith
  import opened Messages
  import opened Datapath
  import opened Session
  import opened SlotInvariant
  import opened SharedQueues

  /** Stages at which packets may arrive before the TX batch is sent. */
  predicate Listening(g: LoopStage) {
    g.Receive? || g.Unstall? || g.Tail?
  }

  ghost function ViewOf(w: World, i: nat): View
    requires SizedWorld(w) && i < kSessionReqWindow
  {
    View(w.c.slots[i], w.s.slots[i], w.net[i],
         Of(w.c.batch, i), Of(w.s.batch, i), Of(w.c.wheel, i),
         Listening(w.c.stage), w.s.flushing)
  }

  ghost predicate TagsOk<T(!new)>(q: seq<Tagged<T>>) {
    forall k | 0 <= k < |q| :: q[k].slot < kSessionReqWindow
  }

  /** Packets sent and not acknowledged, over all slots. */
  function Outstanding(slots: seq<ClientSlot>): int {
    if slots == [] then 0
    else slots[0].numTx - slots[0].numRx + Outstanding(slots[1..])
  }

  lemma {:induction false} OutstandingUpdate(slots: seq<ClientSlot>, i: nat, c: ClientSlot)
    requires i < |slots|
    ensures Outstanding(slots[i := c]) ==
            Outstanding(slots) - (slots[i].numTx - slots[i].numRx) + (c.numTx - c.numRx)
    decreases |slots|
  {
    if i == 0 {
      assert slots[0 := c][1..] == slots[1..];
    } else {
      OutstandingUpdate(slots[1..], i - 1, c);
      assert slots[i := c][1..] == slots[1..][i - 1 := c];
    }
  }

  lemma {:induction false} OutstandingBound(slots: seq<ClientSlot>, i: nat)
    requires forall j | 0 <= j < |slots| :: slots[j].numRx <= slots[j].numTx
    requires i < |slots|
    ensures 0 <= slots[i].numTx - slots[i].numRx <= Outstanding(slots)
    decreases |slots|
  {
    if i == 0 {
      if |slots| > 1 { OutstandingBound(slots[1..], 0); }
    } else {
      OutstandingBound(slots[1..], i - 1);
    }
  }

  /** If credits are all out, some slot holds unacknowledged packets. */
  lemma {:induction false} OutstandingSome(slots: seq<ClientSlot>) returns (i: nat)
    requires Outstanding(slots) > 0
    ensures i < |slots| && slots[i].numTx > slots[i].numRx
    decreases |slots|
  {
    if slots[0].numTx > slots[0].numRx {
      i := 0;
    } else {
      var j := OutstandingSome(slots[1..]);
      i := j + 1;
    }
  }

  /** Every slot, and conservation of credits. */
  ghost predicate SlotsInv(w: World) {
    && SizedWorld(w)
    && TagsOk(w.c.batch) && TagsOk(w.c.wheel) && TagsOk(w.s.batch)
    && (forall i | 0 <= i < kSessionReqWindow :: SlotInv(i, ViewOf(w, i)))
    && w.c.credits + Outstanding(w.c.slots) == kSessionCredits
  }

  lemma {:induction false} SizedOf(w: World)
    requires SlotsInv(w)
    ensures SizedWorld(w)
  {
  }

  /** The free vector and the active list partition the slots; the backlog is used only when no slot is free. */
  ghost predicate FreeInv(s: Client)
    requires WellSized(s)
  {
    && Distinct(s.freeVec) && Distinct(s.active)
    && (forall k | 0 <= k < |s.freeVec| :: s.freeVec[k] < kSessionReqWindow)
    && (forall k | 0 <= k < |s.active| :: s.active[k] < kSessionReqWindow)
    && (forall i | 0 <= i < kSessionReqWindow :: i in s.freeVec <==> s.slots[i].tx.None?)
    && (forall i | 0 <= i < kSessionReqWindow :: i in s.active <==> s.slots[i].tx.Some?)
    && (s.backlog != [] ==> s.freeVec == [])
    && s.calls == s.started + s.backlog
  }

  /** The stall queue holds, once each, the active slots that have nothing outstanding; none of them has sent anything.
      Slot `ex` is exempt while it is being served. */
  ghost predicate StallInv(s: Client, ex: int)
    requires WellSized(s)
  {
    && Distinct(s.stallq)
    && (forall k | 0 <= k < |s.stallq| ::
          var i := s.stallq[k];
          i < kSessionReqWindow && i != ex && s.slots[i].tx.Some? && s.slots[i].numTx == s.slots[i].numRx == 0)
    && (forall i | 0 <= i < kSessionReqWindow && i != ex && s.slots[i].tx.Some? &&
                   s.slots[i].numTx == s.slots[i].numRx ::
          i in s.stallq)
  }

  ghost predicate SessionInv(w: World) {
    && SlotsInv(w)
    && FreeInv(w.c)
    && StallInv(w.c, -1)
  }

  lemma {:induction false} WindowBound(w: World, i: nat)
    requires SlotsInv(w) && i < kSessionReqWindow
    ensures w.c.slots[i].numRx <= w.c.slots[i].numTx
    ensures w.c.slots[i].numTx - w.c.slots[i].numRx + w.c.credits <= kSessionCredits
  {
    forall j | 0 <= j < kSessionReqWindow ensures w.c.slots[j].numRx <= w.c.slots[j].numTx {
      assert SlotInv(j, ViewOf(w, j));
    }
    OutstandingBound(w.c.slots, i);
  }
}
