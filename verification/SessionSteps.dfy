/** Every step of a session preserves the session invariant, so it holds in every reachable world. */
module SessionSteps {
  import opened Options
  import opened Arith
  import opened Messages
  import opened Datapath
  import opened Session
  import opened SlotInvariant
  import opened ClientSlotSteps
  import opened ServerSlotSteps
  import opened SharedQueues
  import opened SessionInvariant
  import opened ClientSteps

  // ------------------------------------------------------------ client's batch --

  lemma {:induction false} TransmitLane(net: seq<set<Pkt>>, p: Pkt, j: nat)
    requires |net| == kSessionReqWindow && j < |net|
    ensures Transmit(net, {p})[j] == if SlotOf(p.num) == j then net[j] + {p} else net[j]
  {
  }

  lemma {:induction false} ClientBurstStep(w: World)
    requires SessionInv(w) && w.c.batch != []
    ensures SessionInv(Next(w, ClientBurst))
  {
    hide SlotInvariant.SlotInv, SessionInvariant.FreeInv, SessionInvariant.StallInv;
    ClientBurstSlots(w);
    BurstQueues(w.c, Next(w, ClientBurst).c);
  }

  lemma {:induction false} BurstQueues(s: Client, s': Client)
    requires WellSized(s) && FreeInv(s) && StallInv(s, -1) && s' == s.(batch := s'.batch, stage := s'.stage)
    ensures FreeInv(s') && StallInv(s', -1)
  {
  }

  lemma {:induction false} ClientBurstSlots(w: World)
    requires SlotsInv(w) && w.c.batch != []
    ensures SlotsInv(Next(w, ClientBurst))
  {
    hide SlotInvariant.SlotInv;
    var e, w' := w.c.batch[0], Next(w, ClientBurst);
    var i := e.slot;
    var x := ViewOf(w, i);
    OfTail(w.c.batch, i);
    ClientItemFacts(i, x);
    ClientEmitOk(i, x);
    var p := if e.item.Ctl? then e.item.pkt else ReqPkt(x.c.cur, x.c.tx.value, e.item.idx);
    assert ClientEmit(w.c, e) == {p};
    forall j | 0 <= j < kSessionReqWindow ensures SlotInv(j, ViewOf(w', j)) {
      assert SlotInv(j, ViewOf(w, j));
      TransmitLane(w.net, p, j);
      OfTail(w.c.batch, j);
      assert ViewOf(w', j) == if i == j then x.(cb := x.cb[1..], net := x.net + {p}) else ViewOf(w, j);
    }
  }

  // -------------------------------------------------------------------- server --

  lemma {:induction false} ServerView(w: World, w': World, i: nat, v: ServerSlot, items: seq<ServerItem>,
                                      drain: bool, j: nat)
    requires SizedWorld(w) && i < kSessionReqWindow && j < kSessionReqWindow
    requires w' == w.(s := Server(w.s.slots[i := v], w.s.batch + At(i, items), drain))
    ensures SizedWorld(w')
    ensures ViewOf(w', j) ==
            if i == j then ViewOf(w, i).(v := v, sb := Of(w.s.batch, i) + items, flushing := drain)
            else ViewOf(w, j).(flushing := drain)
  {
    OfAppend(w.s.batch, i, items, j);
  }

  lemma {:induction false} ServerChange(w: World, w': World, i: nat, v: ServerSlot, items: seq<ServerItem>, drain: bool)
    requires SessionInv(w) && i < kSessionReqWindow && !w.s.flushing
    requires w' == w.(s := Server(w.s.slots[i := v], w.s.batch + At(i, items), drain))
    requires SlotInv(i, ViewOf(w, i).(v := v, sb := Of(w.s.batch, i) + items, flushing := drain))
    ensures SessionInv(w')
  {
    hide SlotInvariant.SlotInv;
    forall j | 0 <= j < kSessionReqWindow ensures SlotInv(j, ViewOf(w', j)) {
      ServerView(w, w', i, v, items, drain, j);
      if j != i {
        assert SlotInv(j, ViewOf(w, j));
        FlushingOk(j, ViewOf(w, j), drain);
      }
    }
  }

  lemma {:induction false} ServerRxStep(w: World, p: Pkt, mem: Option<Bytes>)
    requires SessionInv(w) && Enabled(w, ServerRx(p, mem))
    ensures SessionInv(Next(w, ServerRx(p, mem)))
  {
    hide SlotInvariant.SlotInv;
    var i := SlotOf(p.num);
    assert SlotInv(i, ViewOf(w, i));
    ReceiveOk(i, ViewOf(w, i), p, mem);
    var o := ServerReceive(w.s.slots[i], p, mem);
    ServerChange(w, Next(w, ServerRx(p, mem)), i, o.v, o.items, o.drain);
  }

  lemma {:induction false} RespondStep(w: World, i: nat, d: Bytes)
    requires SessionInv(w) && Enabled(w, Respond(i, d))
    ensures SessionInv(Next(w, Respond(i, d)))
  {
    hide SlotInvariant.SlotInv;
    assert SlotInv(i, ViewOf(w, i));
    RespondOk(i, ViewOf(w, i), d);
    ServerChange(w, Next(w, Respond(i, d)), i, Responded(w.s.slots[i], d), [RespRef(0)], false);
  }

  lemma {:induction false} ServerBurstStep(w: World)
    requires SessionInv(w) && w.s.batch != []
    ensures SessionInv(Next(w, ServerBurst))
  {
    hide SlotInvariant.SlotInv, SessionInvariant.FreeInv, SessionInvariant.StallInv, SessionInvariant.Outstanding;
    var e, w' := w.s.batch[0], Next(w, ServerBurst);
    var i := e.slot;
    var x := ViewOf(w, i);
    OfTail(w.s.batch, i);
    ServerItemFacts(i, x);
    ServerEmitOk(i, x, w'.s.flushing);
    var p := if e.item.SCtl? then e.item.pkt else RespPkt(x.v.cur, x.v.savReqPkts, x.v.tx.value, e.item.idx);
    assert ServerEmit(w.s, e) == {p};
    forall j | 0 <= j < kSessionReqWindow ensures SlotInv(j, ViewOf(w', j)) {
      assert SlotInv(j, ViewOf(w, j));
      TransmitLane(w.net, p, j);
      OfTail(w.s.batch, j);
      if j != i { FlushingOk(j, ViewOf(w, j), w'.s.flushing); }
      assert ViewOf(w', j) == if i == j then x.(sb := x.sb[1..], flushing := w'.s.flushing, net := x.net + {p})
                              else ViewOf(w, j).(flushing := w'.s.flushing);
    }
  }

  // ------------------------------------------------------------------ all steps --

  lemma {:induction false} TickStep(w: World, t: nat)
    requires SessionInv(w)
    ensures SessionInv(w.(c := w.c.(tsc := t)))
  {
    hide SlotInvariant.SlotInv;
    SlotsSame(w, w.(c := w.c.(tsc := t)));
  }

  lemma {:induction false} StepOk(w: World, step: Step)
    requires SessionInv(w) && Enabled(w, step)
    ensures SessionInv(Next(w, step))
  {
    hide SessionInvariant.SlotsInv, SessionInvariant.FreeInv, SessionInvariant.StallInv;
    assert SizedWorld(w) by { assert SlotsInv(w); SlotsSized(w); }
    match step {
      case Enqueue(a, bypass) => EnqueueOk(w, a, bypass, w.c.calls + [a]);
      case ClientRx(p, bypass) =>
        if p.CR? { CrStep(w, p, bypass); } else { RespStep(w, p, bypass); }
      case Unstalled(bypass) => UnstallStep(w, bypass);
      case Reaped(k) => ReapStep(w, k);
      case ClientBurst => ClientBurstStep(w);
      case LossDetected(i, bypass) => RetransmitStep(w, i, bypass);
      case NextStage => StageStep(w, AfterStage(w.c.stage));
      case Tick(t) => TickStep(w, t);
      case ServerRx(p, mem) => ServerRxStep(w, p, mem);
      case Respond(i, d) => RespondStep(w, i, d);
      case ServerBurst => ServerBurstStep(w);
    }
  }

  lemma {:induction false} SlotsSized(w: World)
    requires SlotsInv(w)
    ensures SizedWorld(w)
  {
  }

  // ------------------------------------------------------------- initial world --

  lemma {:induction false} CountNone(k: nat)
    ensures CountTrue(seq(k, x => false)) == 0
    decreases k
  {
    if k > 0 {
      CountNone(k - 1);
      assert seq(k, x => false)[1..] == seq(k - 1, x => false);
    }
  }

  lemma {:induction false} NothingOutstanding(slots: seq<ClientSlot>)
    requires forall i | 0 <= i < |slots| :: slots[i].numTx == slots[i].numRx
    ensures Outstanding(slots) == 0
    decreases |slots|
  {
    if slots != [] { NothingOutstanding(slots[1..]); }
  }

  lemma {:induction false} InitSlot(i: nat)
    requires i < kSessionReqWindow
    ensures SlotInv(i, View(InitialClientSlot(i), InitialServerSlot(i), {}, [], [], [], true, false))
  {
    var c := InitialClientSlot(i);
    CountNone(kSessionCredits);
    assert c.inWheel == seq(kSessionCredits, x => false);
  }

  lemma {:induction false} InitOk()
    ensures SessionInv(Init())
  {
    hide SessionInvariant.SlotsInv, SessionInvariant.FreeInv, SessionInvariant.StallInv;
    InitSlots();
    InitQueues();
  }

  lemma {:induction false} InitSlots()
    ensures SlotsInv(Init())
  {
    hide SlotInvariant.SlotInv;
    var w := Init();
    forall i | 0 <= i < kSessionReqWindow ensures SlotInv(i, ViewOf(w, i)) { InitSlot(i); }
    NothingOutstanding(w.c.slots);
  }

  lemma {:induction false} InitQueues()
    ensures FreeInv(Init().c) && StallInv(Init().c, -1)
  {
    var s := Init().c;
    forall i | 0 <= i < kSessionReqWindow ensures i in s.freeVec {
      assert s.freeVec[kSessionReqWindow - 1 - i] == i;
    }
  }

  lemma {:induction false} RunOk(w: World, steps: seq<Step>, w': World)
    requires SessionInv(w) && Run(w, steps, w')
    ensures SessionInv(w')
    decreases |steps|
  {
    if steps != [] {
      StepOk(w, steps[0]);
      RunOk(Next(w, steps[0]), steps[1..], w');
    }
  }

  lemma {:induction false} ReachableOk(w: World)
    requires Reachable(w)
    ensures SizedWorld(w) && SessionInv(w)
  {
    var steps :| Run(Init(), steps, w);
    InitOk();
    RunOk(Init(), steps, w);
  }

  /** The slot invariant of one slot of a reachable world. */
  lemma {:induction false} ReachableSlot(w: World, i: nat)
    requires Reachable(w) && i < kSessionReqWindow
    ensures SizedWorld(w) && SlotInv(i, ViewOf(w, i))
  {
    hide SlotInvariant.SlotInv;
    ReachableOk(w);
  }

  /** A run from `w` led to `m`, where the invariant holds. */
  ghost predicate Led(w: World, steps: seq<Step>, m: World) {
    SizedWorld(m) && SessionInv(m) && Run(w, steps, m)
  }

  lemma {:induction false} LedStep(w: World, steps: seq<Step>, m: World, step: Step)
    requires Led(w, steps, m) && SizedWorld(m) && Enabled(m, step)
    ensures Led(w, steps + [step], Next(m, step))
  {
    hide SessionInvariant.SessionInv, Session.Run, Session.Next, Session.Enabled;
    StepOk(m, step);
    RunStep(w, steps, m, step);
  }
}
