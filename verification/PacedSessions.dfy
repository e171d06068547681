/**
 * The sessions of an Rpc and the wheel they share: each packet that a session's
 * datapath wheels is one insert into the timing wheel, and the credit it holds
 * keeps the session within the wheel's horizon.
 */
module PacedSessions {
  import opened Arith
  import opened Messages
  import opened Options
  import D = Datapath
  import Session
  import Theorems
  import opened WheelSpec
  import WheelRuns
  import opened Pacing

  datatype Joint = Joint(sessions: seq<Session.World>, paced: Paced)

  /** When a packet is wheeled, and how long after the session's last one it may leave. */
  datatype Time = Time(ref: nat, gap: nat)

  datatype Move =
    | Join(t: nat)                                              // A session connects
    | Act(k: nat, step: Session.Step, times: seq<Time>)         // A step of a session's datapath
    | Turn(t: nat)                                              // The wheel is reaped
    | Leave(entry: nat)                                         // The next ready packet goes to its session's TX batch

  /** The clock never goes back and gaps are bounded. */
  predicate TimesOk(clock: nat, times: seq<Time>)
    decreases |times|
  {
    times != [] ==> clock <= times[0].ref && times[0].gap <= maxGap && TimesOk(times[0].ref, times[1..])
  }

  /** A datapath step comes with one time for each packet that it wheels. Which of its session's packets a ready entry
      stands for is left open. */
  predicate Possible(j: Joint, m: Move) {
    match m
    case Join(t) => j.paced.clock <= t
    case Act(k, step, times) =>
      && k < |j.sessions| && Session.SizedWorld(j.sessions[k]) && Session.Enabled(j.sessions[k], step) && !step.Reaped?
      && |Session.Next(j.sessions[k], step).c.wheel| == |j.sessions[k].c.wheel| + |times|
      && TimesOk(j.paced.clock, times)
    case Turn(t) => j.paced.clock <= t
    case Leave(entry) =>
      var ready := j.paced.s.wheel.ready;
      && ready != [] && ready[0].session < |j.sessions| && Session.SizedWorld(j.sessions[ready[0].session])
      && Session.Enabled(j.sessions[ready[0].session], Session.Reaped(entry))
  }

  function SentAll(p: Paced, k: nat, times: seq<Time>): Paced
    decreases |times|
  {
    if times == [] || !WheelRuns.Sized(p.s) || k >= |p.prev| then p
    else SentAll(Sent(p, k, times[0].ref, times[0].gap), k, times[1..])
  }

  function After(j: Joint, m: Move): Joint
    requires WheelRuns.Sized(j.paced.s) && Possible(j, m)
  {
    match m
    case Join(t) => Joint(j.sessions + [Session.Init()], Next(j.paced, Connect(t)))
    case Act(k, step, times) =>
      Joint(j.sessions[k := Session.Next(j.sessions[k], step)], SentAll(j.paced, k, times))
    case Turn(t) => j.(paced := Next(j.paced, Process(t)))
    case Leave(entry) =>
      var k := j.paced.s.wheel.ready[0].session;
      Joint(j.sessions[k := Session.Next(j.sessions[k], Session.Reaped(entry))], Next(j.paced, Take))
  }

  ghost predicate Moves(j: Joint, moves: seq<Move>, e: Joint)
    decreases |moves|
  {
    if moves == [] then j == e
    else WheelRuns.Sized(j.paced.s) && Possible(j, moves[0]) && Moves(After(j, moves[0]), moves[1..], e)
  }

  ghost predicate Reached(j: Joint) {
    exists base: nat, moves: seq<Move> :: Moves(Joint([], Paced(WheelRuns.Init(base), base, [])), moves, j)
  }

  // The invariant: the wheel has as many of a session's packets as the session thinks

  /** The packets in the wheel's ready queue and its slots. */
  function Waiting(p: Paced): seq<WheelRuns.Item> {
    p.s.wheel.ready + WheelRuns.Flat(p.s.wheel.slots)
  }

  /** How many of them are session `k`'s. */
  function Held(p: Paced, k: nat): nat {
    Later(Waiting(p), k, -1)
  }

  ghost predicate JointInv(j: Joint) {
    && PaceInv(j.paced) && |j.paced.prev| == |j.sessions|
    && (forall k :: 0 <= k < |j.sessions| ==>
         Session.Reachable(j.sessions[k]) && Held(j.paced, k) == |j.sessions[k].c.wheel|)
    && Below(Waiting(j.paced), |j.sessions|)
  }

  predicate Below(o: seq<WheelRuns.Item>, n: nat) {
    forall x :: 0 <= x < |o| ==> o[x].session < n
  }

  lemma {:induction false} SlotsWithin(p: Paced, k: nat)
    ensures InWheel(p, k) <= Held(p, k)
  {
    LaterConcat(p.s.wheel.ready, WheelRuns.Flat(p.s.wheel.slots), k, -1);
  }

  lemma {:induction false} NoneHeld(o: seq<WheelRuns.Item>, k: nat)
    requires Below(o, k)
    ensures Later(o, k, -1) == 0
  {
    if o != [] { NoneHeld(o[1..], k); }
  }

  /** An insert puts one packet among those that wait. */
  lemma {:induction false} SendPlaces(p: Paced, k: nat, ref: nat, gap: nat)
    returns (ready: seq<WheelRuns.Item>, a: seq<WheelRuns.Item>, b: seq<WheelRuns.Item>, e: WheelRuns.Item)
    requires PaceInv(p) && k < |p.prev| && SendPasses(p, k, ref, gap)
    ensures var q := Sent(p, k, ref, gap);
            && |q.prev| == |p.prev| && q.clock == ref && e.session == k
            && Waiting(p) == ready + (a + b) && Waiting(q) == ready + (a + [e] + b)
  {
    hide AllNear;
    var desired := Desired(p.prev[k], ref, gap);
    e := WheelRuns.NewItem(p.s, WheelRuns.Insert(k, ref, desired));
    var r := WheelSpec.Reap(p.s.wheel, ref);
    WheelRuns.ReapKeeps(p.s.base, p.s.wheel, ref);
    var d := Delta(r.tx, desired);
    WheelRuns.FlatAround(r.slots, d, e);
    ready, a, b := r.ready, WheelRuns.Flat(r.slots[..d + 1]), WheelRuns.Flat(r.slots[d + 1..]);
  }

  /** An insert adds one packet of its session. */
  lemma {:induction false} SendHolds(p: Paced, k: nat, ref: nat, gap: nat)
    requires PaceInv(p) && Sound() && Enabled(p, Send(k, ref, gap)) && Below(Waiting(p), |p.prev|)
    ensures var q := Sent(p, k, ref, gap);
            && PaceInv(q) && |q.prev| == |p.prev| && q.clock == ref
            && (forall m: nat :: Held(q, m) == Held(p, m) + if m == k then 1 else 0)
            && Below(Waiting(q), |p.prev|)
  {
    hide WheelRuns.Flat, SendPasses, Sent, Desired, AllNear, PaceInv;
    SendAllowed(p, Send(k, ref, gap));
    SendOk(p, Send(k, ref, gap));
    var ready, a, b, e := SendPlaces(p, k, ref, gap);
    InsertHeld(ready, a, b, e);
  }

  lemma {:induction false} InsertHeld(ready: seq<WheelRuns.Item>, a: seq<WheelRuns.Item>, b: seq<WheelRuns.Item>,
                                      e: WheelRuns.Item)
    ensures forall m: nat :: Later(ready + (a + [e] + b), m, -1) ==
                             Later(ready + (a + b), m, -1) + if m == e.session then 1 else 0
    ensures forall x :: 0 <= x < |ready + (a + [e] + b)| ==>
              (ready + (a + [e] + b))[x] == e || (ready + (a + [e] + b))[x] in ready + (a + b)
  {
    forall m: nat
      ensures Later(ready + (a + [e] + b), m, -1) ==
              Later(ready + (a + b), m, -1) + if m == e.session then 1 else 0
    {
      LaterConcat(ready, a + [e] + b, m, -1);
      LaterConcat(ready, a + b, m, -1);
      OneMore(a, b, e, m, -1);
    }
  }

  /** Every one of these inserts meets the assertions of the wheel's `insert`. */
  ghost predicate InsertsPass(p: Paced, k: nat, times: seq<Time>)
    decreases |times|
  {
    times == [] ||
      (&& k < |p.prev| && SendPasses(p, k, times[0].ref, times[0].gap)
       && InsertsPass(Sent(p, k, times[0].ref, times[0].gap), k, times[1..]))
  }

  lemma {:induction false} SentAllOk(p: Paced, k: nat, times: seq<Time>)
    requires PaceInv(p) && Sound() && k < |p.prev| && TimesOk(p.clock, times) && Below(Waiting(p), |p.prev|)
    requires Held(p, k) + |times| <= kSessionCredits
    ensures InsertsPass(p, k, times)
    ensures var q := SentAll(p, k, times);
            && PaceInv(q) && |q.prev| == |p.prev| && Below(Waiting(q), |p.prev|)
            && (forall m: nat :: Held(q, m) == Held(p, m) + if m == k then |times| else 0)
    decreases |times|
  {
    hide PaceInv, Held, Sent, Below, SendPasses;
    PaceSized(p);
    if times != [] {
      var ref, gap := times[0].ref, times[0].gap;
      SlotsWithin(p, k);
      SendHolds(p, k, ref, gap);
      SendAllowed(p, Send(k, ref, gap));
      SentAllOk(Sent(p, k, ref, gap), k, times[1..]);
    }
  }

  lemma {:induction false} PaceSized(p: Paced)
    requires PaceInv(p)
    ensures WheelRuns.Sized(p.s)
  {
  }

  // Moves

  lemma {:induction false} ReachableNext(w: Session.World, step: Session.Step)
    requires Session.Reachable(w) && Session.SizedWorld(w) && Session.Enabled(w, step)
    ensures Session.Reachable(Session.Next(w, step))
  {
    hide Session.Next, Session.Enabled;
    var steps :| Session.Run(Session.Init(), steps, w);
    Session.RunStep(Session.Init(), steps, w, step);
  }

  /** A datapath step has a credit for each packet that it wheels. */
  lemma {:induction false} CreditsForAll(j: Joint, m: Move)
    requires JointInv(j) && m.Act? && Possible(j, m)
    ensures Held(j.paced, m.k) + |m.times| <= kSessionCredits
    ensures Session.Reachable(Session.Next(j.sessions[m.k], m.step))
  {
    hide Session.Next, Session.Enabled, Session.Reachable;
    ReachableNext(j.sessions[m.k], m.step);
    Theorems.WheelHoldsCredits(Session.Next(j.sessions[m.k], m.step));
  }

  lemma {:induction false} ActOk(j: Joint, m: Move)
    requires JointInv(j) && Sound() && m.Act? && Possible(j, m) && WheelRuns.Sized(j.paced.s)
    ensures JointInv(After(j, m)) && InsertsPass(j.paced, m.k, m.times)
  {
    hide Session.Next, Session.Enabled, Session.Reachable, PaceInv, Held, Below, InsertsPass;
    CreditsForAll(j, m);
    SentAllOk(j.paced, m.k, m.times);
  }

  lemma {:induction false} JoinOk(j: Joint, t: nat)
    requires JointInv(j) && Possible(j, Join(t)) && WheelRuns.Sized(j.paced.s)
    ensures JointInv(After(j, Join(t)))
  {
    hide Session.Next, Session.Enabled;
    ConnectOk(j.paced, t);
    assert Session.Run(Session.Init(), [], Session.Init());
    NoneHeld(Waiting(j.paced), |j.sessions|);
  }

  lemma {:induction false} TurnOk(j: Joint, t: nat)
    requires JointInv(j) && Possible(j, Turn(t)) && WheelRuns.Sized(j.paced.s)
    ensures JointInv(After(j, Turn(t)))
  {
    hide Session.Next, Session.Enabled, Session.Reachable;
    ProcessOk(j.paced, t);
    WheelRuns.ReapKeeps(j.paced.s.base, j.paced.s.wheel, t);
  }

  lemma {:induction false} LeaveOk(j: Joint, entry: nat)
    requires JointInv(j) && Possible(j, Leave(entry)) && WheelRuns.Sized(j.paced.s)
    ensures JointInv(After(j, Leave(entry)))
  {
    hide Session.Reachable, Session.Next, Session.Enabled, WheelRuns.Flat, PaceInv;
    TakeOk(j.paced);
    var p, q := j.paced, After(j, Leave(entry)).paced;
    var k := p.s.wheel.ready[0].session;
    ReachableNext(j.sessions[k], Session.Reaped(entry));
    ReapedShrinks(j.sessions[k], entry);
    assert Waiting(p)[0] == p.s.wheel.ready[0] && Waiting(p)[1..] == Waiting(q);
  }

  lemma {:induction false} ReapedShrinks(w: Session.World, entry: nat)
    requires Session.SizedWorld(w) && Session.Enabled(w, Session.Reaped(entry))
    ensures |Session.Next(w, Session.Reaped(entry)).c.wheel| == |w.c.wheel| - 1
  {
  }

  lemma {:induction false} MoveOk(j: Joint, m: Move)
    requires JointInv(j) && Sound() && Possible(j, m) && WheelRuns.Sized(j.paced.s)
    ensures JointInv(After(j, m))
  {
    match m
    case Join(t) => JoinOk(j, t);
    case Act(_, _, _) => ActOk(j, m);
    case Turn(t) => TurnOk(j, t);
    case Leave(entry) => LeaveOk(j, entry);
  }

  lemma {:induction false} MovesOk(j: Joint, moves: seq<Move>, e: Joint)
    requires JointInv(j) && Sound() && Moves(j, moves, e)
    ensures JointInv(e)
    decreases |moves|
  {
    if moves != [] {
      MoveOk(j, moves[0]);
      MovesOk(After(j, moves[0]), moves[1..], e);
    }
  }

  /** In every run of any number of sessions over one wheel, each packet that a session's datapath wheels asks for a
      time within the horizon and gets a slot: all assertions of `insert` hold, with nothing assumed of the packets in
      the wheel. */
  lemma {:induction false} InsertsAlwaysPass(j: Joint, m: Move)
    requires Reached(j) && Sound() && m.Act? && Possible(j, m)
    ensures InsertsPass(j.paced, m.k, m.times)
  {
    hide Session.Next, Session.Enabled, Session.Reachable, InsertsPass, JointInv, PaceInv;
    var base: nat, moves: seq<Move> :| Moves(Joint([], Paced(WheelRuns.Init(base), base, [])), moves, j);
    NoSessions(base);
    MovesOk(Joint([], Paced(WheelRuns.Init(base), base, [])), moves, j);
    PaceOf(j);
    PaceSized(j.paced);
    ActOk(j, m);
  }

  lemma {:induction false} NoSessions(base: nat)
    ensures JointInv(Joint([], Paced(WheelRuns.Init(base), base, [])))
  {
    WheelRuns.InitOk(base);
    WheelRuns.FlatEmpty(WheelRuns.Init(base).wheel.slots);
  }

  lemma {:induction false} PaceOf(j: Joint)
    requires JointInv(j)
    ensures PaceInv(j.paced)
  {
  }

  // Nothing less is enough: one request that spends all credits of a new session

  const largestGaps: seq<Time> := seq(kSessionCredits, _ => Time(burstTsc, maxGap))

  const burstArgs: D.Args := D.Args(0, seq(kSessionCredits * kMaxDataPerPkt, _ => 0), [])

  /** A session that has just connected. */
  const burstJoint: Joint :=
    Joint([Session.Init()], Next(Paced(WheelRuns.Init(0), 0, []), Connect(burstTsc)))

  /** It sends a request of one full packet per credit, past the bypass. */
  const burstMove: Move := Act(0, Session.Enqueue(burstArgs, false), largestGaps)

  lemma {:induction false} BurstReached()
    ensures Reached(burstJoint)
  {
    hide Session.Init;
    var j := Joint([], Paced(WheelRuns.Init(0), 0, []));
    assert [Join(burstTsc)][1..] == [];
    assert Moves(burstJoint, [], burstJoint);
    assert Moves(j, [Join(burstTsc)], burstJoint);
  }

  lemma {:induction false} LargestTimes(n: nat)
    requires n <= kSessionCredits
    ensures TimesOk(burstTsc, largestGaps[n..])
    decreases kSessionCredits - n
  {
    if n < kSessionCredits {
      LargestTimes(n + 1);
      assert largestGaps[n..][1..] == largestGaps[n + 1..];
    }
  }

  lemma {:induction false} BurstPossible()
    ensures Possible(burstJoint, burstMove)
  {
    LargestTimes(0);
    assert largestGaps[0..] == largestGaps;
    NumPktsCover(|burstArgs.data|);
    var n := D.ReqPkts(burstArgs);
    if n < kSessionCredits {
      MulMono(n + 1, kSessionCredits, kMaxDataPerPkt);
    }
  }

  lemma {:induction false} BurstNeeds(p: Paced, n: nat)
    requires Burst(p, n) && n < kSessionCredits && InsertsPass(p, 0, largestGaps[n..])
    ensures Sound()
    decreases kSessionCredits - n
  {
    hide SendPasses, Sound, Sent;
    if n + 1 == kSessionCredits {
      BurstEnds(p);
    } else {
      BurstMore(p, n);
      assert largestGaps[n..][1..] == largestGaps[n + 1..];
      BurstNeeds(Sent(p, 0, burstTsc, maxGap), n + 1);
    }
  }

  /** Without it, that request is a run that fails an assertion of `insert`. */
  lemma {:induction false} BurstFails()
    requires !Sound()
    ensures Reached(burstJoint) && Possible(burstJoint, burstMove) && !InsertsPass(burstJoint.paced, 0, largestGaps)
  {
    hide Reached, Possible, InsertsPass, Burst, Sound;
    BurstReached();
    BurstPossible();
    if InsertsPass(burstJoint.paced, 0, largestGaps) {
      var p := BurstStarts();
      assert largestGaps[0..] == largestGaps;
      BurstNeeds(p, 0);
    }
  }

  ghost predicate AllInsertsPass() {
    forall j: Joint, m: Move :: Reached(j) && m.Act? && Possible(j, m) ==> InsertsPass(j.paced, m.k, m.times)
  }

  /** So the sessions of an Rpc never fail an assertion of its wheel's `insert` exactly when one largest gap per credit
      is within both the horizon and the slots. */
  lemma {:induction false} InsertsPassExactly()
    ensures AllInsertsPass() <==> Sound()
  {
    hide Reached, Possible, InsertsPass, Sound;
    if Sound() {
      forall j: Joint, m: Move | Reached(j) && m.Act? && Possible(j, m) ensures InsertsPass(j.paced, m.k, m.times) {
        InsertsAlwaysPass(j, m);
      }
    } else {
      BurstFails();
      assert burstMove.Act?;
    }
  }

  /** Only reaping takes packets out of a session's wheel, so every other step is possible with some times. */
  lemma {:induction false} WheelGrows(w: Session.World, step: Session.Step)
    requires Session.SizedWorld(w) && Session.Enabled(w, step) && !step.Reaped?
    ensures |w.c.wheel| <= |Session.Next(w, step).c.wheel|
  {
    hide D.EnqueueRequest, D.Complete, D.StoreMulti, D.KickReq, D.KickRfr;
    match step
    case Enqueue(a, bypass) => EnqueueGrows(w.c.(calls := w.c.calls + [a]), a, bypass);
    case ClientRx(p, bypass) => RxGrows(w.c, SlotOf(p.num), p, bypass);
    case Unstalled(bypass) => KicksGrow(w.c.(stallq := w.c.stallq[1..]), w.c.stallq[0], bypass);
    case LossDetected(i, bypass) =>
      var c := w.c.slots[i];
      KicksGrow(w.c.(credits := w.c.credits + Max(c.numTx - c.numRx, 0), stage := D.Flush,
                     slots := w.c.slots[i := c.(numTx := c.numRx, progress := w.c.tsc)]), i, bypass);
    case _ =>
  }

  lemma {:induction false} KicksGrow(s: D.Client, i: nat, bypass: bool)
    requires D.WellSized(s)
    ensures i < |s.slots| && s.slots[i].tx.Some? && D.ReqPending(s.slots[i]) ==>
              |s.wheel| <= |D.KickReq(s, i, bypass).wheel|
    ensures i < |s.slots| && s.slots[i].tx.Some? && s.slots[i].numTx <= D.WirePkts(s.slots[i]) ==>
              D.KickRfr(s, i).wheel == s.wheel
  {
  }

  lemma {:induction false} EnqueueGrows(s: D.Client, a: D.Args, bypass: bool)
    requires D.WellSized(s)
    ensures |s.wheel| <= |D.EnqueueRequest(s, a, bypass).wheel|
  {
    hide D.KickReq, D.KickRfr;
    if s.freeVec != [] && s.freeVec[|s.freeVec| - 1] < |s.slots| {
      var i := s.freeVec[|s.freeVec| - 1];
      KicksGrow(s.(freeVec := s.freeVec[..|s.freeVec| - 1], slots := s.slots[i := D.Started(s.slots[i], a, s.tsc)],
                   active := s.active + [i], started := s.started + [a]), i, bypass);
    }
  }

  lemma {:induction false} RxGrows(s: D.Client, i: nat, p: Pkt, bypass: bool)
    requires D.WellSized(s) && i < |s.slots|
    ensures |s.wheel| <= |D.ProcessCr(s, i, p, bypass).wheel|
    ensures p.Resp? ==> |s.wheel| <= |D.ProcessResp(s, i, p, bypass).wheel|
  {
    hide D.KickReq, D.KickRfr, D.Complete, D.StoreMulti;
    var s1 := D.Acked(s, i);
    KicksGrow(s1, i, bypass);
    if p.Resp? && s1.slots[i].tx.Some? {
      if p.size <= kMaxDataPerPkt {
        var c := s1.slots[i];
        var c1 := c.(respSize := p.size, respHdr := p.num, respBuf := WriteAt(c.respBuf, 0, p.data));
        CompleteGrows(s1.(slots := s1.slots[i := c1]), i, bypass);
      } else {
        StoreKeeps(s1, i, p);
        CompleteGrows(D.StoreMulti(s1, i, p), i, bypass);
      }
    }
  }

  lemma {:induction false} StoreKeeps(s: D.Client, i: nat, p: Pkt)
    requires D.WellSized(s) && i < |s.slots| && p.Resp? && s.slots[i].tx.Some?
    ensures D.StoreMulti(s, i, p).wheel == s.wheel
  {
  }

  lemma {:induction false} CompleteGrows(s: D.Client, i: nat, bypass: bool)
    requires D.WellSized(s) && i < |s.slots|
    ensures |s.wheel| <= |D.Complete(s, i, bypass).wheel|
  {
    hide D.EnqueueRequest;
    var c := s.slots[i];
    var d := D.Done(c.cur, c.respBuf[..Min(c.respSize, |c.respBuf|)]);
    var s1 := s.(slots := s.slots[i := c.(tx := None, done := c.done + [d])],
                 active := D.Without(s.active, i), freeVec := s.freeVec + [i]);
    if s1.backlog != [] { EnqueueGrows(s1.(backlog := s1.backlog[1..]), s1.backlog[0], bypass); }
  }
}
