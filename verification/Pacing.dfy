/**
 * Pacing: sessions that schedule packets by rate never ask the wheel for a time
 * beyond its horizon, because a packet scheduled in the future holds a credit.
 */
module Pacing {
  import opened Arith
  import opened Messages
  import opened WheelSpec
  import opened WheelRuns

  const maxGap: nat          // Cycles between two packets of the largest size at the lowest rate

  /** The wheel, the clock and each session's `prev_desired_tx_tsc_`. */
  datatype Paced = Paced(s: State, clock: nat, prev: seq<nat>)

  datatype Step =
    | Connect(t: nat)                                // A session connects; its pacing starts now
    | Send(session: nat, ref: nat, gap: nat)         // `enqueue_wheel_req_st`
    | Process(t: nat)                                // `reap` in `process_wheel_st`
    | Take                                           // One entry of its loop

  /** How many entries of a session are for a time after `x`. */
  function Later(o: seq<Item>, k: nat, x: int): nat {
    if o == [] then 0 else (if o[0].session == k && x < o[0].desired then 1 else 0) + Later(o[1..], k, x)
  }

  /** How many of a session's packets are in the wheel's slots. */
  function InWheel(p: Paced, k: nat): nat {
    Later(Flat(p.s.wheel.slots), k, -1)
  }

  /** The clock never goes back, gaps are bounded, and a packet is sent only with a credit that no packet in the wheel
      holds. */
  predicate Enabled(p: Paced, step: Step) {
    match step
    case Connect(t) => p.clock <= t
    case Send(k, ref, gap) => k < |p.prev| && p.clock <= ref && gap <= maxGap && InWheel(p, k) < kSessionCredits
    case Process(t) => p.clock <= t
    case Take => p.s.wheel.ready != []
  }

  /** `cc_getupdate_tx_tsc` */
  function Desired(prev: nat, ref: nat, gap: nat): nat {
    Max(prev + gap, ref)
  }

  /** `enqueue_wheel_req_st` */
  function Sent(p: Paced, k: nat, ref: nat, gap: nat): Paced
    requires Sized(p.s) && k < |p.prev|
  {
    var desired := Desired(p.prev[k], ref, gap);
    if !Allowed(p.s, Op.Insert(k, ref, desired)) then p              // An assertion failure
    else Paced(WheelRuns.Next(p.s, Op.Insert(k, ref, desired)), ref, p.prev[k := desired])
  }

  function Next(p: Paced, step: Step): Paced
    requires Sized(p.s) && Enabled(p, step)
  {
    match step
    case Connect(t) => p.(clock := t, prev := p.prev + [t])
    case Send(k, ref, gap) => Sent(p, k, ref, gap)
    case Process(t) => if !Allowed(p.s, Op.Reap(t)) then p else p.(s := WheelRuns.Next(p.s, Op.Reap(t)), clock := t)
    case Take => p.(s := WheelRuns.Next(p.s, Op.Pop))
  }

  ghost predicate Run(p: Paced, steps: seq<Step>, e: Paced)
    decreases |steps|
  {
    if steps == [] then p == e
    else Sized(p.s) && Enabled(p, steps[0]) && Run(Next(p, steps[0]), steps[1..], e)
  }

  ghost predicate Reachable(p: Paced) {
    exists base: nat, steps: seq<Step> :: Run(Paced(WheelRuns.Init(base), base, []), steps, p)
  }

  // The invariant: at any time to come, a session's last packet is at most one gap per waiting packet away

  predicate Near(prev: nat, o: seq<Item>, k: nat, x: nat) {
    prev <= x + maxGap * Later(o, k, x)
  }

  ghost predicate AllNear(prev: nat, o: seq<Item>, k: nat, now: nat) {
    forall x: nat :: now <= x ==> Near(prev, o, k, x)
  }

  ghost predicate PaceInv(p: Paced) {
    && WheelRuns.Inv(p.s) && p.s.now <= p.clock
    && forall k :: 0 <= k < |p.prev| ==> AllNear(p.prev[k], Flat(p.s.wheel.slots), k, p.clock)
  }

  lemma {:induction false} LaterConcat(a: seq<Item>, b: seq<Item>, k: nat, x: int)
    ensures Later(a + b, k, x) == Later(a, k, x) + Later(b, k, x)
  {
    if a == [] {
      assert a + b == b;
    } else {
      LaterConcat(a[1..], b, k, x);
      assert (a + b)[1..] == a[1..] + b;
    }
  }

  lemma {:induction false} LaterDue(base: nat, o: seq<Item>, k: nat, now: nat, x: nat)
    requires Due(base, o, now) && now <= x
    ensures Later(o, k, x) == 0
  {
    if o != [] { LaterDue(base, o[1..], k, now, x); }
  }

  lemma {:induction false} LaterAntitone(o: seq<Item>, k: nat, x: int, y: int)
    requires x <= y
    ensures Later(o, k, y) <= Later(o, k, x)
  {
    if o != [] { LaterAntitone(o[1..], k, x, y); }
  }

  /** Entries that leave the slots by time `t` are due, so they do not count after `t`. */
  lemma {:induction false} ReapNear(base: nat, w: Wheel<Item>, t: nat, prev: nat, k: nat, now: nat)
    requires |w.slots| == kWheelNumWslots && SlotsTimed(base, w.tx, w.slots) && now <= t
    requires AllNear(prev, Flat(w.slots), k, now)
    ensures AllNear(prev, Flat(WheelSpec.Reap(w, t).slots), k, t)
  {
    var r := WheelSpec.Reap(w, t);
    ReapKeeps(base, w, t);
    var more := r.ready[|w.ready|..];
    assert Flat(w.slots) == more + Flat(r.slots) by {
      assert r.ready == w.ready + more;
      Cancel(w.ready, Flat(w.slots), more + Flat(r.slots));
    }
    forall x: nat | t <= x ensures Near(prev, Flat(r.slots), k, x) {
      assert Near(prev, Flat(w.slots), k, x);
      LaterConcat(more, Flat(r.slots), k, x);
      LaterDue(base, more, k, t, x);
    }
  }

  lemma {:induction false} Cancel(p: seq<Item>, a: seq<Item>, b: seq<Item>)
    requires p + a == p + b
    ensures a == b
  {
    assert a == (p + a)[|p|..] && b == (p + b)[|p|..];
  }

  /** Sending: the new packet is one gap after the last one, or due now. */
  lemma {:induction false} SendNear(prev: nat, ref: nat, gap: nat, a: seq<Item>, b: seq<Item>, e: Item)
    requires AllNear(prev, a + b, e.session, ref) && gap <= maxGap && e.desired == Desired(prev, ref, gap)
    ensures AllNear(e.desired, a + [e] + b, e.session, ref)
  {
    hide Later;
    forall x: nat | ref <= x ensures Near(e.desired, a + [e] + b, e.session, x) {
      assert Near(prev, a + b, e.session, x);
      OneMore(a, b, e, e.session, x);
      if e.desired > x {
        GapStep(prev, e.desired, gap, x, Later(a + b, e.session, x));
      } else {
        MulMono(0, Later(a + [e] + b, e.session, x), maxGap);
      }
    }
  }

  lemma {:induction false} GapStep(prev: nat, desired: nat, gap: nat, x: nat, n: nat)
    requires prev <= x + maxGap * n && desired <= prev + gap && gap <= maxGap
    ensures desired <= x + maxGap * (n + 1)
  {
    assert maxGap * (n + 1) == maxGap * n + maxGap;
  }

  lemma {:induction false} OneMore(a: seq<Item>, b: seq<Item>, e: Item, k: nat, x: int)
    ensures Later(a + [e] + b, k, x) == Later(a + b, k, x) + (if e.session == k && x < e.desired then 1 else 0)
  {
    LaterConcat(a, b, k, x);
    LaterConcat(a + [e], b, k, x);
    LaterConcat(a, [e], k, x);
    assert [e][1..] == [];
  }

  /** Another session's packet does not count. */
  lemma {:induction false} OtherNear(prev: nat, k: nat, ref: nat, a: seq<Item>, b: seq<Item>, e: Item)
    requires AllNear(prev, a + b, k, ref) && e.session != k
    ensures AllNear(prev, a + [e] + b, k, ref)
  {
    forall x: nat | ref <= x ensures Near(prev, a + [e] + b, k, x) {
      assert Near(prev, a + b, k, x);
      OneMore(a, b, e, k, x);
    }
  }

  /** A session with a credit in hand asks for a time at most one gap per credit away. */
  lemma {:induction false} SendWithinCredits(prev: nat, o: seq<Item>, k: nat, ref: nat, gap: nat)
    requires AllNear(prev, o, k, ref) && gap <= maxGap && Later(o, k, -1) < kSessionCredits
    ensures ref <= Desired(prev, ref, gap) <= ref + kSessionCredits * maxGap
  {
    assert Near(prev, o, k, ref);
    LaterAntitone(o, k, -1, ref);
    var n := Later(o, k, ref);
    MulMono(n + 1, kSessionCredits, maxGap);
    assert (n + 1) * maxGap == maxGap * n + maxGap;
  }

  // Steps

  /** One largest gap per credit is within the horizon and within all slots but one. */
  predicate Sound() {
    && kSessionCredits * maxGap <= horizonTsc
    && kSessionCredits * maxGap <= (kWheelNumWslots - 1) * wslotWidthTsc
  }

  /** Both assertions of `insert` hold for the time that a packet asks for. */
  predicate SendPasses(p: Paced, k: nat, ref: nat, gap: nat)
    requires k < |p.prev|
  {
    var desired := Desired(p.prev[k], ref, gap);
    Allowed(p.s, Op.Insert(k, ref, desired)) && SlotAssert(p.s, ref, desired)
  }

  /** A longer wait changes nothing. */
  lemma {:induction false} WaitNear(prev: nat, o: seq<Item>, k: nat, now: nat, t: nat)
    requires AllNear(prev, o, k, now) && now <= t
    ensures AllNear(prev, o, k, t)
  {
    forall x: nat | t <= x ensures Near(prev, o, k, x) { assert Near(prev, o, k, x); }
  }

  lemma {:induction false} SendAllowed(p: Paced, step: Step)
    requires PaceInv(p) && Sound() && step.Send? && Enabled(p, step)
    ensures SendPasses(p, step.session, step.ref, step.gap)
  {
    var k, o := step.session, Flat(p.s.wheel.slots);
    WaitNear(p.prev[k], o, k, p.clock, step.ref);
    ReapOk(p.s, step.ref);
    SendWithinCredits(p.prev[k], o, k, step.ref, step.gap);
    DeltaFits(WheelSpec.Reap(p.s.wheel, step.ref).tx, step.ref, Desired(p.prev[k], step.ref, step.gap));
  }

  lemma {:induction false} SendOk(p: Paced, step: Step)
    requires PaceInv(p) && Sound() && step.Send? && Enabled(p, step)
    ensures PaceInv(Next(p, step))
  {
    var k, ref, gap := step.session, step.ref, step.gap;
    var desired := Desired(p.prev[k], ref, gap);
    var op := Op.Insert(k, ref, desired);
    SendAllowed(p, step);
    InsertOk(p.s, op);
    var r, e := WheelSpec.Reap(p.s.wheel, ref), NewItem(p.s, op);
    ReapOk(p.s, ref);
    var d := Delta(r.tx, desired);
    FlatAround(r.slots, d, e);
    var a, b := Flat(r.slots[..d + 1]), Flat(r.slots[d + 1..]);
    var q := Next(p, step);
    assert Flat(q.s.wheel.slots) == a + [e] + b;
    hide Flat, WheelSpec.Reap, Delta, AllNear, WheelRuns.Inv;
    forall i | 0 <= i < |p.prev| ensures AllNear(q.prev[i], a + [e] + b, i, ref) {
      assert AllNear(p.prev[i], a + b, i, ref) by {
        SlotsOf(p.s);
        ReapNear(p.s.base, p.s.wheel, ref, p.prev[i], i, p.clock);
      }
      if i == k { SendNear(p.prev[k], ref, gap, a, b, e); } else { OtherNear(p.prev[i], i, ref, a, b, e); }
    }
  }

  lemma {:induction false} SlotsOf(s: State)
    requires WheelRuns.Inv(s)
    ensures Sized(s) && SlotsTimed(s.base, s.wheel.tx, s.wheel.slots)
  {
  }

  lemma {:induction false} ProcessOk(p: Paced, t: nat)
    requires PaceInv(p) && p.clock <= t
    ensures PaceInv(Next(p, Process(t)))
  {
    ReapOk(p.s, t);
    forall k | 0 <= k < |p.prev| ensures AllNear(p.prev[k], Flat(WheelSpec.Reap(p.s.wheel, t).slots), k, t) {
      ReapNear(p.s.base, p.s.wheel, t, p.prev[k], k, p.clock);
    }
  }

  lemma {:induction false} ConnectOk(p: Paced, t: nat)
    requires PaceInv(p) && p.clock <= t
    ensures PaceInv(Next(p, Connect(t)))
  {
    var q, o := Next(p, Connect(t)), Flat(p.s.wheel.slots);
    forall k | 0 <= k < |q.prev| ensures AllNear(q.prev[k], o, k, t) {
      if k < |p.prev| {
        WaitNear(p.prev[k], o, k, p.clock, t);
      } else {
        forall x: nat | t <= x ensures Near(t, o, k, x) { MulMono(0, maxGap, Later(o, k, x)); }
      }
    }
  }

  lemma {:induction false} TakeOk(p: Paced)
    requires PaceInv(p) && p.s.wheel.ready != []
    ensures PaceInv(Next(p, Take))
  {
    hide WheelRuns.Inv, AllNear;
    PopOk(p.s);
    SlotsOf(p.s);
  }

  lemma {:induction false} StepOk(p: Paced, step: Step)
    requires PaceInv(p) && Sound() && Enabled(p, step)
    ensures PaceInv(Next(p, step))
  {
    match step
    case Connect(t) => ConnectOk(p, t);
    case Send(_, _, _) => SendOk(p, step);
    case Process(t) => ProcessOk(p, t);
    case Take => TakeOk(p);
  }

  lemma {:induction false} RunOk(p: Paced, steps: seq<Step>, e: Paced)
    requires PaceInv(p) && Sound() && Run(p, steps, e)
    ensures PaceInv(e)
    decreases |steps|
  {
    if steps != [] {
      StepOk(p, steps[0]);
      RunOk(Next(p, steps[0]), steps[1..], e);
    }
  }

  /** In every run, whatever the other sessions do, the time a packet asks for meets both assertions of the wheel's
      `insert`. */
  lemma {:induction false} WithinHorizon(p: Paced, step: Step)
    requires Reachable(p) && Sound() && step.Send? && Enabled(p, step)
    ensures SendPasses(p, step.session, step.ref, step.gap)
  {
    var base: nat, steps: seq<Step> :| Run(Paced(WheelRuns.Init(base), base, []), steps, p);
    InitOk(base);
    RunOk(Paced(WheelRuns.Init(base), base, []), steps, p);
    SendAllowed(p, step);
  }

  // Rate

  /** No packet of a session was for a time after its `prev_desired_tx_tsc_`. */
  predicate Behind(p: Paced) {
    forall x :: 0 <= x < |p.s.inserted| ==>
      p.s.inserted[x].session < |p.prev| && p.s.inserted[x].desired <= p.prev[p.s.inserted[x].session]
  }

  lemma {:induction false} BehindKeeps(p: Paced, step: Step)
    requires Behind(p) && Sized(p.s) && Enabled(p, step)
    ensures Behind(Next(p, step))
  {
  }

  lemma {:induction false} RunBehind(p: Paced, steps: seq<Step>, e: Paced)
    requires Behind(p) && Run(p, steps, e)
    ensures Behind(e)
    decreases |steps|
  {
    hide Next, Enabled, Behind;
    if steps != [] {
      BehindKeeps(p, steps[0]);
      RunBehind(Next(p, steps[0]), steps[1..], e);
    }
  }

  /** In every run, a packet that goes into the wheel is for a time at least its gap after every earlier packet of its
      session, and not before now; if that is not now, it is no later than its gap asks. */
  lemma {:induction false} GapKept(p: Paced, step: Step)
    requires Reachable(p) && step.Send? && Enabled(p, step) && SendPasses(p, step.session, step.ref, step.gap)
    ensures Sized(p.s)
    ensures var q := Next(p, step).s.inserted;
            && |q| == |p.s.inserted| + 1 && p.s.inserted <= q
            && var e := q[|q| - 1];
            && e.session == step.session && e.ref == step.ref <= e.desired
            && (forall x :: 0 <= x < |q| - 1 && q[x].session == e.session ==> q[x].desired + step.gap <= e.desired)
            && (e.desired > step.ref ==> e.desired == p.prev[e.session] + step.gap)
            && Next(p, step).prev == p.prev[e.session := e.desired]
  {
    hide Run;
    var base: nat, steps: seq<Step> :| Run(Paced(WheelRuns.Init(base), base, []), steps, p);
    RunBehind(Paced(WheelRuns.Init(base), base, []), steps, p);
  }

  // Nothing less is enough: one session sends all it has credits for, each with the largest gap, just before the first
  // slot falls due

  const burstTsc: nat := wslotWidthTsc - 1

  /** After `n` of these packets. */
  ghost predicate Burst(p: Paced, n: nat) {
    && p.prev == [burstTsc + n * maxGap] && p.clock == burstTsc && InWheel(p, 0) == n
    && Sized(p.s) && p.s.wheel.tx == wslotWidthTsc
  }

  lemma {:induction false} BurstMore(p: Paced, n: nat)
    requires Burst(p, n) && SendPasses(p, 0, burstTsc, maxGap)
    ensures Burst(Sent(p, 0, burstTsc, maxGap), n + 1)
  {
    hide InWheel;
    assert (n + 1) * maxGap == n * maxGap + maxGap;
    MulMono(0, n + 1, maxGap);
    SendWaits(p, 0, burstTsc, maxGap);
  }

  /** A packet sent while no slot is due waits in the slots. */
  lemma {:induction false} SendWaits(p: Paced, k: nat, ref: nat, gap: nat)
    requires Sized(p.s) && k < |p.prev| && SendPasses(p, k, ref, gap) && ref < p.s.wheel.tx
    ensures var q := Sent(p, k, ref, gap);
            Sized(q.s) && q.s.wheel.tx == p.s.wheel.tx && InWheel(q, k) == InWheel(p, k) + 1
  {
    hide Later, Flat;
    var desired := Desired(p.prev[k], ref, gap);
    var d, e := Delta(p.s.wheel.tx, desired), NewItem(p.s, Op.Insert(k, ref, desired));
    FlatAround(p.s.wheel.slots, d, e);
    OneMore(Flat(p.s.wheel.slots[..d + 1]), Flat(p.s.wheel.slots[d + 1..]), e, k, -1);
  }

  lemma {:induction false} BurstEnds(p: Paced)
    requires Burst(p, kSessionCredits - 1) && SendPasses(p, 0, burstTsc, maxGap)
    ensures Sound()
  {
    var n := kSessionCredits - 1;
    assert (n + 1) * maxGap == n * maxGap + maxGap;
    MulMono(0, n + 1, maxGap);
    if kSessionCredits * maxGap > (kWheelNumWslots - 1) * wslotWidthTsc {
      DeltaReach(wslotWidthTsc, burstTsc + kSessionCredits * maxGap);
    }
  }

  lemma {:induction false} RunStep(p: Paced, steps: seq<Step>, m: Paced, step: Step)
    requires Run(p, steps, m) && Sized(m.s) && Enabled(m, step)
    ensures Run(p, steps + [step], Next(m, step))
    decreases |steps|
  {
    hide Next, Enabled;
    if steps == [] {
      assert [step][1..] == [];
    } else {
      RunStep(Next(p, steps[0]), steps[1..], m, step);
      assert (steps + [step])[1..] == steps[1..] + [step];
    }
  }

  lemma {:induction false} ReachableNext(p: Paced, step: Step)
    requires Reachable(p) && Sized(p.s) && Enabled(p, step)
    ensures Reachable(Next(p, step))
  {
    hide Next, Enabled, Run;
    var base: nat, steps: seq<Step> :| Run(Paced(WheelRuns.Init(base), base, []), steps, p);
    RunStep(Paced(WheelRuns.Init(base), base, []), steps, p, step);
  }

  lemma {:induction false} BurstStarts() returns (p: Paced)
    ensures p == Next(Paced(WheelRuns.Init(0), 0, []), Connect(burstTsc)) && Burst(p, 0)
  {
    p := Next(Paced(WheelRuns.Init(0), 0, []), Connect(burstTsc));
    FlatEmpty(p.s.wheel.slots);
  }

  ghost predicate SendsAlwaysPass() {
    forall p: Paced, k: nat, ref: nat, gap: nat ::
      Reachable(p) && Enabled(p, Send(k, ref, gap)) ==> SendPasses(p, k, ref, gap)
  }

  lemma {:induction false} BurstReachable(n: nat) returns (p: Paced)
    requires SendsAlwaysPass() && n < kSessionCredits
    ensures Reachable(p) && Burst(p, n)
  {
    if n == 0 {
      p := BurstStarts();
      var p0 := Paced(WheelRuns.Init(0), 0, []);
      assert Run(p0, [], p0);
      ReachableNext(p0, Connect(burstTsc));
    } else {
      var q := BurstReachable(n - 1);
      var step := Send(0, burstTsc, maxGap);
      BurstMore(q, n - 1);
      ReachableNext(q, step);
      p := Next(q, step);
    }
  }

  /** Every packet of every run passes the assertions of `insert` exactly when one largest gap per credit is within both
      the horizon and the slots. */
  lemma {:induction false} PassExactly()
    ensures SendsAlwaysPass() <==> Sound()
  {
    hide Reachable, SendPasses, Sound, Burst;
    if Sound() {
      forall p: Paced, k: nat, ref: nat, gap: nat | Reachable(p) && Enabled(p, Send(k, ref, gap))
        ensures SendPasses(p, k, ref, gap)
      {
        WithinHorizon(p, Send(k, ref, gap));
      }
    }
    if SendsAlwaysPass() {
      var p := BurstReachable(kSessionCredits - 1);
      BurstCanSend(p, kSessionCredits - 1);
      BurstEnds(p);
    }
  }

  lemma {:induction false} BurstCanSend(p: Paced, n: nat)
    requires Burst(p, n) && n < kSessionCredits
    ensures Enabled(p, Send(0, burstTsc, maxGap))
  {
  }
}
