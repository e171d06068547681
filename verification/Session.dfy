/**
 * A client and a server joined by a network that may lose, duplicate and
 * reorder packets: the steps of one session, and its runs.
 */
module Session {
  import opened Options
  import opened Messages
  import opened Datapath
  import opened Sequences

  const kRpcRto: nat  // rpc_rto_cycles_

  /** `net[l]` is the set of packets ever sent whose request number is `l` modulo the window.
      It only grows: a lost packet is never delivered, a duplicated one is delivered again. */
  datatype World = World(c: Client, s: Server, net: seq<set<Pkt>>)

  datatype Step =
    | Enqueue(args: Args, bypass: bool)        // the application calls enqueue_request
    | ClientRx(pkt: Pkt, bypass: bool)         // the client receives a packet
    | Unstalled(bypass: bool)                  // the client kicks the head of its stall queue
    | Reaped(k: nat)                           // a packet leaves the wheel
    | ClientBurst                              // the first item of the client's TX batch is sent
    | LossDetected(slot: nat, bypass: bool)    // the loss scan finds a request past its timeout
    | NextStage                                // the event loop moves on
    | Tick(tsc: nat)                           // the event loop reads the clock
    | ServerRx(pkt: Pkt, mem: Option<Bytes>)   // the server receives a packet; memory for it, if there is any
    | Respond(slot: nat, resp: Bytes)          // a request handler calls enqueue_response
    | ServerBurst                              // the first item of the server's TX batch is sent

  predicate SizedWorld(w: World) {
    && WellSized(w.c)
    && |w.s.slots| == kSessionReqWindow
    && |w.net| == kSessionReqWindow
  }

  /** Put packets on the wire. */
  function Transmit(net: seq<set<Pkt>>, ps: set<Pkt>): (r: seq<set<Pkt>>)
    requires |net| == kSessionReqWindow
    ensures |r| == |net|
  {
    seq(|net|, l requires 0 <= l < |net| => net[l] + set p | p in ps && SlotOf(p.num) == l)
  }

  lemma {:induction false} TransmitOne(net: seq<set<Pkt>>, i: nat, p: Pkt)
    requires |net| == kSessionReqWindow && i < |net| && SlotOf(p.num) == i
    ensures Transmit(net, {p}) == net[i := net[i] + {p}]
  {
    var r := Transmit(net, {p});
    assert forall l | 0 <= l < |r| :: r[l] == (net[i := net[i] + {p}])[l];
  }

  predicate Delivered(w: World, p: Pkt)
    requires SizedWorld(w)
  {
    p in w.net[SlotOf(p.num)]
  }

  /** When a step may be taken. */
  predicate Enabled(w: World, step: Step)
    requires SizedWorld(w)
  {
    match step
    case Enqueue(_, _) => w.c.stage != Flush
    case ClientRx(p, _) => w.c.stage == Receive && Delivered(w, p) && (p.CR? || p.Resp?)
    case Unstalled(_) => w.c.stage == Unstall && w.c.stallq != [] && w.c.credits > 0
    case Reaped(k) => w.c.stage == Reap && k < |w.c.wheel|
    case ClientBurst => w.c.batch != []
    case LossDetected(i, _) =>
      && w.c.stage == Tail
      && i in w.c.active && i < |w.c.slots|
      && w.c.slots[i].numTx != w.c.slots[i].numRx
      && w.c.tsc > w.c.slots[i].progress + kRpcRto
    case NextStage =>
      (match w.c.stage
       case Unstall => w.c.stallq == [] || w.c.credits == 0
       case Flush => w.c.batch == []
       case _ => true)
    case Tick(t) => w.c.stage == Receive && w.c.tsc <= t
    case ServerRx(p, mem) =>
      && !w.s.flushing && Delivered(w, p)
      && (p.RFR? || (p.Req? && (mem.Some? ==> |mem.value| == p.size)))
    case Respond(i, d) =>
      // A handler answers once, with a response that fits the client's buffer
      && !w.s.flushing
      && i < |w.s.slots| && w.s.slots[i].reqType.Some?
      && (w.s.slots[i].cur in w.c.slots[i].sent ==> |d| <= |w.c.slots[i].sent[w.s.slots[i].cur].respBuf|)
    case ServerBurst => w.s.batch != []
  }

  function AfterStage(g: LoopStage): LoopStage {
    match g
    case Receive => Unstall
    case Unstall => Reap
    case Reap => Flush
    case Flush => Tail
    case Tail => Receive
  }

  /** The world after a step. */
  function Next(w: World, step: Step): (w': World)
    requires SizedWorld(w) && Enabled(w, step)
    ensures SizedWorld(w')
  {
    match step
    case Enqueue(a, bypass) =>
      w.(c := EnqueueRequest(w.c.(calls := w.c.calls + [a]), a, bypass))
    case ClientRx(p, bypass) =>
      var i := SlotOf(p.num);
      w.(c := if p.CR? then ProcessCr(w.c, i, p, bypass) else ProcessResp(w.c, i, p, bypass))
    case Unstalled(bypass) => w.(c := KickStalled(w.c, bypass))
    case Reaped(k) => w.(c := ReapOne(w.c, k))
    case ClientBurst =>
      w.(c := w.c.(batch := w.c.batch[1..]), net := Transmit(w.net, ClientEmit(w.c, w.c.batch[0])))
    case LossDetected(i, bypass) => w.(c := Retransmit(w.c, i, bypass))
    case NextStage => w.(c := w.c.(stage := AfterStage(w.c.stage)))
    case Tick(t) => w.(c := w.c.(tsc := t))
    case ServerRx(p, mem) =>
      var i := SlotOf(p.num);
      var o := ServerReceive(w.s.slots[i], p, mem);
      w.(s := w.s.(slots := w.s.slots[i := o.v], batch := w.s.batch + At(i, o.items), flushing := o.drain))
    case Respond(i, d) =>
      w.(s := w.s.(slots := w.s.slots[i := Responded(w.s.slots[i], d)], batch := w.s.batch + At(i, [RespRef(0)])))
    case ServerBurst =>
      w.(s := w.s.(batch := w.s.batch[1..], flushing := w.s.flushing && |w.s.batch| > 1),
         net := Transmit(w.net, ServerEmit(w.s, w.s.batch[0])))
  }

  function InitialClientSlot(i: nat): (c: ClientSlot)
    ensures |c.inWheel| == kSessionCredits
  {
    ClientSlot(i, None, 0, 0, 0, [], 0, 0, seq(kSessionCredits, k => false), 0, map[], [])
  }

  function InitialServerSlot(i: nat): ServerSlot {
    ServerSlot(i, None, None, 0, 0, None, [], map[])
  }

  /** The `Session` constructors: slots are popped from the free vector in index order. */
  function Init(): (w: World)
    ensures SizedWorld(w)
  {
    var W := kSessionReqWindow;
    World(
      Client(kSessionCredits, seq(W, i requires 0 <= i => InitialClientSlot(i)),
             seq(W, i requires 0 <= i < W => W - 1 - i), [], [], [], [], [], Receive, 0, [], []),
      Server(seq(W, i requires 0 <= i => InitialServerSlot(i)), [], false),
      seq(W, i => {}))
  }

  /** The world after a sequence of steps, if each was enabled. */
  ghost predicate Run(w: World, steps: seq<Step>, w': World)
    decreases |steps|
  {
    if steps == [] then w == w'
    else SizedWorld(w) && Enabled(w, steps[0]) && Run(Next(w, steps[0]), steps[1..], w')
  }

  ghost predicate Reachable(w: World) {
    exists steps :: Run(Init(), steps, w)
  }

  lemma {:induction false} RunConcat(w: World, a: seq<Step>, w1: World, b: seq<Step>, w2: World)
    requires Run(w, a, w1) && Run(w1, b, w2)
    ensures Run(w, a + b, w2)
    decreases |a|
  {
    hide Next, Enabled;
    if a == [] {
      assert a + b == b;
    } else {
      RunConcat(Next(w, a[0]), a[1..], w1, b, w2);
      TailOfAppend(a, b);
    }
  }

  lemma {:induction false} RunStep(w: World, a: seq<Step>, w1: World, step: Step)
    requires Run(w, a, w1) && SizedWorld(w1) && Enabled(w1, step)
    ensures Run(w, a + [step], Next(w1, step))
  {
    assert Run(Next(w1, step), [], Next(w1, step));
    assert Run(w1, [step], Next(w1, step)) by { assert [step][1..] == []; }
    RunConcat(w, a, w1, [step], Next(w1, step));
  }
}
