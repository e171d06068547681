/**
 * No session is ever stuck: whatever was lost, every active request can still
 * finish by retransmission alone.
 */
module Recovery {
  import opened Options
  import opened Sequences
  import opened Arith
  import opened Messages
  import opened Datapath
  import opened Session
  import opened SlotInvariant
  import opened SharedQueues
  import opened SessionInvariant
  import opened SessionSteps
  import opened MsgBuffers
  import Theorems

  // Runs in which everything sent before is lost

  function Emitted(w: World, step: Step): set<Pkt>
    requires SizedWorld(w) && Enabled(w, step)
  {
    match step
    case ClientBurst => ClientEmit(w.c, w.c.batch[0])
    case ServerBurst => ServerEmit(w.s, w.s.batch[0])
    case _ => {}
  }

  /** What the handlers answer to each request; a request is answered once. */
  type Answers = (nat, Args) -> Bytes

  /** Every answer fits the buffer that the client gave for it. */
  ghost predicate Fits(g: Answers) {
    forall num: nat, a: Args :: |g(num, a)| <= |a.respBuf|
  }

  /** The application enqueues nothing, only packets from `sent` arrive, and handlers answer as `g` says. */
  ghost predicate Alone(g: Answers, w: World, sent: set<Pkt>, step: Step) {
    match step
    case Enqueue(_, _) => false
    case Respond(i, d) =>
      && i < |w.c.slots| && i < |w.s.slots|
      && var num := w.s.slots[i].cur;
      num in w.c.slots[i].sent && d == g(num, w.c.slots[i].sent[num])
    case ClientRx(p, _) => p in sent
    case ServerRx(p, _) => p in sent
    case _ => true
  }

  /** A run from `w` to `w'` in which packets arrive only after they were sent in the run itself, or are in `sent`;
      `sent'` is what they have become. */
  ghost predicate Path(g: Answers, w: World, sent: set<Pkt>, steps: seq<Step>, w': World, sent': set<Pkt>)
    decreases |steps|
  {
    if steps == [] then w == w' && sent == sent'
    else
      && SizedWorld(w) && Enabled(w, steps[0]) && Alone(g, w, sent, steps[0])
      && Path(g, Next(w, steps[0]), sent + Emitted(w, steps[0]), steps[1..], w', sent')
  }

  ghost predicate To(g: Answers, w: World, sent: set<Pkt>, w': World, sent': set<Pkt>) {
    exists steps :: Path(g, w, sent, steps, w', sent')
  }

  lemma {:induction false} PathIsRun(g: Answers, w: World, sent: set<Pkt>, steps: seq<Step>, w': World, sent': set<Pkt>)
    requires Path(g, w, sent, steps, w', sent')
    ensures Run(w, steps, w')
    decreases |steps|
  {
    hide Session.Next, Session.Enabled;
    if steps != [] {
      PathIsRun(g, Next(w, steps[0]), sent + Emitted(w, steps[0]), steps[1..], w', sent');
    }
  }

  lemma {:induction false} PathStep(g: Answers, w: World, sent: set<Pkt>, steps: seq<Step>, m: World, sent': set<Pkt>,
                                    step: Step)
    requires Path(g, w, sent, steps, m, sent') && SizedWorld(m) && Enabled(m, step) && Alone(g, m, sent', step)
    ensures Path(g, w, sent, steps + [step], Next(m, step), sent' + Emitted(m, step))
    decreases |steps|
  {
    hide Session.Next, Session.Enabled, Emitted;
    if steps == [] {
      assert steps + [step] == [step] && [step][1..] == [];
    } else {
      PathStep(g, Next(w, steps[0]), sent + Emitted(w, steps[0]), steps[1..], m, sent', step);
      TailOfAppend(steps, [step]);
    }
  }

  // What every world on such a path satisfies

  ghost predicate OnWire(w: World, sent: set<Pkt>)
    requires SizedWorld(w)
  {
    forall p :: p in sent ==> Delivered(w, p)
  }

  ghost predicate Good(w: World, sent: set<Pkt>) {
    && SizedWorld(w) && SessionInv(w) && OnWire(w, sent) && (w.s.flushing ==> w.s.batch != [])
  }

  ghost predicate Reaches(g: Answers, w: World, sent: set<Pkt>, m: World, sent': set<Pkt>) {
    Fits(g) && To(g, w, sent, m, sent') && Good(m, sent')
  }

  lemma {:induction false} Go(g: Answers, w: World, sent: set<Pkt>, m: World, sent': set<Pkt>, step: Step)
    requires Reaches(g, w, sent, m, sent') && SizedWorld(m) && Enabled(m, step) && Alone(g, m, sent', step)
    ensures Reaches(g, w, sent, Next(m, step), sent' + Emitted(m, step))
  {
    hide SessionInvariant.SessionInv, Session.Next, Session.Enabled, Emitted, Path;
    StepOk(m, step);
    WireGrows(m, sent', step);
    DrainEnds(m, step);
    var steps :| Path(g, w, sent, steps, m, sent');
    PathStep(g, w, sent, steps, m, sent', step);
  }

  lemma {:induction false} WireGrows(w: World, sent: set<Pkt>, step: Step)
    requires SizedWorld(w) && OnWire(w, sent) && Enabled(w, step)
    ensures OnWire(Next(w, step), sent + Emitted(w, step))
  {
    hide Datapath.ProcessCr, Datapath.ProcessResp, Datapath.EnqueueRequest, Datapath.KickStalled, Datapath.Retransmit;
    hide Datapath.ReapOne, Datapath.ServerReceive, Datapath.Responded, Datapath.ClientEmit, Datapath.ServerEmit;
  }

  lemma {:induction false} DrainEnds(w: World, step: Step)
    requires SizedWorld(w) && Enabled(w, step) && (w.s.flushing ==> w.s.batch != [])
    ensures var s := Next(w, step).s; s.flushing ==> s.batch != []
  {
    hide Datapath.ProcessCr, Datapath.ProcessResp, Datapath.EnqueueRequest, Datapath.KickStalled, Datapath.Retransmit;
    hide Datapath.ReapOne, Datapath.Responded, Datapath.ClientEmit, Datapath.ServerEmit;
  }

  // The client by itself: kicks, the wheel, the batch

  predicate SameSlot(c: ClientSlot, d: ClientSlot) {
    && d.tx == c.tx && d.cur == c.cur && d.numRx == c.numRx && d.sent == c.sent && d.done == c.done
    && d.numTx >= c.numTx
  }

  /** The client received nothing: it only sent packets. */
  ghost predicate Calm(a: Client, b: Client) {
    && b.backlog == a.backlog && |b.slots| == |a.slots|
    && forall j | 0 <= j < |a.slots| :: SameSlot(a.slots[j], b.slots[j])
  }

  /** Nor did it retransmit, and the server did nothing. */
  ghost predicate Quiet(w: World, m: World) {
    && m.s == w.s && Calm(w.c, m.c)
    && forall j | 0 <= j < |w.c.slots| :: m.c.slots[j].progress == w.c.slots[j].progress
  }

  lemma {:induction false} QuietTrans(a: World, b: World, c: World)
    requires Quiet(a, b) && Quiet(b, c)
    ensures Quiet(a, c)
  {
  }

  /** The client after `NextStage`. */
  function Advanced(w: World): World { w.(c := w.c.(stage := AfterStage(w.c.stage))) }

  lemma {:induction false} Advance(g: Answers, w: World, sent: set<Pkt>, m: World, sent': set<Pkt>)
    requires Reaches(g, w, sent, m, sent')
    requires m.c.stage.Unstall? ==> m.c.stallq == [] || m.c.credits == 0
    requires m.c.stage.Flush? ==> m.c.batch == []
    ensures Reaches(g, w, sent, Advanced(m), sent') && Quiet(m, Advanced(m))
  {
    hide SessionInvariant.SessionInv, To;
    Go(g, w, sent, m, sent', NextStage);
    assert sent' + {} == sent';
  }

  lemma {:induction false} SendBatch(g: Answers, w: World, sent: set<Pkt>, m: World, sent': set<Pkt>)
    returns (m': World, more: set<Pkt>)
    requires Reaches(g, w, sent, m, sent')
    ensures Reaches(g, w, sent, m', more) && sent' <= more
    ensures m' == m.(c := m.c.(batch := []), net := m'.net)
    ensures forall k | 0 <= k < |m.c.batch| :: ClientEmit(m.c, m.c.batch[k]) <= more
    decreases |m.c.batch|
  {
    hide SessionInvariant.SessionInv, To;
    if m.c.batch == [] {
      m', more := m, sent';
    } else {
      Go(g, w, sent, m, sent', ClientBurst);
      var n := Next(m, ClientBurst);
      m', more := SendBatch(g, w, sent, n, sent' + Emitted(m, ClientBurst));
      forall k | 0 <= k < |m.c.batch| ensures ClientEmit(m.c, m.c.batch[k]) <= more {
        if k > 0 { assert ClientEmit(n.c, n.c.batch[k - 1]) == ClientEmit(m.c, m.c.batch[k]); }
      }
    }
  }

  lemma {:induction false} KickAll(g: Answers, w: World, sent: set<Pkt>, m: World, sent': set<Pkt>) returns (m': World)
    requires Reaches(g, w, sent, m, sent') && m.c.stage.Unstall?
    ensures Reaches(g, w, sent, m', sent') && Quiet(m, m') && m'.c.stage.Unstall? && m'.c.tsc == m.c.tsc
    ensures m'.c.stallq == [] || m'.c.credits == 0
    decreases |m.c.stallq|
  {
    hide SessionInvariant.SessionInv, To, Datapath.KickStalled;
    m' := m;
    if m.c.stallq != [] && m.c.credits > 0 {
      Go(g, w, sent, m, sent', Unstalled(true));
      assert sent' + {} == sent';
      KickedQuiet(m.c);
      var n := Next(m, Unstalled(true));
      m' := KickAll(g, w, sent, n, sent');
      QuietTrans(m, n, m');
    }
  }

  lemma {:induction false} KickedQuiet(s: Client)
    requires WellSized(s) && s.stallq != []
    ensures var r := KickStalled(s, true);
            && Calm(s, r) && r.stage == s.stage && r.tsc == s.tsc
            && forall j | 0 <= j < |s.slots| :: r.slots[j].progress == s.slots[j].progress
  {
  }

  lemma {:induction false} ReapAll(g: Answers, w: World, sent: set<Pkt>, m: World, sent': set<Pkt>) returns (m': World)
    requires Reaches(g, w, sent, m, sent') && m.c.stage.Reap?
    ensures Reaches(g, w, sent, m', sent') && Quiet(m, m') && m'.c.stage.Reap? && m'.c.wheel == []
    ensures m'.c.tsc == m.c.tsc && m'.c.stallq == m.c.stallq && m'.c.credits == m.c.credits
    decreases |m.c.wheel|
  {
    hide SessionInvariant.SessionInv, To, Datapath.ReapOne;
    m' := m;
    if m.c.wheel != [] {
      Go(g, w, sent, m, sent', Reaped(0));
      assert sent' + {} == sent';
      ReapedQuiet(m.c);
      var n := Next(m, Reaped(0));
      m' := ReapAll(g, w, sent, n, sent');
      QuietTrans(m, n, m');
    }
  }

  lemma {:induction false} ReapedQuiet(s: Client)
    requires WellSized(s) && s.wheel != []
    ensures var r := ReapOne(s, 0);
            && Calm(s, r) && r.stage == s.stage && r.tsc == s.tsc
            && r.stallq == s.stallq && r.credits == s.credits && |r.wheel| == |s.wheel| - 1
            && forall j | 0 <= j < |s.slots| :: r.slots[j].progress == s.slots[j].progress
  {
  }

  function Rank(g: LoopStage): nat {
    match g
    case Receive => 0
    case Tail => 1
    case Flush => 2
    case Reap => 3
    case Unstall => 4
  }

  /** The event loop gets to its receive stage. */
  lemma {:induction false} ToReceive(g: Answers, w: World, sent: set<Pkt>, m: World, sent': set<Pkt>)
    returns (m': World, more: set<Pkt>)
    requires Reaches(g, w, sent, m, sent')
    ensures Reaches(g, w, sent, m', more) && Quiet(m, m') && m'.c.stage.Receive? && sent' <= more
    ensures m.c.stage.Receive? || m.c.stage.Tail? || m.c.stage.Flush? ==> m'.c.wheel == m.c.wheel
    ensures m.c.stage.Flush? ==> forall k | 0 <= k < |m.c.batch| :: ClientEmit(m.c, m.c.batch[k]) <= more
    decreases Rank(m.c.stage)
  {
    hide SessionInvariant.SessionInv, To, ClientEmit;
    var n := m;
    more := sent';
    if m.c.stage.Receive? {
      m' := m;
    } else {
      if m.c.stage.Unstall? { n := KickAll(g, w, sent, m, sent'); }
      if m.c.stage.Flush? { n, more := SendBatch(g, w, sent, m, sent'); }
      Advance(g, w, sent, n, more);
      var less := more;
      m', more := ToReceive(g, w, sent, Advanced(n), less);
      QuietTrans(m, n, Advanced(n));
      QuietTrans(m, Advanced(n), m');
    }
  }

  /** From there one turn at time `t` without packets arriving: the wheel and the batch are emptied. */
  lemma {:induction false} OneTurn(g: Answers, w: World, sent: set<Pkt>, m: World, sent': set<Pkt>, t: nat)
    returns (m': World, more: set<Pkt>)
    requires Reaches(g, w, sent, m, sent') && m.c.stage.Receive? && m.c.tsc <= t
    ensures Reaches(g, w, sent, m', more) && Quiet(m, m') && m'.c.stage.Tail? && m'.c.tsc == t
    ensures m'.c.wheel == [] && m'.c.batch == [] && (m'.c.stallq == [] || m'.c.credits == 0)
  {
    hide SessionInvariant.SessionInv, To, ClientEmit;
    Go(g, w, sent, m, sent', Tick(t));
    assert sent' + {} == sent';
    var a := m.(c := m.c.(tsc := t));
    Advance(g, w, sent, a, sent');
    var b := KickAll(g, w, sent, Advanced(a), sent');
    QuietTrans(m, Advanced(a), b);
    Advance(g, w, sent, b, sent');
    var c := ReapAll(g, w, sent, Advanced(b), sent');
    QuietTrans(m, Advanced(b), c);
    Advance(g, w, sent, c, sent');
    var d;
    d, more := SendBatch(g, w, sent, Advanced(c), sent');
    QuietTrans(m, c, d);
    Advance(g, w, sent, d, more);
    m' := Advanced(d);
  }

  // Retransmission

  /** The packet that makes the server answer the client's next one. */
  function Ask(c: ClientSlot): Pkt
    requires c.tx.Some?
  {
    if c.numRx < ReqPkts(c.tx.value) then ReqPkt(c.cur, c.tx.value, c.numRx) else RFR(c.cur, c.numRx)
  }

  lemma {:induction false} CalmTrans(a: Client, b: Client, c: Client)
    requires Calm(a, b) && Calm(b, c)
    ensures Calm(a, c)
  {
  }

  lemma {:induction false} RetransmitCalm(s: Client, j: nat)
    requires WellSized(s) && j < |s.slots| && Retransmit(s, j, true).slots[j].numTx >= s.slots[j].numTx
    ensures var r := Retransmit(s, j, true); Calm(s, r) && r.stage.Flush? && r.wheel == s.wheel
  {
  }

  /** Once a slot is past its timeout, its next packet to acknowledge can be sent again. */
  lemma {:induction false} AskAgain(g: Answers, w: World, sent: set<Pkt>, m: World, sent': set<Pkt>, j: nat)
    returns (m': World, more: set<Pkt>)
    requires Reaches(g, w, sent, m, sent') && m.c.stage.Tail? && m.c.wheel == []
    requires SizedWorld(m) && Enabled(m, LossDetected(j, true)) && m.c.slots[j].wheelCount == 0
    ensures Reaches(g, w, sent, m', more) && m'.s == m.s && Calm(m.c, m'.c) && m'.c.stage.Receive? && m'.c.wheel == []
    ensures m.c.slots[j].tx.Some? && Ask(m.c.slots[j]) in more
    ensures m'.c.slots[j].numTx > m'.c.slots[j].numRx
  {
    hide SessionInvariant.SessionInv, To, Datapath.Retransmit;
    Go(g, w, sent, m, sent', LossDetected(j, true));
    assert sent' + {} == sent';
    Theorems.Resends(m, j, true);
    var n := Next(m, LossDetected(j, true));
    RetransmitCalm(m.c, j);
    m', more := ToReceive(g, w, sent, n, sent');
    CalmTrans(m.c, n.c, m'.c);
    var c := m.c.slots[j];
    var item := if c.numRx < ReqPkts(c.tx.value) then ReqRef(c.numRx) else Ctl(RFR(c.cur, c.numRx));
    assert Tagged(j, item) in n.c.batch;
    var k :| 0 <= k < |n.c.batch| && n.c.batch[k] == Tagged(j, item);
    assert Ask(c) in ClientEmit(n.c, n.c.batch[k]);
  }

  // The server's answer

  lemma {:induction false} SendServerBatch(g: Answers, w: World, sent: set<Pkt>, m: World, sent': set<Pkt>)
    returns (m': World, more: set<Pkt>)
    requires Reaches(g, w, sent, m, sent')
    ensures Reaches(g, w, sent, m', more) && sent' <= more
    ensures m' == m.(s := m.s.(batch := [], flushing := false), net := m'.net)
    ensures forall k | 0 <= k < |m.s.batch| :: ServerEmit(m.s, m.s.batch[k]) <= more
    decreases |m.s.batch|
  {
    hide SessionInvariant.SessionInv, To;
    if m.s.batch == [] {
      m', more := m, sent';
    } else {
      Go(g, w, sent, m, sent', ServerBurst);
      var n := Next(m, ServerBurst);
      m', more := SendServerBatch(g, w, sent, n, sent' + Emitted(m, ServerBurst));
      forall k | 0 <= k < |m.s.batch| ensures ServerEmit(m.s, m.s.batch[k]) <= more {
        if k > 0 { assert ServerEmit(n.s, n.s.batch[k - 1]) == ServerEmit(m.s, m.s.batch[k]); }
      }
    }
  }

  /** The server has the client's request and its response. */
  ghost predicate HasResponse(c: ClientSlot, v: ServerSlot)
    requires c.tx.Some?
  {
    v.cur == c.cur && v.tx.Some? && v.savReqPkts == ReqPkts(c.tx.value)
  }

  /** The server's handler has the client's request. */
  ghost predicate HandlerRuns(c: ClientSlot, v: ServerSlot)
    requires c.tx.Some?
  {
    && v.cur == c.cur && v.reqType.Some? && v.cur !in v.resps
    && v.reqBuf.Some? && NumPkts(|v.reqBuf.value|) == ReqPkts(c.tx.value)
  }

  /** What the server does with the client's packet: it returns the credit, sends the response packet, or has it handled
      before it can. */
  ghost predicate Served(c: ClientSlot, v: ServerSlot, o: Datapath.Served)
    requires c.tx.Some?
  {
    var n := ReqPkts(c.tx.value);
    && o.v.resps == v.resps
    && (if c.numRx + 1 < n then SCtl(CR(c.cur, c.numRx)) in o.items
        else || (RespRef(c.numRx + 1 - n) in o.items && HasResponse(c, o.v))
             || (c.numRx + 1 == n && o.items == [] && !o.drain && HandlerRuns(c, o.v)))
  }

  lemma {:induction false} AskServed(i: nat, x: View, mem: Option<Bytes>)
    requires SlotInv(i, x) && x.c.tx.Some? && mem.Some? && (Ask(x.c).Req? ==> |mem.value| == Ask(x.c).size)
    ensures Served(x.c, x.v, ServerReceive(x.v, Ask(x.c), mem))
  {
    hide SlotInvariant.SlotInv, SlotInvariant.NetInv, SlotInvariant.DoneLog, SlotInvariant.ExecLog;
    hide SlotInvariant.Settled, SlotInvariant.RespSent, Messages.Holds;
    CoreOf(i, x);
    var c, v := x.c, x.v;
    if c.numRx >= ReqPkts(c.tx.value) {
      AskResponse(c, v, x.net);
    } else if v.cur != c.cur {
      AskNew(i, c, v, mem);
    } else if |c.tx.value.data| <= kMaxDataPerPkt {
      AskSmall(c, v);
    } else {
      AskLarge(c, v, mem.value);
    }
  }

  lemma {:induction false} AskResponse(c: ClientSlot, v: ServerSlot, net: set<Pkt>)
    requires c.tx.Some? && c.numRx >= ReqPkts(c.tx.value) && RespArriving(c, v, net) && c.numRx <= v.numRx
    requires c.tx.value == c.sent[c.cur]
    ensures Served(c, v, ProcessRfr(v, Ask(c)))
  {
    hide Messages.Holds, Messages.NumPkts, SlotInvariant.RespSent;
    var o := ProcessRfr(v, Ask(c));
    assert o.items == [RespRef(c.numRx + 1 - ReqPkts(c.tx.value))];
  }

  lemma {:induction false} AskNew(i: nat, c: ClientSlot, v: ServerSlot, mem: Option<Bytes>)
    requires Numbering(i, c, v) && RespLog(c, v) && c.tx.Some? && v.cur != c.cur && c.numRx == 0
    requires mem.Some? && |mem.value| == |c.tx.value.data|
    ensures Served(c, v, ServerReceive(v, Ask(c), mem))
  {
    var a := c.tx.value;
    var p := ReqPkt(c.cur, a, 0);
    assert c.cur !in v.resps;
    if |a.data| <= kMaxDataPerPkt { FirstChunk(a.data); }
  }

  lemma {:induction false} FirstChunk(d: Bytes)
    requires |d| <= kMaxDataPerPkt
    ensures Chunk(d, 0) == d
  {
    CoveredBounds(0, |d|);
  }

  lemma {:induction false} AskSmall(c: ClientSlot, v: ServerSlot)
    requires c.tx.Some? && v.cur == c.cur && c.cur in c.sent && c.tx.value == c.sent[c.cur] && c.numRx == 0
    requires |c.tx.value.data| <= kMaxDataPerPkt && ServerInv(c, v)
    ensures Served(c, v, ProcessSmallReq(v, Ask(c)))
  {
    hide SlotInvariant.ExecLog, SlotInvariant.RespLog, Messages.Holds;
  }

  lemma {:induction false} AskLarge(c: ClientSlot, v: ServerSlot, mem: Bytes)
    requires c.tx.Some? && v.cur == c.cur && c.cur in c.sent && c.tx.value == c.sent[c.cur]
    requires c.numRx < ReqPkts(c.tx.value) && c.numRx <= v.numRx
    requires |c.tx.value.data| > kMaxDataPerPkt && ServerInv(c, v)
    ensures Served(c, v, ProcessLargeReq(v, Ask(c), mem))
  {
    hide SlotInvariant.ExecLog, SlotInvariant.RespLog, Messages.Holds, Messages.CopyData;
  }

  // What is left to do

  /** Packets from the server that a request needs if its response fills the buffer for it. */
  function Most(a: Args): nat { ReqPkts(a) + NumPkts(|a.respBuf|) - 1 }

  /** Packets from the server that the slot's request still needs, or at most needs while there is no response. */
  function TodoSlot(c: ClientSlot, v: ServerSlot): int {
    if c.tx.None? then 0
    else if c.cur in v.resps then ReqPkts(c.tx.value) + NumPkts(|v.resps[c.cur]|) - 1 - c.numRx
    else Most(c.tx.value) - c.numRx
  }

  function TodoSlots(cs: seq<ClientSlot>, vs: seq<ServerSlot>): int {
    if cs == [] || vs == [] then 0 else TodoSlot(cs[0], vs[0]) + TodoSlots(cs[1..], vs[1..])
  }

  function TodoBacklog(q: seq<Args>): nat {
    if q == [] then 0 else Most(q[0]) + TodoBacklog(q[1..])
  }

  function Todo(s: Client, vs: seq<ServerSlot>): int {
    TodoSlots(s.slots, vs) + TodoBacklog(s.backlog)
  }

  lemma {:induction false} TodoUpdate(cs: seq<ClientSlot>, vs: seq<ServerSlot>, j: nat, c: ClientSlot, v: ServerSlot)
    requires j < |cs| == |vs|
    ensures TodoSlots(cs[j := c], vs[j := v]) == TodoSlots(cs, vs) - TodoSlot(cs[j], vs[j]) + TodoSlot(c, v)
    decreases |cs|
  {
    hide TodoSlot;
    if j == 0 {
      assert cs[0 := c][1..] == cs[1..] && vs[0 := v][1..] == vs[1..];
    } else {
      TodoUpdate(cs[1..], vs[1..], j - 1, c, v);
      assert cs[j := c][1..] == cs[1..][j - 1 := c] && vs[j := v][1..] == vs[1..][j - 1 := v];
    }
  }

  lemma {:induction false} TodoSame(cs: seq<ClientSlot>, ds: seq<ClientSlot>, vs: seq<ServerSlot>)
    requires |cs| == |ds| && forall j | 0 <= j < |cs| :: SameSlot(cs[j], ds[j])
    ensures TodoSlots(cs, vs) == TodoSlots(ds, vs)
    decreases |cs|
  {
    if cs != [] && vs != [] { TodoSame(cs[1..], ds[1..], vs[1..]); }
  }

  lemma {:induction false} TodoNat(cs: seq<ClientSlot>, vs: seq<ServerSlot>)
    requires |cs| == |vs| && forall j | 0 <= j < |cs| :: TodoSlot(cs[j], vs[j]) >= 0
    ensures TodoSlots(cs, vs) >= 0
    decreases |cs|
  {
    if cs != [] { TodoNat(cs[1..], vs[1..]); }
  }

  /** An active request needs at least one packet. */
  lemma {:induction false} ActiveTodo(i: nat, x: View)
    requires SlotInv(i, x)
    ensures TodoSlot(x.c, x.v) >= 0 && (x.c.tx.Some? ==> TodoSlot(x.c, x.v) >= 1)
  {
    hide SlotInvariant.SlotInv, SlotInvariant.NetInv, SlotInvariant.DoneLog, SlotInvariant.ExecLog;
    hide SlotInvariant.Settled, SlotInvariant.RespSent, Messages.Holds;
    CoreOf(i, x);
  }

  lemma {:induction false} TodoBounded(m: World, sent: set<Pkt>)
    requires Good(m, sent)
    ensures Todo(m.c, m.s.slots) >= 0
  {
    hide SlotInvariant.SlotInv;
    forall j | 0 <= j < kSessionReqWindow ensures TodoSlot(m.c.slots[j], m.s.slots[j]) >= 0 {
      ActiveTodo(j, ViewOf(m, j));
    }
    TodoNat(m.c.slots, m.s.slots);
  }

  /** The server answers the client's packet: a credit return or response packet for it gets on the wire. */
  lemma {:induction false} GetAnswer(g: Answers, w: World, sent: set<Pkt>, m: World, sent': set<Pkt>, j: nat)
    returns (m': World, more: set<Pkt>, p: Pkt)
    requires Reaches(g, w, sent, m, sent') && j < |m.c.slots| && m.c.slots[j].tx.Some? && Ask(m.c.slots[j]) in sent'
    ensures Reaches(g, w, sent, m', more) && m'.c == m.c && p in more
    ensures (p.CR? || p.Resp?) && p.num == m.c.slots[j].cur && p.pkt == m.c.slots[j].numRx
    ensures Todo(m'.c, m'.s.slots) <= Todo(m.c, m.s.slots)
  {
    hide SessionInvariant.SessionInv, To, TodoSlots, TodoBacklog, TodoSlot, Ask;
    var c := m.c.slots[j];
    var b, s1, o := DeliverAsk(g, w, sent, m, sent', j);
    SameResps(c, m.s.slots[j], o.v);
    TodoUpdate(m.c.slots, m.s.slots, j, c, o.v);
    assert m.c.slots[j := c] == m.c.slots;
    if c.numRx + 1 < ReqPkts(c.tx.value) {
      p := CR(c.cur, c.numRx);
      m', more := Replied(g, w, sent, b, s1, j, SCtl(p), o.items);
    } else if RespRef(c.numRx + 1 - ReqPkts(c.tx.value)) in o.items && HasResponse(c, o.v) {
      var k := c.numRx + 1 - ReqPkts(c.tx.value);
      p := RespPkt(c.cur, ReqPkts(c.tx.value), o.v.tx.value, k);
      m', more := Replied(g, w, sent, b, s1, j, RespRef(k), o.items);
    } else {
      m', more, p := Handled(g, w, sent, b, s1, j);
    }
  }

  lemma {:induction false} DeliverAsk(g: Answers, w: World, sent: set<Pkt>, m: World, sent': set<Pkt>, j: nat)
    returns (m': World, more: set<Pkt>, o: Datapath.Served)
    requires Reaches(g, w, sent, m, sent') && j < |m.c.slots| && m.c.slots[j].tx.Some? && Ask(m.c.slots[j]) in sent'
    ensures Reaches(g, w, sent, m', more) && m'.c == m.c && j < |m.s.slots| == |m.c.slots|
    ensures m'.s == Server(m.s.slots[j := o.v], At(j, o.items), o.drain)
    ensures Served(m.c.slots[j], m.s.slots[j], o)
  {
    hide SessionInvariant.SessionInv, SlotInvariant.SlotInv, To, Datapath.ServerReceive, Ask, Served;
    var c := m.c.slots[j];
    var a;
    a, more := SendServerBatch(g, w, sent, m, sent');
    var q := Ask(c);
    var mem: Option<Bytes> := Some(seq(if q.Req? then q.size else 0, _ => 0));
    SlotIs(a, more, j);
    AskKind(c);
    assert Delivered(a, q);
    AskServed(j, ViewOf(a, j), mem);
    o := ServerReceive(a.s.slots[j], q, mem);
    Go(g, w, sent, a, more, ServerRx(q, mem));
    assert more + {} == more && [] + At(j, o.items) == At(j, o.items);
    m' := Next(a, ServerRx(q, mem));
  }

  lemma {:induction false} SlotIs(m: World, sent: set<Pkt>, j: nat)
    requires Good(m, sent) && j < |m.c.slots|
    ensures j < kSessionReqWindow && SlotOf(m.c.slots[j].cur) == j && SlotInv(j, ViewOf(m, j))
    ensures var c := m.c.slots[j]; c.tx.Some? ==> c.cur in c.sent && c.tx.value == c.sent[c.cur]
  {
    hide SessionInvariant.FreeInv, SessionInvariant.StallInv, SessionInvariant.Outstanding, SlotInvariant.SlotInv;
    assert SlotInv(j, ViewOf(m, j));
    CoreOf(j, ViewOf(m, j));
  }

  lemma {:induction false} AskKind(c: ClientSlot)
    requires c.tx.Some?
    ensures Ask(c).num == c.cur && (Ask(c).Req? || Ask(c).RFR?)
  {
  }

  lemma {:induction false} SameResps(c: ClientSlot, v: ServerSlot, v': ServerSlot)
    requires v'.resps == v.resps
    ensures TodoSlot(c, v') == TodoSlot(c, v)
  {
  }

  /** The server sends its batch, with a given item in it. */
  lemma {:induction false} Replied(g: Answers, w: World, sent: set<Pkt>, m: World, sent': set<Pkt>, j: nat,
                                   item: ServerItem, items: seq<ServerItem>)
    returns (m': World, more: set<Pkt>)
    requires Reaches(g, w, sent, m, sent') && m.s.batch == At(j, items) && item in items
    ensures Reaches(g, w, sent, m', more) && m'.c == m.c && m'.s.slots == m.s.slots
    ensures ServerEmit(m.s, Tagged(j, item)) <= more
  {
    hide SessionInvariant.SessionInv, To, ServerEmit;
    m', more := SendServerBatch(g, w, sent, m, sent');
    var k :| 0 <= k < |items| && items[k] == item;
    assert m.s.batch[k] == Tagged(j, item);
  }

  /** The handler answers. */
  lemma {:induction false} Handled(g: Answers, w: World, sent: set<Pkt>, m: World, sent': set<Pkt>, j: nat)
    returns (m': World, more: set<Pkt>, p: Pkt)
    requires Reaches(g, w, sent, m, sent') && j < |m.c.slots| == |m.s.slots| && m.c.slots[j].tx.Some?
    requires m.s.batch == [] && !m.s.flushing && HandlerRuns(m.c.slots[j], m.s.slots[j])
    requires m.c.slots[j].numRx + 1 == ReqPkts(m.c.slots[j].tx.value)
    ensures Reaches(g, w, sent, m', more) && m'.c == m.c && p in more
    ensures p.Resp? && p.num == m.c.slots[j].cur && p.pkt == m.c.slots[j].numRx
    ensures Todo(m'.c, m'.s.slots) <= Todo(m.c, m.s.slots)
  {
    hide SessionInvariant.SessionInv, To, TodoSlots, TodoBacklog;
    var c, v := m.c.slots[j], m.s.slots[j];
    SlotIs(m, sent', j);
    var d := g(c.cur, c.tx.value);
    Go(g, w, sent, m, sent', Respond(j, d));
    assert sent' + {} == sent';
    var n := Next(m, Respond(j, d));
    var v' := Responded(v, d);
    assert n.s.slots == m.s.slots[j := v'] && n.s.batch == At(j, [RespRef(0)]);
    FewerPkts(|d|, |c.tx.value.respBuf|);
    TodoUpdate(m.c.slots, m.s.slots, j, c, v');
    assert m.c.slots[j := c] == m.c.slots;
    p := RespPkt(c.cur, ReqPkts(c.tx.value), d, 0);
    m', more := Replied(g, w, sent, n, sent', j, RespRef(0), [RespRef(0)]);
  }

  // The client takes the answer

  /** Requests that were sent stay recorded. */
  ghost predicate KeepsSent(a: Client, b: Client) {
    |b.slots| == |a.slots| && forall i | 0 <= i < |a.slots| :: a.slots[i].sent.Keys <= b.slots[i].sent.Keys
  }

  /** A finished slot takes the first backlogged request, if any. */
  lemma {:induction false} CompleteTodo(s: Client, vs: seq<ServerSlot>, j: nat)
    requires WellSized(s) && j < |s.slots| == |vs| && (s.backlog != [] ==> s.freeVec == [])
    requires s.slots[j].cur + kSessionReqWindow !in vs[j].resps
    ensures var r := Complete(s, j, true);
            Todo(r, vs) == Todo(s, vs) - TodoSlot(s.slots[j], vs[j]) && KeepsSent(s, r)
  {
    hide TodoSlots, KickReq, TodoBacklog;
    var c := s.slots[j];
    var d := Done(c.cur, c.respBuf[..Min(c.respSize, |c.respBuf|)]);
    var c1 := c.(tx := None, done := c.done + [d]);
    var s1 := s.(slots := s.slots[j := c1], active := Without(s.active, j), freeVec := s.freeVec + [j]);
    TodoUpdate(s.slots, vs, j, c1, vs[j]);
    assert vs[j := vs[j]] == vs;
    if s.backlog != [] {
      var s2 := s1.(backlog := s1.backlog[1..]);
      StartTodo(s2, vs, j, s.backlog[0]);
      BacklogTodo(s.backlog);
    }
  }

  lemma {:induction false} BacklogTodo(q: seq<Args>)
    requires q != []
    ensures TodoBacklog(q) == Most(q[0]) + TodoBacklog(q[1..])
  {
  }

  lemma {:induction false} StartTodo(s: Client, vs: seq<ServerSlot>, j: nat, a: Args)
    requires WellSized(s) && j < |s.slots| == |vs| && s.freeVec == [j] && s.slots[j].tx.None?
    requires s.slots[j].cur + kSessionReqWindow !in vs[j].resps
    ensures var r := EnqueueRequest(s, a, true);
            Todo(r, vs) == Todo(s, vs) + Most(a) && KeepsSent(s, r)
  {
    hide TodoSlots, TodoBacklog;
    var r := EnqueueRequest(s, a, true);
    assert r.slots == s.slots[j := r.slots[j]];
    TodoUpdate(s.slots, vs, j, r.slots[j], vs[j]);
    assert vs[j := vs[j]] == vs;
  }

  /** The slot after some acknowledgements, whatever it sent in return. */
  lemma {:induction false} AckTodo(s: Client, r: Client, vs: seq<ServerSlot>, j: nat)
    requires j < |s.slots| == |vs| && r.backlog == s.backlog && |r.slots| == |s.slots|
    requires r.slots == s.slots[j := r.slots[j]] && r.slots[j].tx == s.slots[j].tx && s.slots[j].tx.Some?
    requires r.slots[j].cur == s.slots[j].cur && r.slots[j].sent == s.slots[j].sent
    ensures Todo(r, vs) == Todo(s, vs) + s.slots[j].numRx - r.slots[j].numRx && KeepsSent(s, r)
  {
    hide TodoSlots, TodoBacklog;
    TodoUpdate(s.slots, vs, j, r.slots[j], vs[j]);
    assert vs[j := vs[j]] == vs;
  }

  lemma {:induction false} CrTodo(s: Client, vs: seq<ServerSlot>, j: nat, p: Pkt)
    requires WellSized(s) && j < |s.slots| == |vs| && InOrder(s.slots[j], p) && s.slots[j].tx.Some?
    ensures var r := ProcessCr(s, j, p, true); Todo(r, vs) == Todo(s, vs) - 1 && KeepsSent(s, r)
  {
    hide Todo, KeepsSent, Messages.CreditIdx, Messages.NumPkts;
    AckTodo(s, ProcessCr(s, j, p, true), vs, j);
  }

  lemma {:induction false} RespTodo(s: Client, vs: seq<ServerSlot>, j: nat, p: Pkt)
    requires WellSized(s) && j < |s.slots| == |vs| && p.Resp? && InOrder(s.slots[j], p) && s.slots[j].tx.Some?
    requires (s.backlog != [] ==> s.freeVec == []) && s.slots[j].cur + kSessionReqWindow !in vs[j].resps
    requires TodoSlot(s.slots[j], vs[j]) >= 1
    ensures var r := ProcessResp(s, j, p, true); Todo(r, vs) < Todo(s, vs) && KeepsSent(s, r)
  {
    hide Todo, TodoSlots, Complete, StoreMulti, Messages.CreditIdx, Messages.NumPkts;
    var s1 := Acked(s, j);
    var c := s1.slots[j];
    var s2 := if p.size <= kMaxDataPerPkt
              then s1.(slots := s1.slots[j := c.(respSize := p.size, respHdr := p.num,
                                                 respBuf := WriteAt(c.respBuf, 0, p.data))])
              else StoreMulti(s1, j, p);
    if p.size > kMaxDataPerPkt { StoreFrame(s1, j, p); }
    assert s2.slots == s.slots[j := s2.slots[j]];
    AckTodo(s, s2, vs, j);
    CompleteTodo(s2, vs, j);
  }

  lemma {:induction false} StoreFrame(s: Client, j: nat, p: Pkt)
    requires WellSized(s) && j < |s.slots| && p.Resp? && s.slots[j].tx.Some?
    ensures var r := StoreMulti(s, j, p);
            && r.backlog == s.backlog && r.freeVec == s.freeVec && r.slots == s.slots[j := r.slots[j]]
            && r.slots[j].tx == s.slots[j].tx && r.slots[j].cur == s.slots[j].cur
            && r.slots[j].sent == s.slots[j].sent && r.slots[j].numRx == s.slots[j].numRx
  {
  }

  lemma {:induction false} TakeAnswer(g: Answers, w: World, sent: set<Pkt>, m: World, sent': set<Pkt>, j: nat, p: Pkt)
    returns (m': World)
    requires Reaches(g, w, sent, m, sent') && m.c.stage.Receive? && m.c.wheel == []
    requires j < |m.c.slots| && m.c.slots[j].tx.Some? && m.c.slots[j].numTx > m.c.slots[j].numRx
    requires p in sent' && (p.CR? || p.Resp?) && p.num == m.c.slots[j].cur && p.pkt == m.c.slots[j].numRx
    ensures Reaches(g, w, sent, m', sent') && KeepsSent(m.c, m'.c)
    ensures Todo(m'.c, m'.s.slots) < Todo(m.c, m.s.slots)
  {
    hide SessionInvariant.SessionInv, SlotInvariant.SlotInv, To, Todo, TodoSlot, KeepsSent, ProcessCr, ProcessResp;
    SlotIs(m, sent', j);
    AnswerFits(j, ViewOf(m, j));
    ActiveTodo(j, ViewOf(m, j));
    FreeOf(m);
    Go(g, w, sent, m, sent', ClientRx(p, true));
    assert sent' + {} == sent';
    m' := Next(m, ClientRx(p, true));
    if p.CR? { CrTodo(m.c, m.s.slots, j, p); } else { RespTodo(m.c, m.s.slots, j, p); }
  }

  /** With nothing in the wheel, the next packet is in order; and the server has not answered the request after it. */
  lemma {:induction false} AnswerFits(i: nat, x: View)
    requires SlotInv(i, x) && x.wh == []
    ensures |x.c.inWheel| == kSessionCredits && !x.c.inWheel[CreditIdx(x.c.numRx)] && x.c.wheelCount == 0
    ensures x.c.cur + kSessionReqWindow !in x.v.resps
  {
    hide SlotInvariant.SlotInv, SlotInvariant.NetInv, SlotInvariant.DoneLog, SlotInvariant.ExecLog;
    hide SlotInvariant.Settled, SlotInvariant.RespSent, Messages.Holds;
    CoreOf(i, x);
    SlotParts(i, x);
  }

  lemma {:induction false} FreeOf(m: World)
    requires SizedWorld(m) && SessionInv(m)
    ensures m.c.backlog != [] ==> m.c.freeVec == []
  {
  }

  // One round trip, and all of them

  function LastProgress(slots: seq<ClientSlot>): nat {
    if slots == [] then 0 else Max(slots[0].progress, LastProgress(slots[1..]))
  }

  lemma {:induction false} ProgressBound(slots: seq<ClientSlot>, j: nat)
    requires j < |slots|
    ensures slots[j].progress <= LastProgress(slots)
    decreases |slots|
  {
    if j > 0 { ProgressBound(slots[1..], j - 1); }
  }

  /** If a request is active after a turn, some request has packets to acknowledge. */
  lemma {:induction false} SomeOutstanding(m: World, i: nat) returns (j: nat)
    requires SizedWorld(m) && SessionInv(m) && (m.c.stallq == [] || m.c.credits == 0)
    requires i < |m.c.slots| && m.c.slots[i].tx.Some?
    ensures j < |m.c.slots| && j in m.c.active && m.c.slots[j].tx.Some? && m.c.slots[j].numTx > m.c.slots[j].numRx
  {
    hide SlotInvariant.SlotInv;
    SlotBounds(i, ViewOf(m, i));
    j := i;
    if m.c.slots[i].numTx == m.c.slots[i].numRx { j := OutstandingSome(m.c.slots); }
    SlotBounds(j, ViewOf(m, j));
  }

  lemma {:induction false} CalmTodo(a: Client, b: Client, vs: seq<ServerSlot>)
    requires Calm(a, b)
    ensures Todo(b, vs) == Todo(a, vs) && KeepsSent(a, b)
  {
    TodoSame(a.slots, b.slots, vs);
  }

  /** With a request active, some request's next packet can be sent again and answered. */
  lemma {:induction false} RoundTrip(g: Answers, w: World, sent: set<Pkt>, m: World, sent': set<Pkt>, i: nat)
    returns (m': World, more: set<Pkt>)
    requires Reaches(g, w, sent, m, sent') && i < |m.c.slots| && m.c.slots[i].tx.Some?
    ensures Reaches(g, w, sent, m', more) && KeepsSent(m.c, m'.c)
    ensures Todo(m'.c, m'.s.slots) < Todo(m.c, m.s.slots)
  {
    hide SessionInvariant.SessionInv, SlotInvariant.SlotInv, To, Todo, KeepsSent;
    var a, s1 := ToReceive(g, w, sent, m, sent');
    var b, s2 := OneTurn(g, w, sent, a, s1, Max(a.c.tsc, LastProgress(a.c.slots) + kRpcRto + 1));
    QuietTrans(m, a, b);
    var j := SomeOutstanding(b, i);
    ProgressBound(a.c.slots, j);
    SlotIs(b, s2, j);
    AnswerFits(j, ViewOf(b, j));
    var c, s3 := AskAgain(g, w, sent, b, s2, j);
    CalmTrans(m.c, b.c, c.c);
    CalmTodo(m.c, c.c, m.s.slots);
    var d, p;
    d, more, p := GetAnswer(g, w, sent, c, s3, j);
    m' := TakeAnswer(g, w, sent, d, more, j, p);
    KeepsTrans(m.c, c.c, m'.c);
  }

  lemma {:induction false} KeepsTrans(a: Client, b: Client, c: Client)
    requires KeepsSent(a, b) && KeepsSent(b, c)
    ensures KeepsSent(a, c)
  {
  }

  /** Nothing is active and nothing waits. */
  ghost predicate Idle(s: Client) {
    s.backlog == [] && forall i | 0 <= i < |s.slots| :: s.slots[i].tx.None?
  }

  lemma {:induction false} FinishAll(g: Answers, w: World, sent: set<Pkt>, m: World, sent': set<Pkt>)
    returns (m': World, more: set<Pkt>)
    requires Reaches(g, w, sent, m, sent')
    ensures Reaches(g, w, sent, m', more) && KeepsSent(m.c, m'.c) && Idle(m'.c)
    decreases Todo(m.c, m.s.slots)
  {
    hide SessionInvariant.SessionInv, To, Todo, SlotInvariant.Completed;
    if i :| 0 <= i < |m.c.slots| && m.c.slots[i].tx.Some? {
      TodoBounded(m, sent');
      var n, s1 := RoundTrip(g, w, sent, m, sent', i);
      m', more := FinishAll(g, w, sent, n, s1);
      KeepsTrans(m.c, n.c, m'.c);
    } else {
      m', more := m, sent';
      NoneWaits(m);
    }
  }

  /** Requests wait only while all slots are taken. */
  lemma {:induction false} NoneWaits(m: World)
    requires SizedWorld(m) && SessionInv(m) && forall i | 0 <= i < |m.c.slots| :: m.c.slots[i].tx.None?
    ensures m.c.backlog == []
  {
    assert m.c.slots[0].tx.None?;
    assert 0 in m.c.freeVec;
  }

  lemma {:induction false} IdleDone(m: World, sent: set<Pkt>, i: nat, num: nat)
    requires Good(m, sent) && Idle(m.c) && i < |m.c.slots| && num in m.c.slots[i].sent
    ensures Completed(m.c.slots[i].done, num)
  {
    hide SlotInvariant.SlotInv, SlotInvariant.NetInv, SlotInvariant.ExecLog, SlotInvariant.Settled;
    SlotIs(m, sent, i);
    CoreOf(i, ViewOf(m, i));
  }

  lemma {:induction false} DrainInv(w: World, steps: seq<Step>, m: World)
    requires Run(w, steps, m) && (w.s.flushing ==> w.s.batch != [])
    ensures m.s.flushing ==> m.s.batch != []
    decreases |steps|
  {
    hide Session.Next, Session.Enabled;
    if steps != [] {
      DrainEnds(w, steps[0]);
      DrainInv(Next(w, steps[0]), steps[1..], m);
    }
  }

  lemma {:induction false} ReachesItself(g: Answers, w: World)
    requires Reachable(w) && Fits(g)
    ensures Reaches(g, w, {}, w, {})
  {
    hide SessionInvariant.SessionInv, Session.Next, Session.Enabled;
    ReachableOk(w);
    var before :| Run(Init(), before, w);
    DrainInv(Init(), before, w);
    assert Path(g, w, {}, [], w, {});
  }

  /** A stall queue that the drain leaves non-empty means all credits are out, so another active request has packets
      outstanding. Without any packet arriving, the event loop gets to a loss scan that retransmits it: it is past its
      timeout, and none of its packets is in the wheel. */
  lemma {:induction false} StalledBehindAnother(g: Answers, w: World) returns (j: nat, steps: seq<Step>, m: World)
    requires Reachable(w) && SizedWorld(w) && w.c.stage.Unstall? && Enabled(w, NextStage) && w.c.stallq != [] && Fits(g)
    ensures w.c.credits == 0
    ensures j < kSessionReqWindow && j in w.c.active && j !in w.c.stallq && w.c.slots[j].numTx > w.c.slots[j].numRx
    ensures Run(w, steps, m) && SizedWorld(m) && m.s == w.s && SameSlot(w.c.slots[j], m.c.slots[j])
    ensures Enabled(m, LossDetected(j, true)) && m.c.slots[j].wheelCount == 0
  {
    hide SessionInvariant.SessionInv, SlotInvariant.SlotInv, To, Session.Run, Session.Reachable;
    ReachesItself(g, w);
    j := StalledOther(w);
    var a, s1 := ToReceive(g, w, {}, w, {});
    var b, s2 := OneTurn(g, w, {}, a, s1, Max(a.c.tsc, LastProgress(a.c.slots) + kRpcRto + 1));
    QuietTrans(w, a, b);
    ProgressBound(a.c.slots, j);
    SlotIs(b, s2, j);
    AnswerFits(j, ViewOf(b, j));
    ActiveIs(b, j);
    m := b;
    steps := StepsTo(g, w, m, s2);
  }

  lemma {:induction false} StalledOther(w: World) returns (j: nat)
    requires SizedWorld(w) && SessionInv(w) && w.c.credits == 0
    ensures j < kSessionReqWindow && j in w.c.active && j !in w.c.stallq && w.c.slots[j].numTx > w.c.slots[j].numRx
  {
    hide SlotInvariant.SlotInv;
    j := OutstandingSome(w.c.slots);
    SlotBounds(j, ViewOf(w, j));
  }

  lemma {:induction false} ActiveIs(m: World, j: nat)
    requires SizedWorld(m) && SessionInv(m) && j < |m.c.slots| && m.c.slots[j].numTx > m.c.slots[j].numRx
    ensures j in m.c.active
  {
    hide SlotInvariant.SlotInv;
    SlotBounds(j, ViewOf(m, j));
  }

  lemma {:induction false} StepsTo(g: Answers, w: World, m: World, sent: set<Pkt>) returns (steps: seq<Step>)
    requires To(g, w, {}, m, sent)
    ensures Path(g, w, {}, steps, m, sent) && Run(w, steps, m)
  {
    hide Path;
    steps :| Path(g, w, {}, steps, m, sent);
    PathIsRun(g, w, {}, steps, m, sent);
  }

  /** All slots are free, nothing waits, and the continuation of every request sent by `w` has run. */
  ghost predicate Finished(w: World, m: World) {
    && SizedWorld(w) && SizedWorld(m) && Idle(m.c)
    && forall i, num | 0 <= i < kSessionReqWindow && num in w.c.slots[i].sent :: Completed(m.c.slots[i].done, num)
  }

  /** From every reachable world, whatever was lost so far and whatever the handlers answer, every request can still
      finish: there is a run in which the application enqueues nothing, only packets sent in the run itself arrive, each
      handler answers as `g` says, and at whose end all is finished. */
  lemma {:induction false} NeverStuck(g: Answers, w: World)
    requires Reachable(w) && Fits(g)
    ensures exists steps, m, sent :: Path(g, w, {}, steps, m, sent) && Run(w, steps, m) && Finished(w, m)
  {
    hide SessionInvariant.SessionInv, Session.Reachable, To, SlotInvariant.Completed;
    ReachesItself(g, w);
    var m, sent := FinishAll(g, w, {}, w, {});
    var steps := StepsTo(g, w, m, sent);
    forall i, num | 0 <= i < kSessionReqWindow && num in w.c.slots[i].sent
      ensures Completed(m.c.slots[i].done, num)
    {
      assert num in m.c.slots[i].sent.Keys;
      IdleDone(m, sent, i, num);
    }
    assert Path(g, w, {}, steps, m, sent) && Run(w, steps, m) && Finished(w, m);
  }
}
