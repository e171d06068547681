/**
 * State of one session's datapath at the client and at the server, and what
 * each packet handler does to it.
 *
 * Pointers into the slot array are slot indices. A TX batch item that the
 * source fills with a pointer to a slot's message buffer stays a reference
 * (`ReqRef`, `RespRef`): its bytes are read when the batch is sent, so a slot
 * reused too early would send the wrong packet. Fields after "History" are
 * read by no handler; they record what happened for the theorems.
 */
module Datapath {
  import opened Options
  import opened Arith
  import opened Messages

  /** A request: its type, its bytes, and the memory of the response buffer that comes with it. */
  datatype Args = Args(typ: nat, data: Bytes, respBuf: Bytes)

  /** One run of a continuation: the request number and the response it was given. */
  datatype Done = Done(num: nat, resp: Bytes)

  /** One invocation of a request handler. */
  datatype Exec = Exec(num: nat, typ: nat, data: Bytes)

  // ---------------------------------------------------------------- client --

  datatype ClientSlot = ClientSlot(
    cur: nat,           // cur_req_num_
    tx: Option<Args>,   // tx_msgbuf_: the active request, if any
    numTx: nat,
    numRx: nat,
    progress: nat,      // progress_tsc_
    respBuf: Bytes,     // resp_msgbuf_: memory, data size, request number in header 0
    respSize: nat,
    respHdr: nat,
    inWheel: seq<bool>,
    wheelCount: nat,
    // History
    sent: map<nat, Args>,
    done: seq<Done>)

  /** An entry of a queue that all slots share. */
  datatype Tagged<T> = Tagged(slot: nat, item: T)

  datatype ClientItem = ReqRef(idx: nat) | Ctl(pkt: Pkt)

  /** Where the event loop is: receiving, draining the stall queue, draining the
      wheel, sending the whole TX batch, or past the send. */
  datatype LoopStage = Receive | Unstall | Reap | Flush | Tail

  datatype Client = Client(
    credits: nat,
    slots: seq<ClientSlot>,
    freeVec: seq<nat>,
    backlog: seq<Args>,
    stallq: seq<nat>,
    active: seq<nat>,
    wheel: seq<Tagged<nat>>,
    batch: seq<Tagged<ClientItem>>,
    stage: LoopStage,
    tsc: nat,           // ev_loop_tsc_
    // History
    calls: seq<Args>,   // enqueue_request calls, in order
    started: seq<Args>) // requests that took a slot, in order

  function ReqPkts(a: Args): (n: nat)
    ensures n >= 1
  {
    NumPkts(|a.data|)
  }

  function ReqPkt(num: nat, a: Args, k: nat): Pkt {
    Req(num, k, a.typ, |a.data|, Chunk(a.data, k))
  }

  function RespPkt(num: nat, reqPkts: nat, d: Bytes, idx: nat): Pkt
    requires reqPkts >= 1
  {
    Resp(num, reqPkts - 1 + idx, |d|, Chunk(d, idx))
  }

  /** `wire_pkts` */
  function WirePkts(c: ClientSlot): nat
    requires c.tx.Some?
  {
    ReqPkts(c.tx.value) + NumPkts(c.respSize) - 1
  }

  /** `req_pkts_pending` */
  predicate ReqPending(c: ClientSlot)
    requires c.tx.Some?
  {
    c.numTx < ReqPkts(c.tx.value)
  }

  predicate WellSized(s: Client) {
    && |s.slots| == kSessionReqWindow
    && forall i | 0 <= i < |s.slots| :: |s.slots[i].inWheel| == kSessionCredits
  }

  /** Set the wheel flag of packets `from .. from + count`. */
  function SetFlags(flags: seq<bool>, from: nat, count: nat): (r: seq<bool>)
    requires |flags| == kSessionCredits
    ensures |r| == |flags|
    decreases count
  {
    if count == 0 then flags
    else SetFlags(flags[CreditIdx(from) := true], from + 1, count - 1)
  }

  /** The slot after `k` more packets went to the TX batch or to the wheel. */
  function Sent(c: ClientSlot, k: nat, bypass: bool): ClientSlot
    requires |c.inWheel| == kSessionCredits
  {
    if bypass then c.(numTx := c.numTx + k)
    else c.(numTx := c.numTx + k,
            inWheel := SetFlags(c.inWheel, c.numTx, k),
            wheelCount := c.wheelCount + k)
  }

  /** Entries for slot `i`. */
  function At<T>(i: nat, items: seq<T>): (r: seq<Tagged<T>>)
    ensures |r| == |items|
    ensures forall k | 0 <= k < |r| :: r[k] == Tagged(i, items[k])
  {
    seq(|items|, k requires 0 <= k < |items| => Tagged(i, items[k]))
  }

  function PktNums(from: nat, k: nat): seq<nat> {
    seq(k, x requires 0 <= x => from + x)
  }

  function ReqRefs(from: nat, k: nat): seq<ClientItem> {
    seq(k, x requires 0 <= x => ReqRef(from + x))
  }

  function Rfrs(num: nat, from: nat, k: nat): seq<ClientItem> {
    seq(k, x requires 0 <= x => Ctl(RFR(num, from + x)))
  }

  /** `kick_req_st`: spend credits on request packets. `bypass` is the outcome of `can_bypass_wheel`. */
  function KickReq(s: Client, i: nat, bypass: bool): (r: Client)
    requires WellSized(s) && i < |s.slots| && s.slots[i].tx.Some? && ReqPending(s.slots[i])
    ensures WellSized(r)
    ensures r.stage == s.stage && r.tsc == s.tsc
  {
    var c := s.slots[i];
    var k := Min(s.credits, ReqPkts(c.tx.value) - c.numTx);
    s.(slots := s.slots[i := Sent(c, k, bypass)],
       credits := s.credits - k,
       batch := if bypass then s.batch + At(i, ReqRefs(c.numTx, k)) else s.batch,
       wheel := if bypass then s.wheel else s.wheel + At(i, PktNums(c.numTx, k)))
  }

  /** `kick_rfr_st`: spend credits on requests-for-response. */
  function KickRfr(s: Client, i: nat): (r: Client)
    requires WellSized(s) && i < |s.slots| && s.slots[i].tx.Some?
    requires s.slots[i].numTx <= WirePkts(s.slots[i])
    ensures WellSized(r)
    ensures r.stage == s.stage && r.tsc == s.tsc
  {
    var c := s.slots[i];
    var k := Min(s.credits, WirePkts(c) - c.numTx);
    s.(slots := s.slots[i := c.(numTx := c.numTx + k)],
       credits := s.credits - k,
       batch := s.batch + At(i, Rfrs(c.respHdr, c.numTx, k)))
  }

  /** The slot once it carries a new request. */
  function Started(c: ClientSlot, a: Args, tsc: nat): ClientSlot {
    c.(cur := c.cur + kSessionReqWindow, tx := Some(a), numTx := 0, numRx := 0, progress := tsc,
       respBuf := a.respBuf, respSize := |a.respBuf|,
       sent := c.sent[c.cur + kSessionReqWindow := a])
  }

  /** `enqueue_request` on the dispatch thread. */
  function EnqueueRequest(s: Client, a: Args, bypass: bool): (r: Client)
    requires WellSized(s)
    ensures WellSized(r)
    ensures r.stage == s.stage && r.tsc == s.tsc
  {
    if s.freeVec == [] then s.(backlog := s.backlog + [a])
    else
      var i := s.freeVec[|s.freeVec| - 1];
      if i >= |s.slots| then s else
      var s1 := s.(freeVec := s.freeVec[..|s.freeVec| - 1],
                   slots := s.slots[i := Started(s.slots[i], a, s.tsc)],
                   active := s.active + [i],
                   started := s.started + [a]);
      if s.credits > 0 then KickReq(s1, i, bypass) else s1.(stallq := s1.stallq + [i])
  }

  /** `in_order_client` */
  predicate InOrder(c: ClientSlot, p: Pkt)
    requires |c.inWheel| == kSessionCredits
  {
    && p.num == c.cur
    && p.pkt == c.numRx
    && p.pkt < c.numTx
    && !c.inWheel[CreditIdx(p.pkt)]
  }

  /** One in-order packet from the server: a credit back and one more packet received. */
  function Acked(s: Client, i: nat): (r: Client)
    requires WellSized(s) && i < |s.slots|
    ensures WellSized(r)
    ensures r.stage == s.stage && r.tsc == s.tsc
  {
    var c := s.slots[i];
    s.(credits := s.credits + 1,
       slots := s.slots[i := c.(numRx := c.numRx + 1, progress := s.tsc)])
  }

  /** `process_expl_cr_st` */
  function ProcessCr(s: Client, i: nat, p: Pkt, bypass: bool): (r: Client)
    requires WellSized(s) && i < |s.slots|
    ensures WellSized(r)
    ensures r.stage == s.stage && r.tsc == s.tsc
  {
    if !InOrder(s.slots[i], p) || s.slots[i].tx.None? then s
    else
      var s1 := Acked(s, i);
      if ReqPending(s1.slots[i]) then KickReq(s1, i, bypass) else s1
  }

  function Without(q: seq<nat>, i: nat): seq<nat> {
    if q == [] then [] else if q[0] == i then q[1..] else [q[0]] + Without(q[1..], i)
  }

  /** The end of `process_resp_one_st`: free the slot, let one backlogged request in, run the continuation. */
  function Complete(s: Client, i: nat, bypass: bool): (r: Client)
    requires WellSized(s) && i < |s.slots|
    ensures WellSized(r)
    ensures r.stage == s.stage && r.tsc == s.tsc
  {
    var c := s.slots[i];
    var d := Done(c.cur, c.respBuf[..Min(c.respSize, |c.respBuf|)]);
    var s1 := s.(slots := s.slots[i := c.(tx := None, done := c.done + [d])],
                 active := Without(s.active, i),
                 freeVec := s.freeVec + [i]);
    if s1.backlog == [] then s1
    else EnqueueRequest(s1.(backlog := s1.backlog[1..]), s1.backlog[0], bypass)
  }

  /** The slot after the first packet of a multi-packet response sized the response buffer. */
  function Sized(c: ClientSlot, p: Pkt): ClientSlot
    requires p.Resp? && c.tx.Some?
  {
    if p.pkt == ReqPkts(c.tx.value) - 1 then c.(respSize := p.size, respHdr := p.num) else c
  }

  /** A packet of a multi-packet response: size the buffer, send what requests-for-response remain, copy the data. */
  function StoreMulti(s: Client, i: nat, p: Pkt): (r: Client)
    requires WellSized(s) && i < |s.slots| && p.Resp? && s.slots[i].tx.Some?
    ensures WellSized(r) && r.slots[i].tx.Some?
    ensures r.stage == s.stage && r.tsc == s.tsc
  {
    var n := ReqPkts(s.slots[i].tx.value);
    var c1 := Sized(s.slots[i], p);
    var s1 := s.(slots := s.slots[i := c1]);
    var s2 := if c1.numTx < WirePkts(c1) then KickRfr(s1, i) else s1;
    var c2 := s2.slots[i];
    if n - 1 <= p.pkt
    then s2.(slots := s2.slots[i := c2.(respBuf := CopyData(c2.respBuf, p.pkt - (n - 1), p.size, p.data))])
    else s2
  }

  /** `process_resp_one_st` */
  function ProcessResp(s: Client, i: nat, p: Pkt, bypass: bool): (r: Client)
    requires WellSized(s) && i < |s.slots| && p.Resp?
    ensures WellSized(r)
    ensures r.stage == s.stage && r.tsc == s.tsc
  {
    if !InOrder(s.slots[i], p) || s.slots[i].tx.None? then s
    else
      var s1 := Acked(s, i);
      var c := s1.slots[i];
      if p.size <= kMaxDataPerPkt then
        var c1 := c.(respSize := p.size, respHdr := p.num, respBuf := WriteAt(c.respBuf, 0, p.data));
        Complete(s1.(slots := s1.slots[i := c1]), i, bypass)
      else
        var s2 := StoreMulti(s1, i, p);
        if s2.slots[i].numRx != WirePkts(s2.slots[i]) then s2 else Complete(s2, i, bypass)
  }

  /** One turn of `process_credit_stall_queue_st` that finds a credit: the head of the queue is kicked. */
  function KickStalled(s: Client, bypass: bool): (r: Client)
    requires WellSized(s) && s.stallq != []
    ensures WellSized(r) && |r.stallq| == |s.stallq| - 1
  {
    var i := s.stallq[0];
    var s1 := s.(stallq := s.stallq[1..]);
    if i >= |s.slots| || s.slots[i].tx.None? then s1
    else if ReqPending(s.slots[i]) then KickReq(s1, i, bypass)
    else if s.slots[i].numTx <= WirePkts(s.slots[i]) then KickRfr(s1, i) else s1
  }

  /** One turn of `process_wheel_st`: entry `k` of the wheel leaves it for the TX batch. */
  function ReapOne(s: Client, k: nat): (r: Client)
    requires WellSized(s) && k < |s.wheel|
    ensures WellSized(r)
  {
    var e := s.wheel[k];
    var s1 := s.(wheel := s.wheel[..k] + s.wheel[k + 1..]);
    if e.slot >= |s.slots| || s.slots[e.slot].tx.None? then s1
    else
      var c := s.slots[e.slot];
      s1.(slots := s.slots[e.slot := c.(wheelCount := Max(c.wheelCount - 1, 0),
                                        inWheel := c.inWheel[CreditIdx(e.item) := false])],
          batch := s.batch + At(e.slot, [if e.item < ReqPkts(c.tx.value) then ReqRef(e.item)
                                         else Ctl(RFR(c.respHdr, c.numTx))]))
  }

  /** `pkt_loss_retransmit_st`, followed by the drain its caller does: roll back to `numRx` and send again. */
  function Retransmit(s: Client, i: nat, bypass: bool): (r: Client)
    requires WellSized(s) && i < |s.slots|
    ensures WellSized(r) && r.stage == Flush
  {
    var c := s.slots[i];
    if c.tx.None? || c.numTx <= c.numRx || c.wheelCount > 0 then s.(stage := Flush)
    else
      var s1 := s.(credits := s.credits + (c.numTx - c.numRx),
                   slots := s.slots[i := c.(numTx := c.numRx, progress := s.tsc)],
                   stage := Flush);
      if ReqPending(s1.slots[i]) then KickReq(s1, i, bypass)
      else if s1.slots[i].numTx <= WirePkts(s1.slots[i]) then KickRfr(s1, i) else s1
  }

  /** The packets a batch item puts on the wire; a reference to a freed request buffer sends none. */
  function ClientEmit(s: Client, x: Tagged<ClientItem>): set<Pkt> {
    match x.item
    case Ctl(p) => {p}
    case ReqRef(idx) =>
      if x.slot < |s.slots| && s.slots[x.slot].tx.Some?
      then {ReqPkt(s.slots[x.slot].cur, s.slots[x.slot].tx.value, idx)} else {}
  }

  // ---------------------------------------------------------------- server --

  datatype ServerSlot = ServerSlot(
    cur: nat,
    tx: Option<Bytes>,        // tx_msgbuf_: the response, once enqueued
    reqBuf: Option<Bytes>,    // req_msgbuf_, None when buried
    numRx: nat,
    savReqPkts: nat,
    reqType: Option<nat>,     // req_type_, None for kInvalidReqType
    // History
    execs: seq<Exec>,
    resps: map<nat, Bytes>)

  const kZeroCopyRX: bool
  const backgroundTypes: set<nat>   // Request types whose handlers run in background threads

  datatype ServerItem = RespRef(idx: nat) | SCtl(pkt: Pkt)

  datatype Server = Server(
    slots: seq<ServerSlot>,
    batch: seq<Tagged<ServerItem>>,
    flushing: bool)           // inside drain_tx_batch_and_dma_queue

  /** What handling one packet does to a server slot: the slot, new batch items, and whether they are drained at
      once. */
  datatype Served = Served(v: ServerSlot, items: seq<ServerItem>, drain: bool)

  /** Bury the old response and move to request `num`. */
  function Accepted(v: ServerSlot, num: nat): ServerSlot {
    v.(tx := None, cur := num, numRx := 1)
  }

  /** Hand a complete request to its handler. */
  function Invoked(v: ServerSlot, typ: nat, data: Bytes): ServerSlot {
    v.(reqType := Some(typ), reqBuf := Some(data), execs := v.execs + [Exec(v.cur, typ, data)])
  }

  /** `process_small_req_st` */
  function ProcessSmallReq(v: ServerSlot, p: Pkt): Served
    requires p.Req?
  {
    if p.num < v.cur then Served(v, [], false)
    else if p.num == v.cur then
      if v.tx.Some? then Served(v, [RespRef(0)], true) else Served(v, [], false)
    else Served(Invoked(Accepted(v, p.num), p.typ, p.data), [], false)
  }

  /** `process_large_req_one_st`; `mem` is the content of the buffer allocated for a new request. */
  function ProcessLargeReq(v: ServerSlot, p: Pkt, mem: Bytes): Served
    requires p.Req?
  {
    var n := NumPkts(p.size);
    var nextPkt := p.num == v.cur && p.pkt == v.numRx;
    var nextReq := p.num == v.cur + kSessionReqWindow && p.pkt == 0;
    if !nextPkt && !nextReq then
      if p.num != v.cur || p.pkt > v.numRx then Served(v, [], false)
      else if p.pkt != n - 1 then Served(v, [SCtl(CR(p.num, p.pkt))], false)
      else if v.tx.Some? then Served(v, [RespRef(0)], true)
      else Served(v, [], false)
    else
      var v1 := if p.pkt == 0 then Accepted(v, p.num).(reqBuf := Some(mem)) else v.(numRx := v.numRx + 1);
      match v1.reqBuf
      case None => Served(v1, [], false)
      case Some(buf) =>
        var items := if p.pkt != NumPkts(|buf|) - 1 then [SCtl(CR(p.num, p.pkt))] else [];
        var buf' := CopyData(buf, p.pkt, p.size, p.data);
        var v2 := v1.(reqBuf := Some(buf'));
        if v2.numRx != NumPkts(|buf|) then Served(v2, items, false)
        else Served(Invoked(v2, p.typ, buf'), items, false)
  }

  /** `process_rfr_st` */
  function ProcessRfr(v: ServerSlot, p: Pkt): Served {
    var idx := Max(0, p.pkt - (v.savReqPkts - 1));
    if p.num == v.cur && p.pkt == v.numRx then Served(v.(numRx := v.numRx + 1), [RespRef(idx)], false)
    else if p.num < v.cur || p.pkt > v.numRx then Served(v, [], false)
    else Served(v, [RespRef(idx)], true)
  }

  /** A request of this type and size needs a buffer apart from the RX ring. */
  predicate NeedsBuffer(typ: nat, size: nat) {
    size > kMaxDataPerPkt || typ in backgroundTypes || !kZeroCopyRX
  }

  /** The handler of this packet calls `alloc_msg_buffer`. */
  predicate Allocates(v: ServerSlot, p: Pkt)
    requires p.Req?
  {
    NeedsBuffer(p.typ, p.size) &&
      if p.size <= kMaxDataPerPkt then p.num > v.cur
      else p.pkt == 0 && ((p.num == v.cur && v.numRx == 0) || p.num == v.cur + kSessionReqWindow)
  }

  /** The dispatch of `process_comps_st` at the server. `mem` is the memory that an allocation gets, if it gets any. */
  function ServerReceive(v: ServerSlot, p: Pkt, mem: Option<Bytes>): Served
    requires p.Req? || p.RFR?
  {
    if p.RFR? then ProcessRfr(v, p)
    else if Allocates(v, p) && mem.None? then Served(v, [], false)      // An assertion failure or a null pointer
    else if p.size <= kMaxDataPerPkt then ProcessSmallReq(v, p)
    else ProcessLargeReq(v, p, if mem.Some? then mem.value else [])
  }

  /** `enqueue_response` */
  function Responded(v: ServerSlot, d: Bytes): ServerSlot {
    v.(savReqPkts := if v.reqBuf.Some? then NumPkts(|v.reqBuf.value|) else 0,
       reqBuf := None, tx := Some(d), reqType := None, resps := v.resps[v.cur := d])
  }

  /** The packets a batch item puts on the wire; a reference to a buried response sends none. */
  function ServerEmit(s: Server, x: Tagged<ServerItem>): set<Pkt> {
    match x.item
    case SCtl(p) => {p}
    case RespRef(idx) =>
      if x.slot < |s.slots| && s.slots[x.slot].tx.Some? && s.slots[x.slot].savReqPkts >= 1
      then {RespPkt(s.slots[x.slot].cur, s.slots[x.slot].savReqPkts, s.slots[x.slot].tx.value, idx)} else {}
  }
}
