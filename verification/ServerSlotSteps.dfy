/** The server's handlers preserve the slot invariant. */
module ServerSlotSteps {
  import opened Options
  import opened Arith
  import opened Messages
  import opened Datapath
  import opened SlotInvariant
  import opened SlotFrames

  // ------------------------------------------------------------- batch items --

  lemma {:induction false} AppendItem(c: ClientSlot, v: ServerSlot, net: set<Pkt>, sb: seq<ServerItem>,
                                      flushing: bool, y: ServerItem)
    requires ServerBatchInv(c, v, net, sb, flushing) && ServerItemOk(c, v, y)
    requires !flushing && y.RespRef? ==>
               && RespPkt(v.cur, v.savReqPkts, v.tx.value, y.idx) !in net
               && forall k | 0 <= k < |sb| && sb[k].RespRef? :: sb[k].idx != y.idx
    ensures ServerBatchInv(c, v, net, sb + [y], flushing)
  {
    var sb' := sb + [y];
    forall k | 0 <= k < |sb'| ensures ServerItemOk(c, v, sb'[k]) {
      assert sb'[k] == if k < |sb| then sb[k] else y;
    }
  }

  /** A response packet is sent again and the batch drained. */
  lemma {:induction false} ResendOk(i: nat, x: View, idx: nat)
    requires SlotInv(i, x) && x.v.cur in x.c.sent && x.v.tx.Some?
    requires idx < NumPkts(|x.v.tx.value|) && x.v.savReqPkts + idx <= x.v.numRx
    ensures SlotInv(i, x.(sb := x.sb + [RespRef(idx)], flushing := true))
  {
    hide SlotInvariant.SlotInv, SlotInvariant.CoreInv, SlotInvariant.ClientBatchInv, SlotInvariant.WheelInv;
    SlotParts(i, x);
    CoreOf(i, x);
    hide SlotInvariant.NetInv, SlotInvariant.ClientInv, SlotInvariant.ExecLog, SlotInvariant.RespLog;
    AppendItem(x.c, x.v, x.net, x.sb, true, RespRef(idx));
    MakeSlot(i, x.(sb := x.sb + [RespRef(idx)], flushing := true));
  }

  lemma {:induction false} SendCrOk(i: nat, x: View, p: Pkt)
    requires SlotInv(i, x) && p.CR? && PktOk(x.c, x.v, p)
    ensures SlotInv(i, x.(sb := x.sb + [SCtl(p)]))
  {
    hide SlotInvariant.SlotInv, SlotInvariant.CoreInv, SlotInvariant.ClientBatchInv, SlotInvariant.WheelInv;
    SlotParts(i, x);
    AppendItem(x.c, x.v, x.net, x.sb, x.flushing, SCtl(p));
    MakeSlot(i, x.(sb := x.sb + [SCtl(p)]));
  }

  // ------------------------------------------------------- a new request --

  /** A packet for a later request can only be of the client's current request, one window ahead. */
  lemma {:induction false} NewRequest(i: nat, x: View, p: Pkt)
    requires SlotInv(i, x) && p in x.net && p.Req? && p.num > x.v.cur
    ensures p.num == x.c.cur == x.v.cur + kSessionReqWindow && x.c.tx.Some? && x.c.numRx == 0
    ensures p.pkt < ReqPkts(x.c.tx.value) && p == ReqPkt(x.c.cur, x.c.tx.value, p.pkt)
  {
    assert PktOk(x.c, x.v, p);
  }

  /** When a new request arrives, no batch item refers to the response that is buried. */
  lemma {:induction false} NoRespRefLeft(i: nat, x: View, k: nat)
    requires SlotInv(i, x) && !x.flushing && x.v.cur != x.c.cur && k < |x.sb|
    ensures x.sb[k].SCtl?
  {
    assert ServerItemOk(x.c, x.v, x.sb[k]);
  }

  /** The server moved on to the client's request. */
  ghost predicate MovedOn(c: ClientSlot, v: ServerSlot, v': ServerSlot) {
    && v.cur + kSessionReqWindow == c.cur == v'.cur && c.tx.Some? && c.numRx == 0
    && v'.numRx == 1 && v'.resps == v.resps && v'.tx.None?
  }

  lemma {:induction false} MovedOnPkt(i: nat, c: ClientSlot, v: ServerSlot, v': ServerSlot, p: Pkt)
    requires Numbering(i, c, v) && RespLog(c, v) && MovedOn(c, v, v') && PktOk(c, v, p)
    ensures PktOk(c, v', p)
  {
  }

  lemma {:induction false} MovedOnNet(i: nat, c: ClientSlot, v: ServerSlot, v': ServerSlot, net: set<Pkt>)
    requires Numbering(i, c, v) && RespLog(c, v) && NetInv(c, v, net) && MovedOn(c, v, v')
    requires ReqPkt(c.cur, c.sent[c.cur], 0) in net
    ensures NetInv(c, v', net)
  {
    forall p | p in net ensures PktOk(c, v', p) {
      assert PktOk(c, v, p);
      MovedOnPkt(i, c, v, v', p);
    }
  }

  lemma {:induction false} MovedOnBatches(i: nat, x: View, v': ServerSlot)
    requires SlotInv(i, x) && MovedOn(x.c, x.v, v') && !x.flushing
    ensures ClientBatchInv(x.c, v', x.net, x.cb, x.listening)
    ensures ServerBatchInv(x.c, v', x.net, x.sb, false)
  {
    forall k | 0 <= k < |x.cb| ensures ClientItemOk(x.c, v', x.cb[k]) {
      assert ClientItemOk(x.c, x.v, x.cb[k]);
      if x.cb[k].Ctl? { MovedOnPkt(i, x.c, x.v, v', x.cb[k].pkt); }
    }
    forall k | 0 <= k < |x.sb| ensures x.sb[k].SCtl? && ServerItemOk(x.c, v', x.sb[k]) {
      NoRespRefLeft(i, x, k);
      assert ServerItemOk(x.c, x.v, x.sb[k]);
      MovedOnPkt(i, x.c, x.v, v', x.sb[k].pkt);
    }
  }

  /** The logs after the server moved on without invoking a handler. */
  lemma {:induction false} MovedOnLogs(i: nat, c: ClientSlot, v: ServerSlot, v': ServerSlot)
    requires Numbering(i, c, v) && ServerInv(c, v) && MovedOn(c, v, v') && v'.execs == v.execs
    requires DoneLog(c, v)
    ensures RespLog(c, v') && DoneLog(c, v')
    ensures ReqPkts(c.sent[c.cur]) > 1 ==> ExecLog(c, v')
    ensures forall k | 0 <= k < |v.execs| :: v.execs[k].num < v'.cur
  {
  }

  lemma {:induction false} AcceptCore(i: nat, x: View, p: Pkt, v': ServerSlot)
    requires SlotInv(i, x) && p in x.net && p.Req? && p.num > x.v.cur && p.pkt == 0
    requires MovedOn(x.c, x.v, v') && ServerInv(x.c, v') && DoneLog(x.c, v')
    ensures CoreInv(i, x.c, v', x.net)
  {
    hide SlotInvariant.SlotInv, SlotInvariant.DoneLog, SlotInvariant.NetInv;
    NewRequest(i, x, p);
    CoreOf(i, x);
    MovedOnNet(i, x.c, x.v, v', x.net);
  }

  lemma {:induction false} AcceptOk(i: nat, x: View, p: Pkt, v': ServerSlot)
    requires SlotInv(i, x) && !x.flushing && p in x.net && p.Req? && p.num > x.v.cur && p.pkt == 0
    requires MovedOn(x.c, x.v, v') && ServerInv(x.c, v') && DoneLog(x.c, v')
    ensures SlotInv(i, x.(v := v'))
  {
    hide SlotInvariant.SlotInv, SlotInvariant.CoreInv, SlotInvariant.ClientBatchInv, SlotInvariant.WheelInv;
    SlotParts(i, x);
    AcceptCore(i, x, p, v');
    MovedOnBatches(i, x, v');
    MakeSlot(i, x.(v := v'));
  }

  lemma {:induction false} ExecsKeep(v: ServerSlot, v': ServerSlot, num: nat)
    requires v.execs <= v'.execs && Executed(v.execs, num)
    ensures Executed(v'.execs, num)
  {
    var k :| 0 <= k < |v.execs| && v.execs[k].num == num;
    assert v'.execs[k] == v.execs[k];
  }

  /** The handler's invocation extends the logs. */
  lemma {:induction false} InvokeLogs(c: ClientSlot, v: ServerSlot, v': ServerSlot)
    requires v.cur in c.sent && RespLog(c, v)
    requires forall k | 0 <= k < |v.execs| ::
               var e := v.execs[k]; e.num in c.sent && e == Exec(e.num, c.sent[e.num].typ, c.sent[e.num].data)
    requires forall j, k | 0 <= j < k < |v.execs| :: v.execs[j].num < v.execs[k].num
    requires forall k | 0 <= k < |v.execs| :: v.execs[k].num + kSessionReqWindow <= v.cur
    requires v' == Invoked(v, c.sent[v.cur].typ, c.sent[v.cur].data) && v.numRx >= ReqPkts(c.sent[v.cur])
    ensures ExecLog(c, v') && RespLog(c, v')
  {
    assert v'.execs[|v.execs|].num == v'.cur;
    assert Executed(v'.execs, v'.cur);
    forall r | r in v'.resps ensures Executed(v'.execs, r) {
      ExecsKeep(v, v', r);
    }
  }

  lemma {:induction false} DoneResps(c: ClientSlot, v: ServerSlot, v': ServerSlot)
    requires DoneLog(c, v) && v'.resps == v.resps
    ensures DoneLog(c, v')
  {
  }

  /** The new request has no response yet. */
  lemma {:induction false} NotAnswered(i: nat, c: ClientSlot, v: ServerSlot, v': ServerSlot)
    requires Numbering(i, c, v) && RespLog(c, v) && MovedOn(c, v, v')
    ensures v'.cur !in v'.resps
  {
  }

  /** `process_small_req_st` on a new request. */
  lemma {:induction false} SmallOk(i: nat, x: View, p: Pkt)
    requires SlotInv(i, x) && !x.flushing && p in x.net && p.Req? && p.num > x.v.cur && p.size <= kMaxDataPerPkt
    ensures SlotInv(i, x.(v := Invoked(Accepted(x.v, p.num), p.typ, p.data)))
  {
    hide SlotInvariant.SlotInv, SlotInvariant.NetInv, SlotInvariant.DoneLog, SlotInvariant.RespLog;
    NewRequest(i, x, p);
    CoreOf(i, x);
    var c, v := x.c, x.v;
    var a := c.tx.value;
    CoveredBounds(0, |a.data|);
    assert p.data == a.data;
    var v1 := Accepted(v, p.num);
    MovedOnLogs(i, c, v, v1);
    var v' := Invoked(v1, p.typ, p.data);
    InvokeLogs(c, v1, v');
    assert DoneLog(c, v') by { DoneResps(c, v1, v'); }
    NotAnswered(i, c, v, v1);
    assert Pending(a, v');
    AcceptOk(i, x, p, v');
  }

  /** `process_large_req_one_st` on the first packet of a new request. */
  lemma {:induction false} LargeFirstOk(i: nat, x: View, p: Pkt, mem: Bytes)
    requires SlotInv(i, x) && !x.flushing && p in x.net && p.Req? && p.num > x.v.cur && p.size > kMaxDataPerPkt
    requires p.pkt == 0 && |mem| == p.size
    ensures SlotInv(i, x.(v := Accepted(x.v, p.num).(reqBuf := Some(CopyData(mem, 0, p.size, p.data)))))
  {
    hide SlotInvariant.SlotInv, SlotInvariant.NetInv, SlotInvariant.DoneLog, SlotInvariant.RespLog;
    hide Messages.Holds, Messages.CopyData;
    NewRequest(i, x, p);
    CoreOf(i, x);
    var c, v := x.c, x.v;
    var a := c.tx.value;
    HoldsNone(mem, a.data);
    HoldsStep(mem, a.data, 0);
    var v' := Accepted(v, p.num).(reqBuf := Some(CopyData(mem, 0, p.size, p.data)));
    MovedOnLogs(i, c, v, v');
    NotAnswered(i, c, v, v');
    assert Receiving(a, v');
    AcceptOk(i, x, p, v');
  }

  // ------------------------------------------- more packets of a request --

  /** Only the request buffer, the receive count and the invocation changed. */
  ghost predicate Progressed(c: ClientSlot, v: ServerSlot, v': ServerSlot) {
    && v'.cur == v.cur && v'.resps == v.resps && v'.tx == v.tx && v'.savReqPkts == v.savReqPkts
    && v'.numRx == v.numRx + 1
  }

  lemma {:induction false} ProgressedPkt(c: ClientSlot, v: ServerSlot, v': ServerSlot, p: Pkt)
    requires PktOk(c, v, p) && Progressed(c, v, v')
    ensures PktOk(c, v', p)
  {
  }

  lemma {:induction false} ProgressedNet(c: ClientSlot, v: ServerSlot, v': ServerSlot, net: set<Pkt>)
    requires NetInv(c, v, net) && Progressed(c, v, v')
    requires v.cur in c.sent && v.numRx < ReqPkts(c.sent[v.cur]) ==> ReqPkt(v.cur, c.sent[v.cur], v.numRx) in net
    ensures NetInv(c, v', net)
  {
    forall p | p in net ensures PktOk(c, v', p) {
      assert PktOk(c, v, p);
      ProgressedPkt(c, v, v', p);
    }
  }

  lemma {:induction false} ProgressedClientBatch(c: ClientSlot, v: ServerSlot, v': ServerSlot, net: set<Pkt>,
                              cb: seq<ClientItem>, listening: bool)
    requires ClientBatchInv(c, v, net, cb, listening) && Progressed(c, v, v')
    ensures ClientBatchInv(c, v', net, cb, listening)
  {
    forall k | 0 <= k < |cb| ensures ClientItemOk(c, v', cb[k]) {
      assert ClientItemOk(c, v, cb[k]);
      if cb[k].Ctl? { ProgressedPkt(c, v, v', cb[k].pkt); }
    }
  }

  lemma {:induction false} ProgressedServerBatch(c: ClientSlot, v: ServerSlot, v': ServerSlot, net: set<Pkt>,
                              sb: seq<ServerItem>, flushing: bool)
    requires ServerBatchInv(c, v, net, sb, flushing) && Progressed(c, v, v')
    requires v.cur in c.sent && Answered(c.sent[v.cur], v) ==> Answered(c.sent[v.cur], v')
    ensures ServerBatchInv(c, v', net, sb, flushing)
  {
    forall k | 0 <= k < |sb| ensures ServerItemOk(c, v', sb[k]) {
      assert ServerItemOk(c, v, sb[k]);
      if sb[k].SCtl? { ProgressedPkt(c, v, v', sb[k].pkt); }
    }
  }

  /** The next request packet finds the request incomplete. */
  lemma {:induction false} NextRequestPkt(i: nat, x: View, p: Pkt)
    requires SlotInv(i, x) && p in x.net && p.Req? && p.num == x.v.cur && p.pkt == x.v.numRx
    ensures x.v.cur in x.c.sent && x.v.cur == x.c.cur && x.c.tx.Some?
    ensures Receiving(x.c.sent[x.v.cur], x.v)
    ensures p == ReqPkt(x.v.cur, x.c.sent[x.v.cur], x.v.numRx)
  {
    assert PktOk(x.c, x.v, p);
  }

  /** The slot after the next packet of a multi-packet request was copied. */
  function Stored(v: ServerSlot, p: Pkt): ServerSlot
    requires p.Req? && v.reqBuf.Some?
  {
    v.(numRx := v.numRx + 1, reqBuf := Some(CopyData(v.reqBuf.value, p.pkt, p.size, p.data)))
  }

  lemma {:induction false} StoredBuffer(i: nat, x: View, p: Pkt)
    requires SlotInv(i, x) && p in x.net && p.Req? && p.num == x.v.cur && p.pkt == x.v.numRx
    ensures x.v.reqBuf.Some? && x.v.cur in x.c.sent
    ensures var a, b := x.c.sent[x.v.cur], Stored(x.v, p).reqBuf.value;
            |b| == |a.data| && Holds(b, a.data, x.v.numRx + 1) && (x.v.numRx + 1 == ReqPkts(a) ==> b == a.data)
  {
    hide SlotInvariant.SlotInv, Messages.CopyData;
    NextRequestPkt(i, x, p);
    var a := x.c.sent[x.v.cur];
    HoldsStep(x.v.reqBuf.value, a.data, x.v.numRx);
    var b := Stored(x.v, p).reqBuf.value;
    if x.v.numRx + 1 == ReqPkts(a) {
      HoldsAll(b, a.data);
      assert b[..|b|] == b;
    }
  }

  lemma {:induction false} ProgressedCore(i: nat, x: View, p: Pkt, v': ServerSlot)
    requires SlotInv(i, x) && p in x.net && p.Req? && p.num == x.v.cur && p.pkt == x.v.numRx
    requires Progressed(x.c, x.v, v') && ServerInv(x.c, v')
    ensures CoreInv(i, x.c, v', x.net)
  {
    hide SlotInvariant.SlotInv, SlotInvariant.DoneLog, SlotInvariant.NetInv;
    NextRequestPkt(i, x, p);
    CoreOf(i, x);
    ProgressedNet(x.c, x.v, v', x.net);
    DoneResps(x.c, x.v, v');
  }

  lemma {:induction false} ProgressedOk(i: nat, x: View, p: Pkt, v': ServerSlot)
    requires SlotInv(i, x) && p in x.net && p.Req? && p.num == x.v.cur && p.pkt == x.v.numRx
    requires Progressed(x.c, x.v, v') && ServerInv(x.c, v')
    ensures SlotInv(i, x.(v := v'))
  {
    hide SlotInvariant.SlotInv, SlotInvariant.CoreInv, SlotInvariant.ClientBatchInv, SlotInvariant.WheelInv;
    SlotParts(i, x);
    NextRequestPkt(i, x, p);
    ProgressedCore(i, x, p, v');
    ProgressedClientBatch(x.c, x.v, v', x.net, x.cb, x.listening);
    ProgressedServerBatch(x.c, x.v, v', x.net, x.sb, x.flushing);
    MakeSlot(i, x.(v := v'));
  }

  /** `process_large_req_one_st` on the next packet. */
  lemma {:induction false} LargeNextOk(i: nat, x: View, p: Pkt)
    requires SlotInv(i, x) && p in x.net && p.Req? && p.num == x.v.cur && p.pkt == x.v.numRx
    ensures x.v.reqBuf.Some? && x.v.cur in x.c.sent
    ensures var a, v1 := x.c.sent[x.v.cur], Stored(x.v, p);
            SlotInv(i, x.(v := if v1.numRx != ReqPkts(a) then v1 else Invoked(v1, p.typ, v1.reqBuf.value)))
  {
    hide SlotInvariant.SlotInv, SlotInvariant.NetInv, SlotInvariant.DoneLog, Messages.Holds, Messages.CopyData;
    NextRequestPkt(i, x, p);
    StoredBuffer(i, x, p);
    CoreOf(i, x);
    var a, v1 := x.c.sent[x.v.cur], Stored(x.v, p);
    if v1.numRx != ReqPkts(a) {
      assert ExecLog(x.c, v1);
      assert RespLog(x.c, v1);
      assert Receiving(a, v1);
      ProgressedOk(i, x, p, v1);
    } else {
      var v2 := Invoked(v1, p.typ, v1.reqBuf.value);
      InvokeLogs(x.c, v1, v2);
      assert Pending(a, v2);
      ProgressedOk(i, x, p, v2);
    }
  }

  // ---------------------------------------------------------- the response --

  /** A request-for-response names a packet of the current response, or an old request. */
  lemma {:induction false} RfrFacts(i: nat, x: View, p: Pkt)
    requires SlotInv(i, x) && p in x.net && p.RFR?
    ensures p.num <= x.v.cur
    ensures p.num == x.v.cur ==> x.v.cur in x.c.sent && Answered(x.c.sent[x.v.cur], x.v)
    ensures p.num == x.v.cur ==> x.v.savReqPkts <= p.pkt < x.v.savReqPkts + NumPkts(|x.v.tx.value|) - 1
  {
    assert PktOk(x.c, x.v, p);
  }

  lemma {:induction false} RfrCore(i: nat, x: View, p: Pkt)
    requires SlotInv(i, x) && p in x.net && p.RFR? && p.num == x.v.cur && p.pkt == x.v.numRx
    ensures CoreInv(i, x.c, x.v.(numRx := x.v.numRx + 1), x.net)
  {
    hide SlotInvariant.SlotInv, SlotInvariant.DoneLog, SlotInvariant.NetInv;
    RfrFacts(i, x, p);
    CoreOf(i, x);
    var c, v, v' := x.c, x.v, x.v.(numRx := x.v.numRx + 1);
    ProgressedNet(c, v, v', x.net);
    assert ServerInv(c, v') by {
      assert ExecLog(c, v');
      assert RespLog(c, v');
    }
    DoneResps(c, v, v');
    if c.tx.Some? && c.numRx >= ReqPkts(c.tx.value) {
      assert RespArriving(c, v, x.net);
      assert RespSent(c, v', x.net, c.numRx - ReqPkts(c.tx.value) + 1);
    }
  }

  /** The response packet after those sent was neither sent nor queued. */
  lemma {:induction false} NextRespNew(i: nat, x: View, idx: nat)
    requires SlotInv(i, x) && x.v.cur in x.c.sent && Answered(x.c.sent[x.v.cur], x.v)
    requires x.v.savReqPkts + idx == x.v.numRx + 1
    ensures RespPkt(x.v.cur, x.v.savReqPkts, x.v.tx.value, idx) !in x.net
    ensures forall k | 0 <= k < |x.sb| && x.sb[k].RespRef? :: x.sb[k].idx != idx
  {
    assert !PktOk(x.c, x.v, RespPkt(x.v.cur, x.v.savReqPkts, x.v.tx.value, idx));
    forall k | 0 <= k < |x.sb| && x.sb[k].RespRef? ensures x.sb[k].idx != idx {
      assert ServerItemOk(x.c, x.v, x.sb[k]);
    }
  }

  /** `process_rfr_st`, in order. */
  lemma {:induction false} RfrOk(i: nat, x: View, p: Pkt)
    requires SlotInv(i, x) && p in x.net && p.RFR? && p.num == x.v.cur && p.pkt == x.v.numRx
    ensures x.v.savReqPkts <= p.pkt
    ensures SlotInv(i, x.(v := x.v.(numRx := x.v.numRx + 1),
                          sb := x.sb + [RespRef(p.pkt + 1 - x.v.savReqPkts)]))
  {
    hide SlotInvariant.SlotInv, SlotInvariant.CoreInv, SlotInvariant.ClientBatchInv, SlotInvariant.WheelInv;
    SlotParts(i, x);
    RfrFacts(i, x, p);
    RfrCore(i, x, p);
    var c, v, v' := x.c, x.v, x.v.(numRx := x.v.numRx + 1);
    ProgressedClientBatch(c, v, v', x.net, x.cb, x.listening);
    ProgressedServerBatch(c, v, v', x.net, x.sb, x.flushing);
    var idx := p.pkt + 1 - v.savReqPkts;
    NextRespNew(i, x, idx);
    AppendItem(c, v', x.net, x.sb, x.flushing, RespRef(idx));
    MakeSlot(i, x.(v := v', sb := x.sb + [RespRef(idx)]));
  }

  /** A request that waits for its handler is the client's current one. */
  lemma {:induction false} PendingFacts(i: nat, x: View)
    requires SlotInv(i, x) && x.v.reqType.Some?
    ensures x.v.cur in x.c.sent && Pending(x.c.sent[x.v.cur], x.v)
    ensures x.v.cur == x.c.cur && x.c.tx.Some?
  {
  }

  lemma {:induction false} RespondPkt(c: ClientSlot, v: ServerSlot, d: Bytes, p: Pkt)
    requires PktOk(c, v, p) && v.cur !in v.resps
    ensures PktOk(c, Responded(v, d), p)
  {
  }

  lemma {:induction false} RespondNet(c: ClientSlot, v: ServerSlot, net: set<Pkt>, d: Bytes)
    requires NetInv(c, v, net) && v.cur !in v.resps
    ensures NetInv(c, Responded(v, d), net)
  {
    forall p | p in net ensures PktOk(c, Responded(v, d), p) {
      assert PktOk(c, v, p);
      RespondPkt(c, v, d, p);
    }
  }

  lemma {:induction false} RespondBatches(i: nat, x: View, d: Bytes)
    requires SlotInv(i, x) && x.v.reqType.Some?
    ensures ClientBatchInv(x.c, Responded(x.v, d), x.net, x.cb, x.listening)
    ensures ServerBatchInv(x.c, Responded(x.v, d), x.net, x.sb, x.flushing)
    ensures forall k | 0 <= k < |x.sb| :: x.sb[k].SCtl?
  {
    PendingFacts(i, x);
    var v' := Responded(x.v, d);
    forall k | 0 <= k < |x.cb| ensures ClientItemOk(x.c, v', x.cb[k]) {
      assert ClientItemOk(x.c, x.v, x.cb[k]);
      if x.cb[k].Ctl? { RespondPkt(x.c, x.v, d, x.cb[k].pkt); }
    }
    forall k | 0 <= k < |x.sb| ensures x.sb[k].SCtl? && ServerItemOk(x.c, v', x.sb[k]) {
      assert ServerItemOk(x.c, x.v, x.sb[k]);
      RespondPkt(x.c, x.v, d, x.sb[k].pkt);
    }
  }

  lemma {:induction false} RespondLogs(c: ClientSlot, v: ServerSlot, d: Bytes)
    requires ExecLog(c, v) && RespLog(c, v) && DoneLog(c, v)
    requires v.cur in c.sent && v.cur !in v.resps && v.numRx == ReqPkts(c.sent[v.cur]) && |d| <= |c.sent[v.cur].respBuf|
    ensures ExecLog(c, Responded(v, d)) && RespLog(c, Responded(v, d)) && DoneLog(c, Responded(v, d))
  {
    hide SlotInvariant.Executed, SlotInvariant.Completed;
  }

  lemma {:induction false} RespondCore(i: nat, x: View, d: Bytes)
    requires SlotInv(i, x) && x.v.reqType.Some?
    requires x.v.cur in x.c.sent ==> |d| <= |x.c.sent[x.v.cur].respBuf|
    ensures CoreInv(i, x.c, Responded(x.v, d), x.net)
    ensures x.v.cur in x.c.sent && Answered(x.c.sent[x.v.cur], Responded(x.v, d))
  {
    hide SlotInvariant.SlotInv, SlotInvariant.NetInv, SlotInvariant.DoneLog, SlotInvariant.ExecLog,
         SlotInvariant.RespLog;
    PendingFacts(i, x);
    CoreOf(i, x);
    var c, v, v' := x.c, x.v, Responded(x.v, d);
    RespondNet(c, v, x.net, d);
    RespondLogs(c, v, d);
    assert Answered(c.sent[v'.cur], v');
  }

  lemma {:induction false} FirstRespNew(i: nat, x: View, d: Bytes)
    requires SlotInv(i, x) && x.v.reqType.Some?
    ensures var v := Responded(x.v, d);
            v.tx.Some? && v.savReqPkts >= 1 && RespPkt(v.cur, v.savReqPkts, v.tx.value, 0) !in x.net
  {
    PendingFacts(i, x);
    var v := Responded(x.v, d);
    assert !PktOk(x.c, x.v, RespPkt(v.cur, v.savReqPkts, v.tx.value, 0));
  }

  /** `enqueue_response` */
  lemma {:induction false} RespondOk(i: nat, x: View, d: Bytes)
    requires SlotInv(i, x) && x.v.reqType.Some?
    requires x.v.cur in x.c.sent ==> |d| <= |x.c.sent[x.v.cur].respBuf|
    ensures SlotInv(i, x.(v := Responded(x.v, d), sb := x.sb + [RespRef(0)]))
  {
    hide SlotInvariant.SlotInv, SlotInvariant.CoreInv, SlotInvariant.ClientBatchInv, SlotInvariant.WheelInv;
    SlotParts(i, x);
    PendingFacts(i, x);
    RespondCore(i, x, d);
    RespondBatches(i, x, d);
    FirstRespNew(i, x, d);
    var v' := Responded(x.v, d);
    AppendItem(x.c, v', x.net, x.sb, x.flushing, RespRef(0));
    MakeSlot(i, x.(v := v', sb := x.sb + [RespRef(0)]));
  }

  lemma {:induction false} ServerBatchTail(c: ClientSlot, v: ServerSlot, net: set<Pkt>, sb: seq<ServerItem>,
                                           flushing: bool, flushing': bool, p: Pkt)
    requires ServerBatchInv(c, v, net, sb, flushing) && sb != []
    requires flushing' == flushing || |sb| == 1
    requires if sb[0].SCtl? then p == sb[0].pkt
             else v.tx.Some? && v.savReqPkts >= 1 && p == RespPkt(v.cur, v.savReqPkts, v.tx.value, sb[0].idx)
    ensures ServerBatchInv(c, v, net + {p}, sb[1..], flushing')
  {
    assert ServerItemOk(c, v, sb[0]);
  }

  lemma {:induction false} ClientBatchKeep(c: ClientSlot, v: ServerSlot, net: set<Pkt>, cb: seq<ClientItem>,
                                           listening: bool, p: Pkt)
    requires ClientBatchInv(c, v, net, cb, listening) && !p.Req?
    ensures ClientBatchInv(c, v, net + {p}, cb, listening)
  {
  }

  lemma {:induction false} ServerEmitPkt(i: nat, x: View)
    requires SlotInv(i, x) && x.sb != []
    ensures x.sb[0].RespRef? ==> x.v.tx.Some? && x.v.savReqPkts >= 1
    ensures x.sb[0].SCtl? ==> x.sb[0].pkt.CR? && PktOk(x.c, x.v, x.sb[0].pkt)
    ensures x.sb[0].RespRef? ==> PktOk(x.c, x.v, RespPkt(x.v.cur, x.v.savReqPkts, x.v.tx.value, x.sb[0].idx))
  {
    assert ServerItemOk(x.c, x.v, x.sb[0]);
  }

  /** The first item of the server's batch goes out. */
  lemma {:induction false} ServerEmitOk(i: nat, x: View, flushing: bool)
    requires SlotInv(i, x) && x.sb != [] && (flushing == x.flushing || |x.sb| == 1)
    ensures x.sb[0].RespRef? ==> x.v.tx.Some? && x.v.savReqPkts >= 1
    ensures SlotInv(i, x.(sb := x.sb[1..], flushing := flushing,
                          net := x.net + {if x.sb[0].SCtl? then x.sb[0].pkt
                                          else RespPkt(x.v.cur, x.v.savReqPkts, x.v.tx.value, x.sb[0].idx)}))
  {
    hide SlotInvariant.SlotInv, SlotInvariant.CoreInv, SlotInvariant.ClientBatchInv, SlotInvariant.WheelInv;
    SlotParts(i, x);
    ServerEmitPkt(i, x);
    var p := if x.sb[0].SCtl? then x.sb[0].pkt
             else RespPkt(x.v.cur, x.v.savReqPkts, x.v.tx.value, x.sb[0].idx);
    NetGrows(i, x.c, x.v, x.net, p);
    ServerBatchTail(x.c, x.v, x.net, x.sb, x.flushing, flushing, p);
    ClientBatchKeep(x.c, x.v, x.net, x.cb, x.listening, p);
    MakeSlot(i, x.(sb := x.sb[1..], flushing := flushing, net := x.net + {p}));
  }

  /** Other slots do not hold the server's batch open. */
  lemma {:induction false} FlushingOk(i: nat, x: View, flushing: bool)
    requires SlotInv(i, x) && (!flushing ==> !x.flushing || x.sb == [])
    ensures SlotInv(i, x.(flushing := flushing))
  {
  }

  // ---------------------------------------------------------- any packet --

  /** `process_small_req_st` */
  lemma {:induction false} SmallReqOk(i: nat, x: View, p: Pkt)
    requires SlotInv(i, x) && !x.flushing && p in x.net && p.Req? && p.size <= kMaxDataPerPkt
    ensures var o := ProcessSmallReq(x.v, p);
            SlotInv(i, x.(v := o.v, sb := x.sb + o.items, flushing := o.drain))
  {
    hide SlotInvariant.SlotInv, SlotInvariant.RespLog, SlotInvariant.ExecLog, SlotInvariant.DoneLog;
    assert x.sb + [] == x.sb;
    NetHas(i, x, p);
    if p.num > x.v.cur {
      SmallOk(i, x, p);
    } else if p.num == x.v.cur && x.v.tx.Some? {
      ResendOk(i, x, 0);
    }
  }

  /** A request packet at or below the receive count. */
  lemma {:induction false} LargePastOk(i: nat, x: View, p: Pkt)
    requires SlotInv(i, x) && !x.flushing && p in x.net && p.Req? && p.num == x.v.cur && p.pkt < x.v.numRx
    ensures p.pkt != NumPkts(p.size) - 1 ==> SlotInv(i, x.(sb := x.sb + [SCtl(CR(p.num, p.pkt))]))
    ensures x.v.tx.Some? ==> SlotInv(i, x.(sb := x.sb + [RespRef(0)], flushing := true))
  {
    hide SlotInvariant.SlotInv, SlotInvariant.RespLog, SlotInvariant.ExecLog, SlotInvariant.DoneLog;
    NetHas(i, x, p);
    if p.pkt != NumPkts(p.size) - 1 { SendCrOk(i, x, CR(p.num, p.pkt)); }
    if x.v.tx.Some? { ResendOk(i, x, 0); }
  }

  /** The first packet of a multi-packet request. */
  lemma {:induction false} LargeFirstOutcome(i: nat, x: View, p: Pkt, mem: Bytes)
    requires SlotInv(i, x) && !x.flushing && p in x.net && p.Req? && p.size > kMaxDataPerPkt && |mem| == p.size
    requires p.num == x.v.cur + kSessionReqWindow && p.pkt == 0
    ensures var o := ProcessLargeReq(x.v, p, mem);
            && SlotInv(i, x.(v := o.v)) && !o.drain && p.pkt != NumPkts(p.size) - 1
            && o.items == [SCtl(CR(p.num, p.pkt))] && PktOk(x.c, o.v, CR(p.num, p.pkt))
  {
    hide SlotInvariant.SlotInv, Messages.CopyData, SlotInvariant.ServerInv, SlotInvariant.DoneLog;
    NetHas(i, x, p);
    LargeFirstOk(i, x, p, mem);
    NewRequest(i, x, p);
  }

  /** A later packet of a multi-packet request, in order. */
  lemma {:induction false} LargeNextOutcome(i: nat, x: View, p: Pkt, mem: Bytes)
    requires SlotInv(i, x) && !x.flushing && p in x.net && p.Req? && p.size > kMaxDataPerPkt
    requires p.num == x.v.cur && p.pkt == x.v.numRx
    ensures var o := ProcessLargeReq(x.v, p, mem);
            && SlotInv(i, x.(v := o.v)) && !o.drain
            && o.items == (if p.pkt != NumPkts(p.size) - 1 then [SCtl(CR(p.num, p.pkt))] else [])
            && (p.pkt != NumPkts(p.size) - 1 ==> PktOk(x.c, o.v, CR(p.num, p.pkt)))
  {
    hide SlotInvariant.SlotInv, Datapath.ProcessLargeReq;
    LargeNextOk(i, x, p);
    LargeNextIs(i, x, p, mem);
  }

  /** What `process_large_req_one_st` computes for the next packet. */
  lemma {:induction false} LargeNextIs(i: nat, x: View, p: Pkt, mem: Bytes)
    requires SlotInv(i, x) && p in x.net && p.Req? && p.size > kMaxDataPerPkt
    requires p.num == x.v.cur && p.pkt == x.v.numRx && x.v.reqBuf.Some? && x.v.cur in x.c.sent
    ensures var o, a, v1 := ProcessLargeReq(x.v, p, mem), x.c.sent[x.v.cur], Stored(x.v, p);
            && o.v == (if v1.numRx != ReqPkts(a) then v1 else Invoked(v1, p.typ, v1.reqBuf.value)) && !o.drain
            && o.items == (if p.pkt != NumPkts(p.size) - 1 then [SCtl(CR(p.num, p.pkt))] else [])
            && (p.pkt != NumPkts(p.size) - 1 ==> PktOk(x.c, o.v, CR(p.num, p.pkt)))
  {
    hide SlotInvariant.SlotInv, SlotInvariant.ServerInv, SlotInvariant.DoneLog, Messages.Holds, Messages.CopyData;
    NetHas(i, x, p);
    NextRequestPkt(i, x, p);
  }

  /** An in-order packet of a multi-packet request. */
  lemma {:induction false} LargeInOrderOk(i: nat, x: View, p: Pkt, mem: Bytes)
    requires SlotInv(i, x) && !x.flushing && p in x.net && p.Req? && p.size > kMaxDataPerPkt
    requires p.num == x.v.cur + kSessionReqWindow && p.pkt == 0 ==> |mem| == p.size
    requires (p.num == x.v.cur && p.pkt == x.v.numRx) || (p.num == x.v.cur + kSessionReqWindow && p.pkt == 0)
    ensures var o := ProcessLargeReq(x.v, p, mem);
            SlotInv(i, x.(v := o.v, sb := x.sb + o.items, flushing := o.drain))
  {
    hide Datapath.ProcessLargeReq, SlotInvariant.SlotInv, SlotInvariant.PktOk;
    var o := ProcessLargeReq(x.v, p, mem);
    if p.num == x.v.cur { LargeNextOutcome(i, x, p, mem); } else { LargeFirstOutcome(i, x, p, mem); }
    var y := x.(v := o.v);
    assert x.sb + [] == x.sb;
    if p.pkt != NumPkts(p.size) - 1 { SendCrOk(i, y, CR(p.num, p.pkt)); }
  }

  /** `process_large_req_one_st` */
  lemma {:induction false} LargeReqOk(i: nat, x: View, p: Pkt, mem: Bytes)
    requires SlotInv(i, x) && !x.flushing && p in x.net && p.Req? && p.size > kMaxDataPerPkt
    requires p.num == x.v.cur + kSessionReqWindow && p.pkt == 0 ==> |mem| == p.size
    ensures var o := ProcessLargeReq(x.v, p, mem);
            SlotInv(i, x.(v := o.v, sb := x.sb + o.items, flushing := o.drain))
  {
    hide SlotInvariant.SlotInv;
    assert x.sb + [] == x.sb;
    if (p.num == x.v.cur && p.pkt == x.v.numRx) || (p.num == x.v.cur + kSessionReqWindow && p.pkt == 0) {
      LargeInOrderOk(i, x, p, mem);
    } else if p.num == x.v.cur && p.pkt < x.v.numRx {
      LargePastOk(i, x, p);
    }
  }

  /** What `process_rfr_st` does with a request-for-response that can exist. */
  lemma {:induction false} RfrOutcome(i: nat, x: View, p: Pkt)
    requires SlotInv(i, x) && p in x.net && p.RFR?
    ensures ProcessRfr(x.v, p) ==
            if p.num != x.v.cur || p.pkt > x.v.numRx then Served(x.v, [], false)
            else if p.pkt == x.v.numRx
            then Served(x.v.(numRx := x.v.numRx + 1), [RespRef(p.pkt + 1 - x.v.savReqPkts)], false)
            else Served(x.v, [RespRef(p.pkt + 1 - x.v.savReqPkts)], true)
  {
    hide SlotInvariant.SlotInv;
    RfrFacts(i, x, p);
  }

  /** `process_rfr_st` */
  lemma {:induction false} RfrAnyOk(i: nat, x: View, p: Pkt)
    requires SlotInv(i, x) && !x.flushing && p in x.net && p.RFR?
    ensures var o := ProcessRfr(x.v, p);
            SlotInv(i, x.(v := o.v, sb := x.sb + o.items, flushing := o.drain))
  {
    hide SlotInvariant.SlotInv, Datapath.ProcessRfr;
    RfrOutcome(i, x, p);
    if p.num != x.v.cur || p.pkt > x.v.numRx {
      assert x.sb + [] == x.sb;
    } else if p.pkt == x.v.numRx {
      RfrOk(i, x, p);
    } else {
      RfrFacts(i, x, p);
      ResendOk(i, x, p.pkt + 1 - x.v.savReqPkts);
    }
  }

  /** Any packet the server receives. */
  lemma {:induction false} ReceiveOk(i: nat, x: View, p: Pkt, mem: Option<Bytes>)
    requires SlotInv(i, x) && !x.flushing && p in x.net
    requires p.RFR? || (p.Req? && (mem.Some? ==> |mem.value| == p.size))
    ensures var o := ServerReceive(x.v, p, mem);
            SlotInv(i, x.(v := o.v, sb := x.sb + o.items, flushing := o.drain))
  {
    hide SlotInvariant.SlotInv, Datapath.ProcessRfr, Datapath.ProcessSmallReq, Datapath.ProcessLargeReq;
    if p.RFR? {
      RfrAnyOk(i, x, p);
    } else if Allocates(x.v, p) && mem.None? {
      assert x.(v := x.v, sb := x.sb + [], flushing := false) == x;
    } else if p.size <= kMaxDataPerPkt {
      SmallReqOk(i, x, p);
    } else {
      LargeReqOk(i, x, p, if mem.Some? then mem.value else []);
    }
  }
}
