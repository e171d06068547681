/**
 * What each step of the server does in every reachable world, in terms of the
 * messages that the client enqueued and the handlers answered.
 */
module ServerEffects {
  import opened Options
  import opened Sequences
  import opened Arith
  import opened Messages
  import opened Datapath
  import opened Session
  import opened SlotInvariant
  import opened ServerSlotSteps
  import opened SharedQueues
  import opened SessionInvariant
  import opened SessionSteps

  /** Only slot `i` of the server differs; `items` are at the end of its TX batch and are drained at once or not. */
  predicate Answers(w: World, v: World, i: nat, items: seq<ServerItem>, drain: bool) {
    && v == w.(s := v.s) && i < |w.s.slots| == |v.s.slots| && v.s.slots == w.s.slots[i := v.s.slots[i]]
    && |v.s.batch| == |w.s.batch| + |items| && w.s.batch <= v.s.batch && v.s.flushing == drain
    && forall y | |w.s.batch| <= y < |v.s.batch| :: v.s.batch[y] == Tagged(i, items[y - |w.s.batch|])
  }

  // Requests

  /** What a request packet says about the server's slot. */
  lemma {:induction false} RequestIs(i: nat, x: View, p: Pkt)
    requires SlotInv(i, x) && p in x.net && p.Req?
    ensures p.num in x.c.sent && p.pkt < ReqPkts(x.c.sent[p.num]) && p == ReqPkt(p.num, x.c.sent[p.num], p.pkt)
    ensures p.num <= x.v.cur || p.num == x.v.cur + kSessionReqWindow
    ensures p.num == x.v.cur ==> x.v.numRx >= 1 && (x.v.tx.Some? <==> x.v.cur in x.v.resps)
    ensures p.num == x.v.cur && p.pkt == x.v.numRx ==> Receiving(x.c.sent[p.num], x.v)
    ensures p.num == x.v.cur && p.pkt > x.v.numRx ==> |x.c.sent[p.num].data| > kMaxDataPerPkt
  {
    hide SlotInvariant.SlotInv, SlotInvariant.ExecLog, SlotInvariant.RespLog, SlotInvariant.DoneLog, Messages.Holds;
    NetHas(i, x, p);
    if p.num > x.v.cur { NewRequest(i, x, p); }
  }

  /** The server needs memory of its own for the request. */
  predicate Copies(a: Args) {
    |a.data| > kMaxDataPerPkt || a.typ in backgroundTypes || !kZeroCopyRX
  }

  /** A packet of a request that the server has moved past changes nothing. */
  lemma {:induction false} OldIgnored(w: World, p: Pkt, mem: Option<Bytes>)
    requires Reachable(w) && SizedWorld(w) && p.Req? && Enabled(w, ServerRx(p, mem))
    requires p.num < w.s.slots[SlotOf(p.num)].cur
    ensures Next(w, ServerRx(p, mem)) == w
  {
    hide SlotInvariant.SlotInv, Session.Reachable, Messages.NumPkts, SlotOf, Messages.Chunk;
    var i := SlotOf(p.num);
    ReachableSlot(w, i);
    RequestIs(i, ViewOf(w, i), p);
    Unmoved(w, p, mem);
  }

  lemma {:induction false} Unmoved(w: World, p: Pkt, mem: Option<Bytes>)
    requires SizedWorld(w) && (p.Req? || p.RFR?) && Enabled(w, ServerRx(p, mem))
    requires ServerReceive(w.s.slots[SlotOf(p.num)], p, mem) == Served(w.s.slots[SlotOf(p.num)], [], false)
    ensures Next(w, ServerRx(p, mem)) == w
  {
    hide ServerReceive, SlotOf;
    var i := SlotOf(p.num);
    assert w.s.batch + At(i, []) == w.s.batch && w.s.slots[i := w.s.slots[i]] == w.s.slots;
  }

  /** A packet that the server received before is acknowledged again: by a credit return or, if it is the request's
      last, by the first response packet, sent at once, if there is a response. */
  lemma {:induction false} RepeatAnswered(w: World, p: Pkt, mem: Option<Bytes>)
    requires Reachable(w) && SizedWorld(w) && p.Req? && Enabled(w, ServerRx(p, mem))
    requires var v := w.s.slots[SlotOf(p.num)]; p.num == v.cur && p.pkt < v.numRx
    ensures var i, m := SlotOf(p.num), Next(w, ServerRx(p, mem));
            var c, v := w.c.slots[i], w.s.slots[i];
            && p.num in c.sent && p.pkt < ReqPkts(c.sent[p.num]) && m.s.slots == w.s.slots
            && if p.pkt + 1 < ReqPkts(c.sent[p.num]) then Answers(w, m, i, [SCtl(CR(p.num, p.pkt))], false)
               else if p.num in v.resps then Answers(w, m, i, [RespRef(0)], true)
               else m == w
  {
    hide SlotInvariant.SlotInv, Session.Reachable, Messages.NumPkts, SlotOf, Messages.Chunk, Messages.CopyData;
    var i := SlotOf(p.num);
    var v := w.s.slots[i];
    ReachableSlot(w, i);
    RequestIs(i, ViewOf(w, i), p);
    SmallIsOne(p.size);
    assert ServerReceive(v, p, mem).v == v;
    assert w.s.slots[i := v] == w.s.slots;
    if ServerReceive(v, p, mem).items == [] { Unmoved(w, p, mem); }
  }

  lemma {:induction false} SmallIsOne(size: nat)
    ensures NumPkts(size) == 1 <==> size <= kMaxDataPerPkt
  {
  }

  /** A packet of the current request that the server has not received is taken if it is the next one, and is then
      acknowledged by a credit return unless it is the last. The last invokes the handler on the request as the client
      enqueued it. A packet out of turn is dropped. */
  lemma {:induction false} NextTaken(w: World, p: Pkt, mem: Option<Bytes>)
    requires Reachable(w) && SizedWorld(w) && p.Req? && Enabled(w, ServerRx(p, mem))
    requires var v := w.s.slots[SlotOf(p.num)]; p.num == v.cur && p.pkt >= v.numRx
    ensures var i, m := SlotOf(p.num), Next(w, ServerRx(p, mem));
            var c, v, v' := w.c.slots[i], w.s.slots[i], m.s.slots[i];
            && p.num in c.sent
            && var a := c.sent[p.num];
            if p.pkt > v.numRx then m == w
            else
              && Answers(w, m, i, if p.pkt + 1 < ReqPkts(a) then [SCtl(CR(p.num, p.pkt))] else [], false)
              && v'.cur == v.cur && v'.numRx == v.numRx + 1 && v'.resps == v.resps && v'.tx == v.tx
              && v'.execs == v.execs + (if p.pkt + 1 == ReqPkts(a) then [Exec(p.num, a.typ, a.data)] else [])
              && v'.reqType == if p.pkt + 1 == ReqPkts(a) then Some(a.typ) else None
  {
    hide SlotInvariant.SlotInv, Session.Reachable, Messages.NumPkts, SlotOf, Messages.Chunk, Messages.CopyData;
    var i := SlotOf(p.num);
    var x, v := ViewOf(w, i), w.s.slots[i];
    ReachableSlot(w, i);
    RequestIs(i, x, p);
    SmallIsOne(p.size);
    if p.pkt > v.numRx {
      Unmoved(w, p, mem);
    } else {
      StoredBuffer(i, x, p);
    }
  }

  /** The first packet of the next request makes the server move on to it, if there is memory where that is needed: the
      old response is gone, a one-packet request goes to its handler, and otherwise a credit return goes out. Its other
      packets are dropped. */
  lemma {:induction false} NewTaken(w: World, p: Pkt, mem: Option<Bytes>)
    requires Reachable(w) && SizedWorld(w) && p.Req? && Enabled(w, ServerRx(p, mem))
    requires p.num > w.s.slots[SlotOf(p.num)].cur
    ensures var i, m := SlotOf(p.num), Next(w, ServerRx(p, mem));
            var c, v, v' := w.c.slots[i], w.s.slots[i], m.s.slots[i];
            && p.num in c.sent && p.num == v.cur + kSessionReqWindow
            && var a := c.sent[p.num];
            if p.pkt > 0 || (Copies(a) && mem.None?) then m == w
            else
              && Answers(w, m, i, if ReqPkts(a) > 1 then [SCtl(CR(p.num, 0))] else [], false)
              && v'.cur == p.num && v'.numRx == 1 && v'.tx.None? && v'.resps == v.resps
              && v'.execs == v.execs + (if ReqPkts(a) == 1 then [Exec(p.num, a.typ, a.data)] else [])
              && (ReqPkts(a) == 1 ==> v'.reqType == Some(a.typ))
  {
    hide SlotInvariant.SlotInv, Session.Reachable, Messages.NumPkts, SlotOf, Messages.CopyData;
    var i := SlotOf(p.num);
    var x := ViewOf(w, i);
    ReachableSlot(w, i);
    RequestIs(i, x, p);
    SmallIsOne(p.size);
    if p.pkt > 0 || (Copies(x.c.sent[p.num]) && mem.None?) {
      Unmoved(w, p, mem);
    } else if p.size <= kMaxDataPerPkt {
      OneChunk(x.c.sent[p.num].data);
    }
  }

  lemma {:induction false} OneChunk(d: Bytes)
    requires |d| <= kMaxDataPerPkt
    ensures Chunk(d, 0) == d
  {
    CoveredBounds(0, |d|);
  }

  // Responses

  /** A request-for-response of the current request is answered with the response packet it asks for: the next one, or
      one that was asked for before, which goes out at once. One out of turn, or of an older request, is dropped. */
  lemma {:induction false} RfrAnswered(w: World, p: Pkt, mem: Option<Bytes>)
    requires Reachable(w) && SizedWorld(w) && p.RFR? && Enabled(w, ServerRx(p, mem))
    ensures var i, m := SlotOf(p.num), Next(w, ServerRx(p, mem));
            var c, v := w.c.slots[i], w.s.slots[i];
            && p.num <= v.cur && p.num in c.sent
            && if p.num < v.cur || p.pkt > v.numRx then m == w
               else
                 && p.num in v.resps && ReqPkts(c.sent[p.num]) <= p.pkt
                 && p.pkt + 1 - ReqPkts(c.sent[p.num]) < NumPkts(|v.resps[p.num]|)
                 && Answers(w, m, i, [RespRef(p.pkt + 1 - ReqPkts(c.sent[p.num]))], p.pkt < v.numRx)
                 && m.s.slots[i] == v.(numRx := if p.pkt == v.numRx then v.numRx + 1 else v.numRx)
  {
    hide SlotInvariant.SlotInv, Session.Reachable, Messages.NumPkts, SlotOf;
    var i := SlotOf(p.num);
    var x := ViewOf(w, i);
    ReachableSlot(w, i);
    RfrIs(i, x, p);
    if p.num < x.v.cur || p.pkt > x.v.numRx { Unmoved(w, p, mem); }
  }

  lemma {:induction false} RfrIs(i: nat, x: View, p: Pkt)
    requires SlotInv(i, x) && p in x.net && p.RFR?
    ensures p.num <= x.v.cur && p.num in x.c.sent
    ensures p.num == x.v.cur ==>
              && p.num in x.v.resps && x.v.savReqPkts == ReqPkts(x.c.sent[p.num])
              && x.v.savReqPkts <= p.pkt < x.v.savReqPkts + NumPkts(|x.v.resps[p.num]|) - 1
  {
    hide SlotInvariant.SlotInv, Messages.NumPkts, SlotInvariant.ExecLog, SlotInvariant.RespLog, SlotInvariant.DoneLog;
    RfrFacts(i, x, p);
    NetHas(i, x, p);
  }

  /** A handler's answer is recorded for its request, and its first packet goes to the end of the TX batch. */
  lemma {:induction false} RespondSends(w: World, i: nat, d: Bytes)
    requires Reachable(w) && SizedWorld(w) && Enabled(w, Respond(i, d))
    ensures var m := Next(w, Respond(i, d));
            var v, v' := w.s.slots[i], m.s.slots[i];
            && Answers(w, m, i, [RespRef(0)], false) && v.cur in w.c.slots[i].sent && v.cur !in v.resps
            && v'.cur == v.cur && v'.numRx == v.numRx == ReqPkts(w.c.slots[i].sent[v.cur]) && v'.tx == Some(d)
            && v'.resps == v.resps[v.cur := d] && v'.execs == v.execs && v'.reqType.None?
  {
    hide SlotInvariant.SlotInv, Session.Reachable, Messages.NumPkts;
    ReachableSlot(w, i);
    PendingFacts(i, ViewOf(w, i));
  }

  /** The first item of the TX batch leaves it and its packet is on the wire: the credit return that it is, or the
      packet of the recorded response that it refers to. The drain ends with the last item. */
  lemma {:induction false} BurstSends(w: World)
    requires Reachable(w) && SizedWorld(w) && Enabled(w, ServerBurst)
    ensures var x, m := w.s.batch[0], Next(w, ServerBurst);
            && x.slot < kSessionReqWindow && m.c == w.c && m.s.slots == w.s.slots && m.s.batch == w.s.batch[1..]
            && m.s.flushing == (w.s.flushing && m.s.batch != [])
            && var c, v := w.c.slots[x.slot], w.s.slots[x.slot];
            && (x.item.RespRef? ==> v.cur in c.sent && v.cur in v.resps)
            && var p := if x.item.SCtl? then x.item.pkt
                        else RespPkt(v.cur, ReqPkts(c.sent[v.cur]), v.resps[v.cur], x.item.idx);
            m.net == w.net[x.slot := w.net[x.slot] + {p}]
  {
    hide SlotInvariant.SlotInv, Session.Reachable, Messages.NumPkts, SlotOf, Messages.Chunk;
    ReachableOk(w);
    var x := w.s.batch[0];
    OfTail(w.s.batch, x.slot);
    ReachableSlot(w, x.slot);
    ServerItemFacts(x.slot, ViewOf(w, x.slot));
    if x.item.RespRef? { ItemIs(x.slot, ViewOf(w, x.slot)); }
    var c, v := w.c.slots[x.slot], w.s.slots[x.slot];
    var p := if x.item.SCtl? then x.item.pkt
             else RespPkt(v.cur, ReqPkts(c.sent[v.cur]), v.resps[v.cur], x.item.idx);
    hide Transmit;
    TransmitOne(w.net, x.slot, p);
  }

  lemma {:induction false} ItemIs(i: nat, x: View)
    requires SlotInv(i, x) && x.sb != [] && x.sb[0].RespRef?
    ensures x.v.cur in x.c.sent && x.v.cur in x.v.resps && x.v.tx == Some(x.v.resps[x.v.cur])
    ensures x.v.savReqPkts == ReqPkts(x.c.sent[x.v.cur])
  {
    assert ServerItemOk(x.c, x.v, x.sb[0]);
  }
}
