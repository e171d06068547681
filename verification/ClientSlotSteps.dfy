/** The client's handlers preserve the slot invariant. */
module ClientSlotSteps {
  import opened Options
  import opened Arith
  import opened Messages
  import opened Datapath
  import opened SlotInvariant
  import opened SlotFrames

  // ------------------------------------------------------------- the wheel --

  lemma {:induction false} CountTrueUpdate(flags: seq<bool>, f: nat, b: bool)
    requires f < |flags|
    ensures CountTrue(flags[f := b]) ==
            CountTrue(flags) - (if flags[f] then 1 else 0) + (if b then 1 else 0)
  {
    if f > 0 {
      CountTrueUpdate(flags[1..], f - 1, b);
      assert flags[f := b][1..] == flags[1..][f - 1 := b];
    } else {
      assert flags[0 := b][1..] == flags[1..];
    }
  }

  /** One more packet into the wheel: its flag was clear because the window is at most `kSessionCredits` wide. */
  lemma {:induction false} WheelAdd(c: ClientSlot, wh: seq<nat>)
    requires WheelInv(c, wh) && c.tx.Some? && c.numTx < ReqPkts(c.tx.value)
    requires c.numRx <= c.numTx < c.numRx + kSessionCredits
    ensures WheelInv(Sent(c, 1, false), wh + [c.numTx])
  {
    hide SlotInvariant.Backed, SlotInvariant.CountTrue;
    var p := c.numTx;
    var flags := c.inWheel[CreditIdx(p) := true];
    assert SetFlags(c.inWheel, p, 1) == SetFlags(flags, p + 1, 0) == flags;
    FlagClear(c, wh);
    CountTrueUpdate(c.inWheel, CreditIdx(p), true);
    AddBacked(c.inWheel, wh, p);
  }

  /** The next packet's flag is clear: the window is at most `kSessionCredits` wide. */
  lemma {:induction false} FlagClear(c: ClientSlot, wh: seq<nat>)
    requires WheelInv(c, wh) && c.numRx <= c.numTx < c.numRx + kSessionCredits
    ensures !c.inWheel[CreditIdx(c.numTx)]
  {
    forall k | 0 <= k < |wh| ensures CreditIdx(wh[k]) != CreditIdx(c.numTx) { CreditIdxDistinct(wh[k], c.numTx); }
  }

  lemma {:induction false} AddBacked(flags: seq<bool>, wh: seq<nat>, p: nat)
    requires Backed(flags, wh) && CreditIdx(p) < |flags|
    ensures Backed(flags[CreditIdx(p) := true], wh + [p])
  {
    var marked, wh' := flags[CreditIdx(p) := true], wh + [p];
    forall f | 0 <= f < |marked| && marked[f] ensures exists k :: 0 <= k < |wh'| && CreditIdx(wh'[k]) == f {
      if f == CreditIdx(p) {
        assert wh'[|wh|] == p;
      } else {
        var k :| 0 <= k < |wh| && CreditIdx(wh[k]) == f;
        assert wh'[k] == wh[k];
      }
    }
  }

  lemma {:induction false} WheelAddMany(c: ClientSlot, wh: seq<nat>, k: nat)
    requires WheelInv(c, wh) && c.tx.Some? && c.numTx + k <= ReqPkts(c.tx.value)
    requires c.numRx <= c.numTx && c.numTx + k <= c.numRx + kSessionCredits
    ensures WheelInv(Sent(c, k, false), wh + PktNums(c.numTx, k))
    decreases k
  {
    assert |c.inWheel| == kSessionCredits;
    hide SlotInvariant.WheelInv;
    if k == 0 {
      assert wh + PktNums(c.numTx, 0) == wh;
    } else {
      hide Datapath.SetFlags, Datapath.PktNums;
      WheelAdd(c, wh);
      SentOneMore(c, k);
      WheelAddMany(Sent(c, 1, false), wh + [c.numTx], k - 1);
      PktNumsMore(wh, c.numTx, k);
    }
  }

  lemma {:induction false} PktNumsMore(wh: seq<nat>, n: nat, k: nat)
    requires k >= 1
    ensures wh + [n] + PktNums(n + 1, k - 1) == wh + PktNums(n, k)
  {
  }

  lemma {:induction false} SentOneMore(c: ClientSlot, k: nat)
    requires k >= 1 && |c.inWheel| == kSessionCredits
    ensures Sent(Sent(c, 1, false), k - 1, false) == Sent(c, k, false)
  {
    assert Sent(c, 1, false).inWheel == SetFlags(c.inWheel[CreditIdx(c.numTx) := true], c.numTx + 1, 0);
  }

  lemma {:induction false} RemoveIndex(wh: seq<nat>, k: nat, j: nat)
    requires k < |wh| && j < |wh| - 1
    ensures (wh[..k] + wh[k + 1..])[j] == wh[if j < k then j else j + 1]
  {
  }

  /** A packet leaves the wheel: no other entry shares its flag. */
  lemma {:induction false} RemoveKeepsFlags(c: ClientSlot, wh: seq<nat>, k: nat, j: nat)
    requires WheelInv(c, wh) && k < |wh| && j < |wh| && j != k && c.numTx <= c.numRx + kSessionCredits
    ensures CreditIdx(wh[j]) != CreditIdx(wh[k])
  {
    assert wh[j] != wh[k];
    CreditIdxDistinct(wh[j], wh[k]);
  }

  lemma {:induction false} WheelRemove(c: ClientSlot, wh: seq<nat>, k: nat)
    requires WheelInv(c, wh) && k < |wh| && c.numTx <= c.numRx + kSessionCredits
    ensures WheelInv(c.(wheelCount := c.wheelCount - 1, inWheel := c.inWheel[CreditIdx(wh[k]) := false]),
                     wh[..k] + wh[k + 1..])
  {
    hide SlotInvariant.Backed, SlotInvariant.CountTrue;
    var f0 := CreditIdx(wh[k]);
    var flags, wh' := c.inWheel[f0 := false], wh[..k] + wh[k + 1..];
    CountTrueUpdate(c.inWheel, f0, false);
    RemoveBacked(c.inWheel, wh, k);
    forall j | 0 <= j < |wh'|
      ensures wh'[j] == wh[if j < k then j else j + 1] && flags[CreditIdx(wh'[j])]
    {
      RemoveIndex(wh, k, j);
      RemoveKeepsFlags(c, wh, k, if j < k then j else j + 1);
    }
  }

  lemma {:induction false} RemoveBacked(flags: seq<bool>, wh: seq<nat>, k: nat)
    requires Backed(flags, wh) && k < |wh| && CreditIdx(wh[k]) < |flags|
    ensures Backed(flags[CreditIdx(wh[k]) := false], wh[..k] + wh[k + 1..])
  {
    var cleared, wh' := flags[CreditIdx(wh[k]) := false], wh[..k] + wh[k + 1..];
    forall f | 0 <= f < |cleared| && cleared[f] ensures exists j :: 0 <= j < |wh'| && CreditIdx(wh'[j]) == f {
      var j :| 0 <= j < |wh| && CreditIdx(wh[j]) == f;
      assert wh'[if j < k then j else j - 1] == wh[j];
    }
  }

  /** The wheel does not depend on the rest of the slot. */
  lemma {:induction false} WheelFrame(c: ClientSlot, c': ClientSlot, wh: seq<nat>)
    requires WheelInv(c, wh) && c'.inWheel == c.inWheel && c'.wheelCount == c.wheelCount && c'.tx == c.tx
    requires c'.numRx == c.numRx && (wh != [] ==> c.numTx <= c'.numTx)
    ensures WheelInv(c', wh)
  {
    hide SlotInvariant.Backed, SlotInvariant.CountTrue;
  }

  /** An acknowledged packet is not in the wheel, so the entries stay above `numRx`. */
  lemma {:induction false} WheelAck(c: ClientSlot, wh: seq<nat>)
    requires WheelInv(c, wh) && !c.inWheel[CreditIdx(c.numRx)]
    ensures forall k | 0 <= k < |wh| :: c.numRx < wh[k]
  {
  }

  // --------------------------------------------------------- sending packets --

  /** Only the sending side of the slot changed, and `numTx` did not go down. */
  ghost predicate TxGrew(c: ClientSlot, c': ClientSlot) {
    && c.tx.Some?
    && c' == c.(numTx := c'.numTx, progress := c'.progress, inWheel := c'.inWheel, wheelCount := c'.wheelCount)
    && c.numTx <= c'.numTx <= c.numRx + kSessionCredits
    && (c.numRx < ReqPkts(c.tx.value) ==> c'.numTx <= ReqPkts(c.tx.value))
    && (c.numRx >= ReqPkts(c.tx.value) ==> c'.numTx <= WirePkts(c))
  }

  lemma {:induction false} TxGrewCore(i: nat, c: ClientSlot, c': ClientSlot, v: ServerSlot, net: set<Pkt>)
    requires CoreInv(i, c, v, net) && TxGrew(c, c')
    ensures CoreInv(i, c', v, net)
  {
    NetFrame(c, c', v, net);
    ServerFrame(c, c', v);
    assert DoneLog(c', v);
  }

  /** What sending leaves of the slot invariant; the batch and the wheel remain. */
  lemma {:induction false} TxGrewParts(i: nat, x: View, c': ClientSlot, listening: bool)
    requires SlotInv(i, x) && TxGrew(x.c, c') && (listening ==> x.listening)
    ensures CoreInv(i, c', x.v, x.net)
    ensures ClientBatchInv(c', x.v, x.net, x.cb, listening)
    ensures ServerBatchInv(c', x.v, x.net, x.sb, x.flushing)
  {
    hide SlotInvariant.SlotInv, SlotInvariant.CoreInv, SlotInvariant.ServerBatchInv, SlotInvariant.WheelInv;
    SlotParts(i, x);
    TxGrewCore(i, x.c, c', x.v, x.net);
    BatchesFrame(x.c, c', x.v, x.net, x.cb, listening, x.sb, x.flushing);
  }

  /** References to packets `from ..` join a batch that refers only to earlier ones. */
  lemma {:induction false} AppendRefs(c: ClientSlot, v: ServerSlot, net: set<Pkt>, cb: seq<ClientItem>, listening: bool,
                   from: nat, k: nat)
    requires ClientBatchInv(c, v, net, cb, listening) && c.tx.Some?
    requires from + k <= ReqPkts(c.tx.value) && from + k <= c.numTx
    requires listening ==> forall p | p in net && p.Req? && p.num == c.cur :: p.pkt < from
    requires listening ==> forall j | 0 <= j < |cb| && cb[j].ReqRef? :: cb[j].idx < from
    ensures ClientBatchInv(c, v, net, cb + ReqRefs(from, k), listening)
  {
    var cb' := cb + ReqRefs(from, k);
    forall j | 0 <= j < |cb'|
      ensures ClientItemOk(c, v, cb'[j])
      ensures listening && cb'[j].ReqRef? ==> ReqPkt(c.cur, c.tx.value, cb'[j].idx) !in net
    {
      if j < |cb| {
        assert cb'[j] == cb[j];
      } else {
        assert cb'[j] == ReqRef(from + (j - |cb|));
      }
    }
  }

  /** Before anything is retransmitted, all that was sent or queued is below `numTx`. */
  lemma {:induction false} BelowNumTx(i: nat, x: View)
    requires SlotInv(i, x) && x.c.tx.Some?
    ensures forall p | p in x.net && p.Req? && p.num == x.c.cur :: p.pkt < x.c.numTx
    ensures forall j | 0 <= j < |x.cb| && x.cb[j].ReqRef? :: x.cb[j].idx < x.c.numTx
  {
    forall p | p in x.net && p.Req? && p.num == x.c.cur ensures p.pkt < x.c.numTx {
      assert PktOk(x.c, x.v, p);
    }
    forall j | 0 <= j < |x.cb| && x.cb[j].ReqRef? ensures x.cb[j].idx < x.c.numTx {
      assert ClientItemOk(x.c, x.v, x.cb[j]);
    }
  }

  /** The counters of a slot, as the invariant bounds them. */
  lemma {:induction false} Counters(i: nat, x: View)
    requires SlotInv(i, x) && x.c.tx.Some?
    ensures x.c.numRx <= x.c.numTx <= x.c.numRx + kSessionCredits
    ensures x.c.numRx < ReqPkts(x.c.tx.value) ==> x.c.numTx <= ReqPkts(x.c.tx.value)
    ensures x.c.numRx >= ReqPkts(x.c.tx.value) ==> RespArriving(x.c, x.v, x.net) && x.c.numTx <= WirePkts(x.c)
    ensures x.c.cur in x.c.sent && x.c.tx.value == x.c.sent[x.c.cur]
    ensures WheelInv(x.c, x.wh) && |x.c.inWheel| == kSessionCredits
  {
  }

  lemma {:induction false} WheelEmpty(i: nat, x: View)
    requires SlotInv(i, x) && x.c.wheelCount == 0
    ensures x.wh == []
  {
  }

  /** `kick_req_st` */
  lemma {:induction false} KickReqOk(i: nat, x: View, k: nat, bypass: bool)
    requires SlotInv(i, x) && x.c.tx.Some?
    requires x.c.numTx + k <= ReqPkts(x.c.tx.value) && x.c.numTx + k <= x.c.numRx + kSessionCredits
    ensures SlotInv(i, x.(c := Sent(x.c, k, bypass),
                          cb := if bypass then x.cb + ReqRefs(x.c.numTx, k) else x.cb,
                          wh := if bypass then x.wh else x.wh + PktNums(x.c.numTx, k)))
  {
    hide SlotInvariant.SlotInv, SlotInvariant.CoreInv, SlotInvariant.ClientBatchInv, SlotInvariant.ServerBatchInv;
    hide SlotInvariant.WheelInv;
    Counters(i, x);
    var c, c' := x.c, Sent(x.c, k, bypass);
    TxGrewParts(i, x, c', x.listening);
    if bypass {
      BelowNumTx(i, x);
      WheelFrame(c, c', x.wh);
      AppendRefs(c', x.v, x.net, x.cb, x.listening, c.numTx, k);
    } else {
      WheelAddMany(c, x.wh, k);
    }
    MakeSlot(i, x.(c := c', cb := if bypass then x.cb + ReqRefs(x.c.numTx, k) else x.cb,
                   wh := if bypass then x.wh else x.wh + PktNums(x.c.numTx, k)));
  }

  lemma {:induction false} AppendRfrs(c: ClientSlot, v: ServerSlot, net: set<Pkt>, cb: seq<ClientItem>, listening: bool,
                   from: nat, k: nat)
    requires ClientBatchInv(c, v, net, cb, listening) && c.tx.Some? && RespArriving(c, v, net)
    requires c.tx.value == c.sent[c.cur] && c.numRx <= from && from + k <= WirePkts(c)
    ensures ClientBatchInv(c, v, net, cb + Rfrs(c.respHdr, from, k), listening)
  {
    var cb' := cb + Rfrs(c.respHdr, from, k);
    forall j | 0 <= j < |cb'| ensures ClientItemOk(c, v, cb'[j]) {
      if j < |cb| {
        assert cb'[j] == cb[j];
      } else {
        assert cb'[j] == Ctl(RFR(c.respHdr, from + (j - |cb|)));
      }
    }
  }

  /** `kick_rfr_st` */
  lemma {:induction false} KickRfrOk(i: nat, x: View, k: nat)
    requires SlotInv(i, x) && x.c.tx.Some? && x.c.numRx >= ReqPkts(x.c.tx.value)
    requires x.c.numTx + k <= WirePkts(x.c) && x.c.numTx + k <= x.c.numRx + kSessionCredits
    ensures SlotInv(i, x.(c := x.c.(numTx := x.c.numTx + k),
                          cb := x.cb + Rfrs(x.c.respHdr, x.c.numTx, k)))
  {
    hide SlotInvariant.SlotInv, SlotInvariant.CoreInv, SlotInvariant.ClientBatchInv, SlotInvariant.ServerBatchInv;
    hide SlotInvariant.WheelInv;
    var c, c' := x.c, x.c.(numTx := x.c.numTx + k);
    Counters(i, x);
    TxGrewParts(i, x, c', x.listening);
    WheelFrame(c, c', x.wh);
    AppendRfrs(c', x.v, x.net, x.cb, x.listening, c.numTx, k);
    MakeSlot(i, x.(c := c', cb := x.cb + Rfrs(x.c.respHdr, x.c.numTx, k)));
  }

  /** A rollback re-sends at least up to the old `numTx`, so `numTx` never goes down. */
  lemma {:induction false} RetransmitReqOk(i: nat, x: View, k: nat, bypass: bool, tsc: nat)
    requires SlotInv(i, x) && x.c.tx.Some? && x.c.wheelCount == 0 && x.c.numRx < ReqPkts(x.c.tx.value)
    requires x.c.numTx <= x.c.numRx + k <= ReqPkts(x.c.tx.value) && k <= kSessionCredits
    ensures SlotInv(i, x.(c := Sent(x.c.(numTx := x.c.numRx, progress := tsc), k, bypass),
                          cb := if bypass then x.cb + ReqRefs(x.c.numRx, k) else x.cb,
                          wh := if bypass then x.wh else x.wh + PktNums(x.c.numRx, k),
                          listening := false))
  {
    hide SlotInvariant.SlotInv, SlotInvariant.CoreInv, SlotInvariant.ClientBatchInv, SlotInvariant.ServerBatchInv;
    hide SlotInvariant.WheelInv;
    var c0 := x.c.(numTx := x.c.numRx, progress := tsc);
    Counters(i, x);
    var c, c' := x.c, Sent(c0, k, bypass);
    WheelEmpty(i, x);
    TxGrewParts(i, x, c', false);
    WheelFrame(c, c0, x.wh);
    if bypass {
      WheelFrame(c, c', x.wh);
      AppendRefs(c', x.v, x.net, x.cb, false, c.numRx, k);
    } else {
      WheelAddMany(c0, x.wh, k);
    }
    MakeSlot(i, x.(c := c', cb := if bypass then x.cb + ReqRefs(x.c.numRx, k) else x.cb,
                   wh := if bypass then x.wh else x.wh + PktNums(x.c.numRx, k), listening := false));
  }

  lemma {:induction false} RetransmitRfrOk(i: nat, x: View, k: nat, tsc: nat)
    requires SlotInv(i, x) && x.c.tx.Some? && x.c.wheelCount == 0 && x.c.numRx >= ReqPkts(x.c.tx.value)
    requires x.c.numTx <= x.c.numRx + k <= WirePkts(x.c) && k <= kSessionCredits
    ensures SlotInv(i, x.(c := x.c.(numTx := x.c.numRx + k, progress := tsc),
                          cb := x.cb + Rfrs(x.c.respHdr, x.c.numRx, k), listening := false))
  {
    hide SlotInvariant.SlotInv, SlotInvariant.CoreInv, SlotInvariant.ClientBatchInv, SlotInvariant.ServerBatchInv;
    hide SlotInvariant.WheelInv;
    var c, c' := x.c, x.c.(numTx := x.c.numRx + k, progress := tsc);
    Counters(i, x);
    WheelEmpty(i, x);
    TxGrewParts(i, x, c', false);
    WheelFrame(c, c', x.wh);
    AppendRfrs(c', x.v, x.net, x.cb, false, c.numRx, k);
    MakeSlot(i, x.(c := c', cb := x.cb + Rfrs(x.c.respHdr, x.c.numRx, k), listening := false));
  }

  lemma {:induction false} ReapFacts(i: nat, x: View, k: nat)
    requires SlotInv(i, x) && k < |x.wh|
    ensures x.c.tx.Some? && x.wh[k] < ReqPkts(x.c.tx.value) && x.wh[k] < x.c.numTx && x.c.wheelCount >= 1
    ensures |x.c.inWheel| == kSessionCredits
  {
  }

  /** `process_wheel_st`, one entry. */
  lemma {:induction false} ReapOk(i: nat, x: View, k: nat)
    requires SlotInv(i, x) && k < |x.wh|
    ensures SlotInv(i, x.(c := x.c.(wheelCount := x.c.wheelCount - 1,
                                    inWheel := x.c.inWheel[CreditIdx(x.wh[k]) := false]),
                          wh := x.wh[..k] + x.wh[k + 1..],
                          cb := x.cb + [ReqRef(x.wh[k])], listening := false))
  {
    hide SlotInvariant.SlotInv, SlotInvariant.CoreInv, SlotInvariant.ClientBatchInv, SlotInvariant.ServerBatchInv;
    hide SlotInvariant.WheelInv;
    ReapFacts(i, x, k);
    Counters(i, x);
    var c' := x.c.(wheelCount := x.c.wheelCount - 1, inWheel := x.c.inWheel[CreditIdx(x.wh[k]) := false]);
    TxGrewParts(i, x, c', false);
    WheelRemove(x.c, x.wh, k);
    AppendRefs(c', x.v, x.net, x.cb, false, x.wh[k], 1);
    assert ReqRefs(x.wh[k], 1) == [ReqRef(x.wh[k])];
    MakeSlot(i, x.(c := c', wh := x.wh[..k] + x.wh[k + 1..], cb := x.cb + [ReqRef(x.wh[k])], listening := false));
  }

  // ------------------------------------------------------- receiving packets --

  /** Only the receiving side of the slot changed. */
  ghost predicate RxGrew(c: ClientSlot, c': ClientSlot) {
    c' == c.(numRx := c.numRx + 1, progress := c'.progress,
             respBuf := c'.respBuf, respSize := c'.respSize, respHdr := c'.respHdr)
  }

  lemma {:induction false} RxGrewCore(i: nat, x: View, c': ClientSlot)
    requires CoreInv(i, x.c, x.v, x.net) && RxGrew(x.c, c') && ClientInv(c', x.v, x.net)
    ensures CoreInv(i, c', x.v, x.net)
  {
    NetFrame(x.c, c', x.v, x.net);
    ServerFrame(x.c, c', x.v);
  }

  lemma {:induction false} WheelAcked(c: ClientSlot, c': ClientSlot, wh: seq<nat>)
    requires WheelInv(c, wh) && RxGrew(c, c') && |c.inWheel| == kSessionCredits && !c.inWheel[CreditIdx(c.numRx)]
    ensures WheelInv(c', wh)
  {
    hide SlotInvariant.Backed, SlotInvariant.CountTrue;
    WheelAck(c, wh);
  }

  /** What is left to show after a packet was received: the client's own part. */
  lemma {:induction false} RxGrewOk(i: nat, x: View, c': ClientSlot)
    requires SlotInv(i, x) && RxGrew(x.c, c') && x.c.tx.Some?
    requires x.c.numRx < x.c.numTx && !x.c.inWheel[CreditIdx(x.c.numRx)]
    requires ClientInv(c', x.v, x.net)
    ensures SlotInv(i, x.(c := c'))
  {
    hide SlotInvariant.SlotInv, SlotInvariant.CoreInv, SlotInvariant.ClientBatchInv, SlotInvariant.ServerBatchInv;
    hide SlotInvariant.WheelInv;
    SlotParts(i, x);
    RxGrewCore(i, x, c');
    BatchesFrame(x.c, c', x.v, x.net, x.cb, x.listening, x.sb, x.flushing);
    WheelAcked(x.c, c', x.wh);
    MakeSlot(i, x.(c := c'));
  }

  /** `process_expl_cr_st` up to the kick. */
  lemma {:induction false} CrOk(i: nat, x: View, p: Pkt, tsc: nat)
    requires SlotInv(i, x) && p in x.net && p.CR? && InOrder(x.c, p)
    ensures x.c.tx.Some?
    ensures SlotInv(i, x.(c := x.c.(numRx := x.c.numRx + 1, progress := tsc)))
    ensures x.c.numRx + 1 < ReqPkts(x.c.tx.value)
  {
    assert PktOk(x.c, x.v, p);
    var c' := x.c.(numRx := x.c.numRx + 1, progress := tsc);
    assert DoneLog(c', x.v);
    RxGrewOk(i, x, c');
  }

  /** An in-order response packet belongs to the response of the active request. */
  lemma {:induction false} RespInOrder(i: nat, x: View, p: Pkt)
    requires SlotInv(i, x) && p in x.net && p.Resp? && InOrder(x.c, p)
    ensures x.c.tx.Some? && x.v.cur == x.c.cur && x.c.cur in x.c.sent && Answered(x.c.sent[x.c.cur], x.v)
    ensures var n := ReqPkts(x.c.tx.value);
            && n - 1 <= x.c.numRx < n - 1 + NumPkts(|x.v.tx.value|)
            && p == RespPkt(x.c.cur, n, x.v.tx.value, x.c.numRx + 1 - n)
            && p.size == |x.v.tx.value| <= |x.c.respBuf|
            && x.c.numRx + 1 <= x.v.numRx
            && (x.c.numRx + 1 - n > 0 ==> Holds(x.c.respBuf, x.v.tx.value, x.c.numRx + 1 - n)
                                          && x.c.respSize == |x.v.tx.value| && x.c.respHdr == x.c.cur)
  {
    hide SlotInvariant.SlotInv, SlotInvariant.CoreInv, SlotInvariant.ExecLog;
    hide SlotInvariant.DoneLog, SlotInvariant.RespSent, Messages.Holds;
    NetHas(i, x, p);
    assert x.v.cur in x.c.sent;
  }

  /** The slot after an in-order packet of a multi-packet response was copied. */
  function Copied(c: ClientSlot, p: Pkt, tsc: nat): ClientSlot
    requires p.Resp? && c.tx.Some?
  {
    var c1 := Sized(c.(numRx := c.numRx + 1, progress := tsc), p);
    c1.(respBuf := CopyData(c1.respBuf, Max(0, p.pkt - (ReqPkts(c.tx.value) - 1)), p.size, p.data))
  }

  lemma {:induction false} AnsweredHas(a: Args, v: ServerSlot)
    requires Answered(a, v)
    ensures v.tx.Some? && v.cur in v.resps && v.resps[v.cur] == v.tx.value && v.savReqPkts == ReqPkts(a)
  {
  }

  lemma {:induction false} CopiedHolds(i: nat, x: View, p: Pkt, tsc: nat)
    requires SlotInv(i, x) && p in x.net && p.Resp? && InOrder(x.c, p) && p.size > kMaxDataPerPkt
    ensures x.c.tx.Some? && x.v.tx.Some?
    ensures var c := Copied(x.c, p, tsc); var n := ReqPkts(x.c.tx.value);
            && c.numRx + 1 - n >= 1 && Holds(c.respBuf, x.v.tx.value, c.numRx + 1 - n)
            && c.respSize == |x.v.tx.value| && c.respHdr == c.cur && |c.respBuf| == |x.c.respBuf|
  {
    hide SlotInvariant.SlotInv, SlotInvariant.Answered, Messages.Holds, Messages.CopyData, Datapath.InOrder;
    RespInOrder(i, x, p);
    assert x.v.tx.Some? by { AnsweredHas(x.c.sent[x.c.cur], x.v); }
    var n, d := ReqPkts(x.c.tx.value), x.v.tx.value;
    var idx := x.c.numRx + 1 - n;
    if idx == 0 { HoldsNone(x.c.respBuf, d); }
    HoldsStep(x.c.respBuf, d, idx);
  }

  /** Every response packet up to and including this one was on the wire. */
  lemma {:induction false} RespSentStep(i: nat, x: View, p: Pkt)
    requires SlotInv(i, x) && p in x.net && p.Resp? && InOrder(x.c, p)
    ensures x.c.tx.Some? && x.v.tx.Some? && x.v.cur in x.c.sent
    ensures RespSent(x.c, x.v, x.net, x.c.numRx - ReqPkts(x.c.tx.value) + 2)
  {
    hide SlotInvariant.SlotInv, SlotInvariant.CoreInv, SlotInvariant.DoneLog, SlotInvariant.ServerInv;
    RespInOrder(i, x, p);
    NetHas(i, x, p);
    var n := ReqPkts(x.c.tx.value);
    forall idx | 0 <= idx < x.c.numRx - n + 2
      ensures RespPkt(x.v.cur, n, x.v.tx.value, idx) in x.net
    {
      if idx != x.c.numRx + 1 - n { assert RespArriving(x.c, x.v, x.net); }
    }
  }

  /** A response packet that is not the last. */
  lemma {:induction false} RespMoreOk(i: nat, x: View, p: Pkt, tsc: nat)
    requires SlotInv(i, x) && p in x.net && p.Resp? && InOrder(x.c, p) && p.size > kMaxDataPerPkt
    ensures x.c.tx.Some?
    ensures var c := Copied(x.c, p, tsc);
            && c.numTx <= WirePkts(c) && c.numRx <= WirePkts(c)
            && (c.numRx != WirePkts(c) ==> SlotInv(i, x.(c := c)) && c.numRx >= ReqPkts(c.tx.value))
  {
    hide SlotInvariant.SlotInv, SlotInvariant.CoreInv, SlotInvariant.ServerInv, Messages.Holds, Messages.CopyData;
    RespInOrder(i, x, p);
    CopiedHolds(i, x, p, tsc);
    NetHas(i, x, p);
    var c := Copied(x.c, p, tsc);
    if c.numRx != WirePkts(c) {
      RespSentStep(i, x, p);
      assert RespArriving(c, x.v, x.net);
      assert DoneLog(c, x.v);
      RxGrewOk(i, x, c);
    }
  }

  /** The slot after its continuation ran. */
  function Finished(c: ClientSlot): ClientSlot {
    c.(tx := None, done := c.done + [Done(c.cur, c.respBuf[..Min(c.respSize, |c.respBuf|)])])
  }

  /** A request packet that the server has received is not waiting in the client's batch. */
  lemma {:induction false} NoRefToReceived(i: nat, x: View, k: nat)
    requires SlotInv(i, x) && x.listening && k < |x.cb|
    requires x.c.tx.Some? && x.v.cur == x.c.cur && x.v.numRx >= ReqPkts(x.c.tx.value)
    ensures x.cb[k].Ctl?
  {
    assert ClientItemOk(x.c, x.v, x.cb[k]);
  }

  /** Once the last request packet is acknowledged the wheel holds nothing of the slot. */
  lemma {:induction false} CountIs(c: ClientSlot, wh: seq<nat>)
    requires WheelInv(c, wh)
    ensures c.wheelCount == |wh|
  {
  }

  lemma {:induction false} NoEntryLeft(c: ClientSlot, wh: seq<nat>)
    requires WheelInv(c, wh) && |c.inWheel| == kSessionCredits && !c.inWheel[CreditIdx(c.numRx)]
    requires c.tx.Some? && c.numRx + 1 >= ReqPkts(c.tx.value)
    ensures wh == []
  {
    if wh != [] {
      var first := wh[0];
      WheelAck(c, wh);
      assert false;
    }
  }

  /** No TX batch item and no wheel entry refers to a request whose last response packet arrives. */
  lemma {:induction false} NoReferenceLeft(i: nat, x: View, p: Pkt)
    requires SlotInv(i, x) && p in x.net && p.Resp? && InOrder(x.c, p) && x.listening
    requires x.c.tx.Some? && x.v.tx.Some?
    requires x.c.numRx + 1 == ReqPkts(x.c.tx.value) + NumPkts(|x.v.tx.value|) - 1
    ensures x.wh == [] && x.c.wheelCount == 0
    ensures forall k | 0 <= k < |x.cb| :: x.cb[k].Ctl?
    ensures x.c.numTx == x.c.numRx + 1 && x.v.numRx == x.c.numRx + 1
  {
    hide SlotInvariant.SlotInv, SlotInvariant.CoreInv, SlotInvariant.WheelInv, SlotInvariant.DoneLog;
    RespInOrder(i, x, p);
    NetHas(i, x, p);
    Counters(i, x);
    NoEntryLeft(x.c, x.wh);
    assert x.c.wheelCount == 0 by { CountIs(x.c, x.wh); }
    forall k | 0 <= k < |x.cb| ensures x.cb[k].Ctl? {
      NoRefToReceived(i, x, k);
    }
  }

  lemma {:induction false} FinishDoneLog(i: nat, c: ClientSlot, v: ServerSlot)
    requires Numbering(i, c, v) && DoneLog(c, v) && c.tx.Some?
    requires c.cur in v.resps && c.respSize <= |c.respBuf| && c.respBuf[..c.respSize] == v.resps[c.cur]
    ensures DoneLog(Finished(c), v)
  {
    var c' := Finished(c);
    forall r | r in c'.sent ensures Completed(c'.done, r) { FinishCompleted(c, v, r); }
    hide SlotInvariant.Completed;
    forall r | r in c.sent ensures r == c.cur || r + kSessionReqWindow <= c.cur {}
  }

  lemma {:induction false} FinishCompleted(c: ClientSlot, v: ServerSlot, r: nat)
    requires DoneLog(c, v) && c.tx.Some? && r in c.sent && c.respSize <= |c.respBuf|
    ensures Completed(Finished(c).done, r)
  {
    var c' := Finished(c);
    if r == c.cur {
      assert c'.done[|c.done|].num == r;
    } else {
      assert Completed(c.done, r);
      var k :| 0 <= k < |c.done| && c.done[k].num == r;
      assert c'.done[k].num == r;
    }
  }

  lemma {:induction false} WheelIdle(c: ClientSlot, c': ClientSlot)
    requires WheelInv(c, []) && c'.inWheel == c.inWheel && c'.wheelCount == c.wheelCount
    ensures WheelInv(c', [])
  {
  }

  lemma {:induction false} FinishCore(i: nat, x: View, p: Pkt, c: ClientSlot)
    requires SlotInv(i, x) && p in x.net && p.Resp? && InOrder(x.c, p) && x.listening
    requires x.c.tx.Some? && x.v.tx.Some? && RxGrew(x.c, c)
    requires c.numRx == ReqPkts(x.c.tx.value) + NumPkts(|x.v.tx.value|) - 1
    requires c.respSize == |x.v.tx.value| <= |c.respBuf| && c.respBuf[..c.respSize] == x.v.tx.value
    ensures CoreInv(i, Finished(c), x.v, x.net)
  {
    hide SlotInvariant.SlotInv, SlotInvariant.NetInv, SlotInvariant.ServerInv, SlotInvariant.DoneLog;
    CoreOf(i, x);
    RespInOrder(i, x, p);
    NoReferenceLeft(i, x, p);
    RespSentStep(i, x, p);
    var c' := Finished(c);
    assert DoneLog(c, x.v) by { DoneFrame(x.c, c, x.v); }
    FinishDoneLog(i, c, x.v);
    NetFrame(x.c, c', x.v, x.net);
    ServerFrame(x.c, c', x.v);
    assert RespSent(c', x.v, x.net, NumPkts(|x.v.tx.value|));
  }

  lemma {:induction false} DoneFrame(c: ClientSlot, c': ClientSlot, v: ServerSlot)
    requires DoneLog(c, v) && c'.done == c.done && c'.sent == c.sent && c'.cur == c.cur && c'.tx == c.tx
    ensures DoneLog(c', v)
  {
  }

  /** The slot once the buffer holds the whole response satisfies the invariant as an idle slot. */
  lemma {:induction false} FinishOk(i: nat, x: View, p: Pkt, c: ClientSlot)
    requires SlotInv(i, x) && p in x.net && p.Resp? && InOrder(x.c, p) && x.listening
    requires x.c.tx.Some? && x.v.tx.Some? && RxGrew(x.c, c)
    requires c.numRx == ReqPkts(x.c.tx.value) + NumPkts(|x.v.tx.value|) - 1
    requires c.respSize == |x.v.tx.value| <= |c.respBuf| && c.respBuf[..c.respSize] == x.v.tx.value
    ensures SlotInv(i, x.(c := Finished(c)))
  {
    hide SlotInvariant.SlotInv, SlotInvariant.CoreInv, SlotInvariant.ClientBatchInv, SlotInvariant.ServerBatchInv;
    hide SlotInvariant.WheelInv;
    SlotParts(i, x);
    NoReferenceLeft(i, x, p);
    FinishCore(i, x, p, c);
    var c' := Finished(c);
    CtlFrame(x.c, c', x.v, x.net, x.cb, x.listening);
    ServerBatchFrame(x.c, c', x.v, x.net, x.sb, x.flushing);
    WheelIdle(x.c, c');
    MakeSlot(i, x.(c := c'));
  }

  /** A single-packet response completes the request. */
  lemma {:induction false} RespSingleOk(i: nat, x: View, p: Pkt, tsc: nat)
    requires SlotInv(i, x) && p in x.net && p.Resp? && InOrder(x.c, p) && x.listening
    requires p.size <= kMaxDataPerPkt
    ensures x.c.tx.Some?
    ensures SlotInv(i, x.(c := Finished(x.c.(numRx := x.c.numRx + 1, progress := tsc, respSize := p.size,
                                             respHdr := p.num, respBuf := WriteAt(x.c.respBuf, 0, p.data)))))
  {
    hide SlotInvariant.SlotInv, SlotInvariant.Answered, Datapath.InOrder;
    RespInOrder(i, x, p);
    AnsweredHas(x.c.sent[x.c.cur], x.v);
    var d := x.v.tx.value;
    CoveredBounds(0, |d|);
    assert p.data == d;
    FinishOk(i, x, p, x.c.(numRx := x.c.numRx + 1, progress := tsc, respSize := p.size,
                           respHdr := p.num, respBuf := WriteAt(x.c.respBuf, 0, p.data)));
  }

  /** The last packet of a multi-packet response completes the request. */
  lemma {:induction false} RespLastOk(i: nat, x: View, p: Pkt, tsc: nat)
    requires SlotInv(i, x) && p in x.net && p.Resp? && InOrder(x.c, p) && x.listening
    requires p.size > kMaxDataPerPkt && x.c.tx.Some?
    requires var c := Copied(x.c, p, tsc); c.numRx == WirePkts(c)
    ensures SlotInv(i, x.(c := Finished(Copied(x.c, p, tsc))))
  {
    hide SlotInvariant.SlotInv, SlotInvariant.Answered, Messages.Holds, Messages.CopyData, Datapath.InOrder;
    RespInOrder(i, x, p);
    CopiedHolds(i, x, p, tsc);
    var c := Copied(x.c, p, tsc);
    HoldsAll(c.respBuf, x.v.tx.value);
    FinishOk(i, x, p, c);
  }

  // -------------------------------------------------------- starting, sending --

  lemma {:induction false} StartNumbering(i: nat, c: ClientSlot, v: ServerSlot, a: Args, tsc: nat)
    requires Numbering(i, c, v) && c.tx.None?
    ensures Numbering(i, Started(c, a, tsc), v)
    ensures Started(c, a, tsc).cur !in c.sent
  {
    assert SlotOf(c.cur + kSessionReqWindow) == SlotOf(c.cur);
  }

  lemma {:induction false} StartDoneLog(i: nat, c: ClientSlot, v: ServerSlot, a: Args, tsc: nat)
    requires DoneLog(c, v) && c.tx.None?
    ensures DoneLog(Started(c, a, tsc), v)
  {
  }

  lemma {:induction false} StartCore(i: nat, c: ClientSlot, v: ServerSlot, net: set<Pkt>, a: Args, tsc: nat)
    requires CoreInv(i, c, v, net) && c.tx.None?
    ensures CoreInv(i, Started(c, a, tsc), v, net)
    ensures Extends(c.sent, Started(c, a, tsc).sent)
    ensures v.cur in Started(c, a, tsc).sent ==> v.cur in c.sent
  {
    var c' := Started(c, a, tsc);
    StartNumbering(i, c, v, a, tsc);
    StartDoneLog(i, c, v, a, tsc);
    NetFrame(c, c', v, net);
    ServerFrame(c, c', v);
    assert v.cur in c.sent ==> RespSent(c', v, net, NumPkts(|v.tx.value|));
  }

  /** `enqueue_request` on a free slot. */
  lemma {:induction false} StartOk(i: nat, x: View, a: Args, tsc: nat)
    requires SlotInv(i, x) && x.c.tx.None?
    ensures SlotInv(i, x.(c := Started(x.c, a, tsc)))
  {
    var c' := Started(x.c, a, tsc);
    StartCore(i, x.c, x.v, x.net, a, tsc);
    forall k | 0 <= k < |x.cb| ensures x.cb[k].Ctl? {
      assert ClientItemOk(x.c, x.v, x.cb[k]);
    }
    CtlFrame(x.c, c', x.v, x.net, x.cb, x.listening);
    ServerBatchFrame(x.c, c', x.v, x.net, x.sb, x.flushing);
  }

  lemma {:induction false} ClientBatchTail(c: ClientSlot, v: ServerSlot, net: set<Pkt>, cb: seq<ClientItem>,
                                           listening: bool, p: Pkt)
    requires ClientBatchInv(c, v, net, cb, listening) && cb != []
    requires if cb[0].Ctl? then p == cb[0].pkt else c.tx.Some? && p == ReqPkt(c.cur, c.tx.value, cb[0].idx)
    ensures ClientBatchInv(c, v, net + {p}, cb[1..], listening)
  {
    assert ClientItemOk(c, v, cb[0]);
  }

  lemma {:induction false} ServerBatchKeep(c: ClientSlot, v: ServerSlot, net: set<Pkt>, sb: seq<ServerItem>,
                                           flushing: bool, p: Pkt)
    requires ServerBatchInv(c, v, net, sb, flushing) && !p.Resp?
    ensures ServerBatchInv(c, v, net + {p}, sb, flushing)
  {
  }

  /** The first item of the client's batch goes out. */
  lemma {:induction false} ClientEmitOk(i: nat, x: View)
    requires SlotInv(i, x) && x.cb != []
    ensures x.cb[0].ReqRef? ==> x.c.tx.Some?
    ensures SlotInv(i, x.(cb := x.cb[1..],
                          net := x.net + {if x.cb[0].Ctl? then x.cb[0].pkt
                                          else ReqPkt(x.c.cur, x.c.tx.value, x.cb[0].idx)}))
  {
    assert ClientItemOk(x.c, x.v, x.cb[0]);
    var p := if x.cb[0].Ctl? then x.cb[0].pkt else ReqPkt(x.c.cur, x.c.tx.value, x.cb[0].idx);
    assert PktOk(x.c, x.v, p);
    NetGrows(i, x.c, x.v, x.net, p);
    ClientBatchTail(x.c, x.v, x.net, x.cb, x.listening, p);
    ServerBatchKeep(x.c, x.v, x.net, x.sb, x.flushing, p);
  }

  lemma {:induction false} ListenOk(i: nat, x: View, listening: bool)
    requires SlotInv(i, x) && (listening ==> x.listening || x.cb == [])
    ensures SlotInv(i, x.(listening := listening))
  {
  }
}
