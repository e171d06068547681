/**
 * What always holds between a client slot, the server slot it talks to, the
 * packets of that pair on the wire, and the pair's entries in the TX batches
 * and in the wheel.
 */
module SlotInvariant {
  import opened Options
  import opened Sequences
  import opened Arith
  import opened Messages
  import opened Datapath

  /** Everything that concerns slot `i`. `listening`: the client is at a stage where packets may arrive
      before the batch is sent; `flushing`: the server is draining its batch. */
  datatype View = View(
    c: ClientSlot, v: ServerSlot, net: set<Pkt>,
    cb: seq<ClientItem>, sb: seq<ServerItem>, wh: seq<nat>,
    listening: bool, flushing: bool)

  /** Request numbers: the server is at the client's request or exactly one window behind it. */
  ghost predicate Numbering(i: nat, c: ClientSlot, v: ServerSlot) {
    && SlotOf(c.cur) == i
    && (v.cur == c.cur || (v.cur + kSessionReqWindow == c.cur && c.tx.Some?))
    && (forall r | r in c.sent :: r == c.cur || r + kSessionReqWindow <= c.cur)
    && (forall r | r in c.sent :: i < r && SlotOf(r) == i)
    && (c.cur in c.sent || c.cur == i)
    && (v.cur in c.sent || v.cur == i)
    && (c.tx.Some? ==> c.cur in c.sent && c.tx.value == c.sent[c.cur])
  }

  ghost predicate Executed(execs: seq<Exec>, num: nat) {
    exists k :: 0 <= k < |execs| && execs[k].num == num
  }

  ghost predicate Completed(done: seq<Done>, num: nat) {
    exists k :: 0 <= k < |done| && done[k].num == num
  }

  /** The handler ran for distinct requests in increasing order, each time on the bytes the client enqueued. */
  ghost predicate ExecLog(c: ClientSlot, v: ServerSlot) {
    && (forall k | 0 <= k < |v.execs| ::
          var e := v.execs[k]; e.num in c.sent && e == Exec(e.num, c.sent[e.num].typ, c.sent[e.num].data))
    && (forall j, k | 0 <= j < k < |v.execs| :: v.execs[j].num < v.execs[k].num)
    && (forall k | 0 <= k < |v.execs| ::
          var r := v.execs[k].num;
          r + kSessionReqWindow <= v.cur || (r == v.cur && v.numRx >= ReqPkts(c.sent[r])))
    && (v.cur in c.sent && v.numRx >= ReqPkts(c.sent[v.cur]) ==> Executed(v.execs, v.cur))
  }

  ghost predicate RespLog(c: ClientSlot, v: ServerSlot) {
    forall r | r in v.resps ::
      && r in c.sent
      && (r == v.cur || r + kSessionReqWindow <= v.cur)
      && |v.resps[r]| <= |c.sent[r].respBuf|
      && Executed(v.execs, r)
  }

  /** Some request packets are still missing. */
  ghost predicate Receiving(a: Args, v: ServerSlot) {
    && 1 <= v.numRx < ReqPkts(a)
    && v.reqBuf.Some? && |v.reqBuf.value| == |a.data| && Holds(v.reqBuf.value, a.data, v.numRx)
    && v.reqType.None? && v.tx.None? && v.cur !in v.resps
  }

  /** The handler was invoked and has not answered. */
  ghost predicate Pending(a: Args, v: ServerSlot) {
    && v.numRx == ReqPkts(a)
    && v.reqType == Some(a.typ) && v.reqBuf == Some(a.data)
    && v.tx.None? && v.cur !in v.resps
  }

  /** The response was enqueued. */
  ghost predicate Answered(a: Args, v: ServerSlot) {
    && v.reqType.None? && v.reqBuf.None?
    && v.tx.Some? && v.cur in v.resps && v.resps[v.cur] == v.tx.value
    && v.savReqPkts == ReqPkts(a)
    && ReqPkts(a) <= v.numRx <= ReqPkts(a) + NumPkts(|v.tx.value|) - 1
  }

  ghost predicate ServerInv(c: ClientSlot, v: ServerSlot) {
    && ExecLog(c, v)
    && RespLog(c, v)
    && (v.cur !in c.sent ==>
          v.tx.None? && v.reqType.None? && v.reqBuf.None? && v.resps == map[] && v.execs == [])
    && (v.cur in c.sent ==>
          var a := c.sent[v.cur]; Receiving(a, v) || Pending(a, v) || Answered(a, v))
  }

  /** A response packet of the server's current request was sent. */
  ghost predicate RespSent(c: ClientSlot, v: ServerSlot, net: set<Pkt>, upto: int)
    requires v.tx.Some? && v.cur in c.sent
  {
    forall idx | 0 <= idx < upto :: RespPkt(v.cur, ReqPkts(c.sent[v.cur]), v.tx.value, idx) in net
  }

  /** The client is done with the server's current request: everything was received and sent. */
  ghost predicate Settled(c: ClientSlot, v: ServerSlot, net: set<Pkt>) {
    v.cur in c.sent && (v.cur != c.cur || c.tx.None?) ==>
      && Answered(c.sent[v.cur], v)
      && v.numRx == ReqPkts(c.sent[v.cur]) + NumPkts(|v.tx.value|) - 1
      && RespSent(c, v, net, NumPkts(|v.tx.value|))
  }

  /** The client's response buffer while a multi-packet response arrives. */
  ghost predicate RespArriving(c: ClientSlot, v: ServerSlot, net: set<Pkt>)
    requires c.tx.Some?
  {
    var n := ReqPkts(c.tx.value);
    && v.cur == c.cur && c.cur in c.sent && Answered(c.sent[c.cur], v)
    && var m := NumPkts(|v.tx.value|);
    && n <= c.numRx < n + m - 1 && c.numTx <= n + m - 1
    && c.respSize == |v.tx.value| && c.respHdr == c.cur
    && Holds(c.respBuf, v.tx.value, c.numRx - n + 1)
    && RespSent(c, v, net, c.numRx - n + 1)
  }

  /** Each finished request ran its continuation once, in order, with the response its handler enqueued. */
  ghost predicate DoneLog(c: ClientSlot, v: ServerSlot) {
    && (forall k | 0 <= k < |c.done| ::
          c.done[k].num in v.resps && c.done[k].resp == v.resps[c.done[k].num])
    && (forall j, k | 0 <= j < k < |c.done| :: c.done[j].num < c.done[k].num)
    && (forall k | 0 <= k < |c.done| ::
          c.done[k].num + kSessionReqWindow <= c.cur || (c.done[k].num == c.cur && c.tx.None?))
    && (forall r | r in c.sent && (r != c.cur || c.tx.None?) :: Completed(c.done, r))
  }

  ghost predicate ClientInv(c: ClientSlot, v: ServerSlot, net: set<Pkt>) {
    && c.numRx <= c.numTx <= c.numRx + kSessionCredits
    && DoneLog(c, v)
    && (c.tx.None? ==> c.numTx == c.numRx)
    && (c.tx.Some? ==>
          var n := ReqPkts(c.tx.value);
          && |c.respBuf| == |c.tx.value.respBuf|
          && (c.numRx > 0 ==> v.cur == c.cur && c.numRx <= v.numRx)
          && (c.numRx < n ==> c.numTx <= n)
          && (c.numRx >= n ==> RespArriving(c, v, net)))
  }

  /** What a packet says is true. */
  ghost predicate PktOk(c: ClientSlot, v: ServerSlot, p: Pkt) {
    && p.num in c.sent
    && var n := ReqPkts(c.sent[p.num]);
    match p
    case Req(_, k, _, _, _) =>
      && k < n && p == ReqPkt(p.num, c.sent[p.num], k)
      && (p.num == c.cur && c.tx.Some? ==> k < c.numTx)
    case CR(_, k) =>
      && (p.num == v.cur || p.num + kSessionReqWindow <= v.cur)
      && k + 1 < n && (p.num == v.cur ==> k < v.numRx)
    case RFR(_, k) =>
      p.num in v.resps && n <= k < n + NumPkts(|v.resps[p.num]|) - 1
    case Resp(_, k, _, _) =>
      && p.num in v.resps
      && n <= k + 1 <= n - 1 + NumPkts(|v.resps[p.num]|)
      && p == RespPkt(p.num, n, v.resps[p.num], k + 1 - n)
      && (p.num == v.cur ==> k < v.numRx)
  }

  ghost predicate NetInv(c: ClientSlot, v: ServerSlot, net: set<Pkt>) {
    && (forall p | p in net :: PktOk(c, v, p))
    && (v.cur in c.sent ==>
          forall k | 0 <= k < ReqPkts(c.sent[v.cur]) && k < v.numRx ::
            ReqPkt(v.cur, c.sent[v.cur], k) in net)
  }

  ghost predicate ClientItemOk(c: ClientSlot, v: ServerSlot, x: ClientItem) {
    match x
    case ReqRef(idx) => c.tx.Some? && idx < ReqPkts(c.tx.value) && idx < c.numTx
    case Ctl(p) => p.RFR? && PktOk(c, v, p)
  }

  /** References to the request buffer are live. At a stage where packets may arrive, they are to packets never sent. */
  ghost predicate ClientBatchInv(c: ClientSlot, v: ServerSlot, net: set<Pkt>, cb: seq<ClientItem>, listening: bool) {
    && (forall k | 0 <= k < |cb| :: ClientItemOk(c, v, cb[k]))
    && (listening ==>
          && (forall k | 0 <= k < |cb| && cb[k].ReqRef? :: ReqPkt(c.cur, c.tx.value, cb[k].idx) !in net)
          && (forall j, k | 0 <= j < k < |cb| && cb[j].ReqRef? && cb[k].ReqRef? :: cb[j].idx != cb[k].idx))
  }

  ghost predicate ServerItemOk(c: ClientSlot, v: ServerSlot, x: ServerItem) {
    match x
    case RespRef(idx) =>
      && v.cur in c.sent && Answered(c.sent[v.cur], v)
      && idx < NumPkts(|v.tx.value|) && v.savReqPkts + idx <= v.numRx
    case SCtl(p) => p.CR? && PktOk(c, v, p)
  }

  ghost predicate ServerBatchInv(c: ClientSlot, v: ServerSlot, net: set<Pkt>, sb: seq<ServerItem>, flushing: bool) {
    && (forall k | 0 <= k < |sb| :: ServerItemOk(c, v, sb[k]))
    && (!flushing ==>
          && (forall k | 0 <= k < |sb| && sb[k].RespRef? ::
                RespPkt(v.cur, v.savReqPkts, v.tx.value, sb[k].idx) !in net)
          && (forall j, k | 0 <= j < k < |sb| && sb[j].RespRef? && sb[k].RespRef? :: sb[j].idx != sb[k].idx))
  }

  function CountTrue(flags: seq<bool>): nat {
    if flags == [] then 0 else (if flags[0] then 1 else 0) + CountTrue(flags[1..])
  }

  /** Every set flag belongs to an entry. */
  ghost predicate Backed(flags: seq<bool>, wh: seq<nat>) {
    forall f | 0 <= f < |flags| && flags[f] :: exists k :: 0 <= k < |wh| && CreditIdx(wh[k]) == f
  }

  /** The wheel holds distinct unacknowledged request packets, and the slot's flags and count describe it exactly. */
  ghost predicate WheelInv(c: ClientSlot, wh: seq<nat>) {
    && |c.inWheel| == kSessionCredits
    && c.wheelCount == |wh| == CountTrue(c.inWheel)
    && (wh != [] ==> c.tx.Some?)
    && (forall k | 0 <= k < |wh| ::
          && c.numRx <= wh[k] < c.numTx && wh[k] < ReqPkts(c.tx.value)
          && c.inWheel[CreditIdx(wh[k])])
    && Distinct(wh)
    && Backed(c.inWheel, wh)
  }

  /** The endpoints and the wire. */
  ghost predicate CoreInv(i: nat, c: ClientSlot, v: ServerSlot, net: set<Pkt>) {
    && i < kSessionReqWindow
    && Numbering(i, c, v)
    && ServerInv(c, v)
    && Settled(c, v, net)
    && ClientInv(c, v, net)
    && NetInv(c, v, net)
  }

  ghost predicate SlotInv(i: nat, x: View) {
    && CoreInv(i, x.c, x.v, x.net)
    && ClientBatchInv(x.c, x.v, x.net, x.cb, x.listening)
    && ServerBatchInv(x.c, x.v, x.net, x.sb, x.flushing)
    && WheelInv(x.c, x.wh)
  }

  lemma {:induction false} SlotParts(i: nat, x: View)
    requires SlotInv(i, x)
    ensures CoreInv(i, x.c, x.v, x.net) && ClientBatchInv(x.c, x.v, x.net, x.cb, x.listening)
    ensures ServerBatchInv(x.c, x.v, x.net, x.sb, x.flushing) && WheelInv(x.c, x.wh)
  {
  }

  lemma {:induction false} MakeSlot(i: nat, x: View)
    requires CoreInv(i, x.c, x.v, x.net) && ClientBatchInv(x.c, x.v, x.net, x.cb, x.listening)
    requires ServerBatchInv(x.c, x.v, x.net, x.sb, x.flushing) && WheelInv(x.c, x.wh)
    ensures SlotInv(i, x)
  {
  }

  lemma {:induction false} CoreOf(i: nat, x: View)
    requires SlotInv(i, x)
    ensures i < kSessionReqWindow && Numbering(i, x.c, x.v) && ServerInv(x.c, x.v) && Settled(x.c, x.v, x.net)
    ensures ClientInv(x.c, x.v, x.net) && DoneLog(x.c, x.v) && NetInv(x.c, x.v, x.net)
  {
  }

  /** A packet on the wire, and what the endpoints' invariants say beside it. */
  lemma {:induction false} NetHas(i: nat, x: View, p: Pkt)
    requires SlotInv(i, x) && p in x.net
    ensures PktOk(x.c, x.v, p)
    ensures Numbering(i, x.c, x.v) && ServerInv(x.c, x.v) && Settled(x.c, x.v, x.net) && ClientInv(x.c, x.v, x.net)
  {
  }

  /** Bounds that the session's accounting relies on. */
  lemma {:induction false} SlotBounds(i: nat, x: View)
    requires SlotInv(i, x)
    ensures |x.c.inWheel| == kSessionCredits
    ensures x.c.numRx <= x.c.numTx
    ensures x.c.tx.None? ==> x.c.numTx == x.c.numRx && x.wh == []
    ensures x.c.tx.Some? && x.c.numRx >= ReqPkts(x.c.tx.value) ==>
              x.c.numRx < WirePkts(x.c) && x.c.numTx <= WirePkts(x.c)
    ensures x.c.tx.Some? && x.c.numRx < ReqPkts(x.c.tx.value) ==> x.c.numTx <= ReqPkts(x.c.tx.value)
    ensures x.c.wheelCount == |x.wh|
    ensures forall k | 0 <= k < |x.wh| :: x.c.tx.Some? && x.wh[k] < ReqPkts(x.c.tx.value)
  {
  }

  /** What a batch item will send. */
  lemma {:induction false} ClientItemFacts(i: nat, x: View)
    requires SlotInv(i, x) && x.cb != []
    ensures match x.cb[0]
            case ReqRef(_) => x.c.tx.Some? && SlotOf(x.c.cur) == i
            case Ctl(p) => SlotOf(p.num) == i
  {
    assert ClientItemOk(x.c, x.v, x.cb[0]);
  }

  lemma {:induction false} ServerItemFacts(i: nat, x: View)
    requires SlotInv(i, x) && x.sb != []
    ensures match x.sb[0]
            case RespRef(_) => x.v.tx.Some? && x.v.savReqPkts >= 1 && SlotOf(x.v.cur) == i
            case SCtl(p) => SlotOf(p.num) == i
  {
    assert ServerItemOk(x.c, x.v, x.sb[0]);
  }
}
