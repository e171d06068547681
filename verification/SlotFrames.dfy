/** Parts of the slot invariant that a change to one side of the client slot leaves alone. */
module SlotFrames {
  import opened Options
  import opened Messages
  import opened Datapath
  import opened SlotInvariant

  ghost predicate Extends(m: map<nat, Args>, m': map<nat, Args>) {
    forall r | r in m :: r in m' && m'[r] == m[r]
  }

  /** `c'` knows the requests of `c`, and no new one is the server's current request. */
  ghost predicate SameHistory(c: ClientSlot, c': ClientSlot, v: ServerSlot) {
    && Extends(c.sent, c'.sent)
    && (v.cur in c'.sent ==> v.cur in c.sent)
  }

  lemma {:induction false} PktFrame(c: ClientSlot, c': ClientSlot, v: ServerSlot, p: Pkt)
    requires PktOk(c, v, p) && Extends(c.sent, c'.sent)
    requires p.Req? && p.num == c'.cur && c'.tx.Some? ==> p.pkt < c'.numTx
    ensures PktOk(c', v, p)
  {
  }

  lemma {:induction false} NetFrame(c: ClientSlot, c': ClientSlot, v: ServerSlot, net: set<Pkt>)
    requires NetInv(c, v, net) && SameHistory(c, c', v)
    requires (c'.cur == c.cur && (c'.tx.Some? ==> c.tx.Some?) && c.numTx <= c'.numTx) || c'.cur !in c.sent
    ensures NetInv(c', v, net)
  {
    forall p | p in net ensures PktOk(c', v, p) {
      assert PktOk(c, v, p);
      PktFrame(c, c', v, p);
    }
  }

  lemma {:induction false} ServerFrame(c: ClientSlot, c': ClientSlot, v: ServerSlot)
    requires ServerInv(c, v) && SameHistory(c, c', v)
    ensures ServerInv(c', v)
  {
    assert ExecLog(c', v);
    assert RespLog(c', v);
  }

  lemma {:induction false} ServerBatchFrame(c: ClientSlot, c': ClientSlot, v: ServerSlot, net: set<Pkt>,
                         sb: seq<ServerItem>, flushing: bool)
    requires ServerBatchInv(c, v, net, sb, flushing) && Extends(c.sent, c'.sent)
    ensures ServerBatchInv(c', v, net, sb, flushing)
  {
    forall k | 0 <= k < |sb| ensures ServerItemOk(c', v, sb[k]) {
      assert ServerItemOk(c, v, sb[k]);
      if sb[k].SCtl? { PktFrame(c, c', v, sb[k].pkt); }
    }
  }

  lemma {:induction false} ClientBatchFrame(c: ClientSlot, c': ClientSlot, v: ServerSlot, net: set<Pkt>,
                         cb: seq<ClientItem>, listening: bool)
    requires ClientBatchInv(c, v, net, cb, listening) && Extends(c.sent, c'.sent)
    requires c'.cur == c.cur && c'.tx == c.tx && c.numTx <= c'.numTx
    ensures ClientBatchInv(c', v, net, cb, listening)
  {
    forall k | 0 <= k < |cb| ensures ClientItemOk(c', v, cb[k]) {
      assert ClientItemOk(c, v, cb[k]);
      if cb[k].Ctl? { PktFrame(c, c', v, cb[k].pkt); }
    }
  }

  lemma {:induction false} BatchesFrame(c: ClientSlot, c': ClientSlot, v: ServerSlot, net: set<Pkt>,
                     cb: seq<ClientItem>, listening: bool, sb: seq<ServerItem>, flushing: bool)
    requires ClientBatchInv(c, v, net, cb, listening) && ServerBatchInv(c, v, net, sb, flushing)
    requires c'.cur == c.cur && c'.tx == c.tx && c.numTx <= c'.numTx && c'.sent == c.sent
    ensures ClientBatchInv(c', v, net, cb, listening) && ServerBatchInv(c', v, net, sb, flushing)
  {
    ClientBatchFrame(c, c', v, net, cb, listening);
    ServerBatchFrame(c, c', v, net, sb, flushing);
  }

  /** A batch with control packets only does not depend on the request buffer. */
  lemma {:induction false} CtlFrame(c: ClientSlot, c': ClientSlot, v: ServerSlot, net: set<Pkt>, cb: seq<ClientItem>,
                                    listening: bool)
    requires ClientBatchInv(c, v, net, cb, listening) && Extends(c.sent, c'.sent)
    requires forall k | 0 <= k < |cb| :: cb[k].Ctl?
    ensures ClientBatchInv(c', v, net, cb, listening)
  {
    forall k | 0 <= k < |cb| ensures ClientItemOk(c', v, cb[k]) {
      assert ClientItemOk(c, v, cb[k]);
      PktFrame(c, c', v, cb[k].pkt);
    }
  }

  /** A true packet may be put on the wire. */
  lemma {:induction false} NetGrows(i: nat, c: ClientSlot, v: ServerSlot, net: set<Pkt>, p: Pkt)
    requires CoreInv(i, c, v, net) && PktOk(c, v, p)
    ensures CoreInv(i, c, v, net + {p})
  {
    var net' := net + {p};
    assert NetInv(c, v, net');
    assert Settled(c, v, net');
    if c.tx.Some? && c.numRx >= ReqPkts(c.tx.value) {
      assert RespArriving(c, v, net);
      assert RespSent(c, v, net', c.numRx - ReqPkts(c.tx.value) + 1);
    }
  }
}
