/**
 * The steps of a loss scan, which requests it retransmits, and that it sends
 * their first unacknowledged packets again.
 */
module LossScan {
  import opened Options
  import opened Sequences
  import opened Messages
  import opened Datapath
  import opened Session
  import opened SlotInvariant
  import opened SessionInvariant
  import opened SessionSteps
  import Theorems

  function Bursts(n: nat): seq<Step> { seq(n, _ => ClientBurst) }

  /** A retransmission by the loss scan: the slot, whether the wheel was bypassed, how many batch items the drain
      sent. */
  datatype Scan = Scan(slot: nat, bypass: bool, sent: nat)

  function AfterScan(before: seq<Step>, c: Scan): seq<Step> {
    before + [LossDetected(c.slot, c.bypass)] + Bursts(c.sent) + [NextStage]
  }

  function AfterScans(before: seq<Step>, scans: seq<Scan>): seq<Step> {
    if scans == [] then before
    else AfterScan(AfterScans(before, scans[..|scans| - 1]), scans[|scans| - 1])
  }

  /** A request with unacknowledged packets and no progress for the retransmission timeout. */
  predicate TimedOut(s: Client, i: nat) {
    i < |s.slots| && s.slots[i].numTx != s.slots[i].numRx && s.tsc > s.slots[i].progress + kRpcRto
  }

  /** The slots among `q` that have timed out, in order. */
  function Due(s: Client, q: seq<nat>): seq<nat> {
    if q == [] then []
    else Due(s, q[..|q| - 1]) + if TimedOut(s, q[|q| - 1]) then [q[|q| - 1]] else []
  }

  lemma {:induction false} DueHas(s: Client, q: seq<nat>, i: nat)
    ensures i in Due(s, q) <==> i in q && TimedOut(s, i)
  {
    if q != [] {
      DueHas(s, q[..|q| - 1], i);
      assert q == q[..|q| - 1] + [q[|q| - 1]];
    }
  }

  /** The scans are of the slots among `q` that have timed out, in list order. */
  predicate ScansDue(s: Client, q: seq<nat>, scans: seq<Scan>) {
    |scans| == |Due(s, q)| && forall k | 0 <= k < |scans| :: scans[k].slot == Due(s, q)[k]
  }

  lemma {:induction false} ScansMore(s: Client, q: seq<nat>, k: nat, before: seq<Step>, scans: seq<Scan>, scan: Scan)
    requires k < |q| && ScansDue(s, q[..k], scans) && scan.slot == q[k]
    ensures ScansDue(s, q[..k + 1], if TimedOut(s, q[k]) then scans + [scan] else scans)
    ensures AfterScans(before, scans + [scan]) == AfterScan(AfterScans(before, scans), scan)
  {
    assert q[..k + 1][..k] == q[..k];
    assert (scans + [scan])[..|scans|] == scans;
  }

  lemma {:induction false} ScansNone(s: Client, q: seq<nat>, before: seq<Step>)
    ensures ScansDue(s, q[..0], []) && AfterScans(before, []) == before
  {
    assert q[..0] == [];
  }

  /** The slots from place `k` of the list on are as they were. */
  ghost predicate Untouched(s: Client, s0: Client, q: seq<nat>, k: nat) {
    && |s.slots| == |s0.slots| && s.tsc == s0.tsc
    && forall j | k <= j < |q| && q[j] < |s.slots| :: s.slots[q[j]] == s0.slots[q[j]]
  }

  lemma {:induction false} NoneTouched(s: Client, q: seq<nat>)
    ensures Untouched(s, s, q, 0)
  {
  }

  lemma {:induction false} StillUntouched(s: Client, r: Client, s0: Client, q: seq<nat>, k: nat)
    requires Untouched(s, s0, q, k) && Distinct(q) && k < |q| && q[k] < |s.slots| == |r.slots| && r.tsc == s.tsc
    requires forall j | 0 <= j < |r.slots| && j != q[k] :: r.slots[j] == s.slots[j]
    ensures Untouched(r, s0, q, k + 1)
    ensures TimedOut(s0, q[k]) <==>
            s.slots[q[k]].numTx != s.slots[q[k]].numRx && s.tsc - s.slots[q[k]].progress > kRpcRto
  {
  }

  // Which slots a scan retransmits

  /** The loss of a packet of slot `i` is detected by one of the steps from `from` on. */
  predicate LossIn(steps: seq<Step>, from: nat, i: nat) {
    exists k :: from <= k < |steps| && steps[k].LossDetected? && steps[k].slot == i
  }

  predicate ScansSlot(scans: seq<Scan>, i: nat) {
    exists k :: 0 <= k < |scans| && scans[k].slot == i
  }

  lemma {:induction false} ScansLonger(before: seq<Step>, scans: seq<Scan>)
    ensures before <= AfterScans(before, scans)
  {
    if scans != [] { ScansLonger(before, scans[..|scans| - 1]); }
  }

  lemma {:induction false} ScansDetect(before: seq<Step>, scans: seq<Scan>, i: nat)
    ensures before <= AfterScans(before, scans)
    ensures LossIn(AfterScans(before, scans), |before|, i) <==> ScansSlot(scans, i)
    ensures LossIn(AfterScans(before, scans) + [NextStage], |before|, i) <==> ScansSlot(scans, i)
  {
    ScansLonger(before, scans);
    var steps := AfterScans(before, scans);
    if scans != [] {
      var n, c := |scans| - 1, scans[|scans| - 1];
      var init := scans[..n];
      var a := AfterScans(before, init);
      ScansLonger(before, init);
      ScansDetect(before, init, i);
      assert steps == a + ([LossDetected(c.slot, c.bypass)] + Bursts(c.sent) + [NextStage]);
      Detects(a, c, |before|, i);
      assert ScansSlot(scans, i) <==> ScansSlot(init, i) || c.slot == i by {
        assert c.slot == i ==> scans[n].slot == i;
        assert forall k | 0 <= k < n :: init[k] == scans[k];
      }
    }
    assert LossIn(steps + [NextStage], |before|, i) <==> LossIn(steps, |before|, i) by {
      assert forall k | 0 <= k < |steps| :: (steps + [NextStage])[k] == steps[k];
    }
  }

  lemma {:induction false} Detects(a: seq<Step>, c: Scan, from: nat, i: nat)
    requires from <= |a|
    ensures LossIn(AfterScan(a, c), from, i) <==> LossIn(a, from, i) || c.slot == i
  {
    var steps := AfterScan(a, c);
    assert steps[|a|] == LossDetected(c.slot, c.bypass);
    assert forall k | 0 <= k < |a| :: steps[k] == a[k];
    assert forall k | |a| < k < |steps| :: steps[k] == ClientBurst || steps[k] == NextStage;
  }

  lemma {:induction false} NoneDetected(before: seq<Step>, i: nat)
    ensures AfterScans(before, []) == before && !LossIn(before + [NextStage], |before|, i)
  {
  }

  /** A scan of these slots detects exactly the losses that are due. */
  lemma {:induction false} DueDetected(s: Client, q: seq<nat>, before: seq<Step>, scans: seq<Scan>, i: nat)
    requires ScansDue(s, q, scans) && i in q && i < |s.slots|
    ensures var lost := s.slots[i].numTx != s.slots[i].numRx && s.tsc - s.slots[i].progress > kRpcRto;
            && (LossIn(AfterScans(before, scans), |before|, i) <==> lost)
            && (LossIn(AfterScans(before, scans) + [NextStage], |before|, i) <==> lost)
  {
    hide AfterScans, LossIn;
    DueHas(s, q, i);
    ScansDetect(before, scans, i);
    if i in Due(s, q) {
      var k :| 0 <= k < |Due(s, q)| && Due(s, q)[k] == i;
      assert scans[k].slot == i;
    }
  }

  lemma {:induction false} AllDetected(s: Client, q: seq<nat>, before: seq<Step>, scans: seq<Scan>)
    requires ScansDue(s, q, scans)
    ensures forall i | i in q && i < |s.slots| ::
              LossIn(AfterScans(before, scans), |before|, i) <==>
              s.slots[i].numTx != s.slots[i].numRx && s.tsc - s.slots[i].progress > kRpcRto
  {
    hide AfterScans, LossIn, ScansDue;
    forall i | i in q && i < |s.slots|
      ensures LossIn(AfterScans(before, scans), |before|, i) <==>
              s.slots[i].numTx != s.slots[i].numRx && s.tsc - s.slots[i].progress > kRpcRto
    {
      DueDetected(s, q, before, scans, i);
    }
  }

  // What the scan sends

  lemma {:induction false} RunSplit(w: World, a: seq<Step>, b: seq<Step>, m: World) returns (n: World)
    requires Run(w, a + b, m)
    ensures Run(w, a, n) && Run(n, b, m)
    decreases |a|
  {
    hide Session.Next, Session.Enabled;
    if a == [] {
      assert a + b == b;
      n := w;
    } else {
      TailOfAppend(a, b);
      n := RunSplit(Next(w, a[0]), a[1..], b, m);
    }
  }

  lemma {:induction false} RunSame(w: World, a: seq<Step>, m: World, n: World)
    requires Run(w, a, m) && Run(w, a, n)
    ensures m == n
    decreases |a|
  {
    hide Session.Next, Session.Enabled;
    if a != [] { RunSame(Next(w, a[0]), a[1..], m, n); }
  }

  /** Sending items of the TX batch takes them off its front and leaves the slots alone. */
  lemma {:induction false} BurstsRun(w: World, k: nat, m: World)
    requires Run(w, Bursts(k), m)
    ensures k <= |w.c.batch| && m.c == w.c.(batch := w.c.batch[k..])
    decreases k
  {
    if k == 0 {
      assert Bursts(0) == [];
    } else {
      assert Bursts(k)[0] == ClientBurst && Bursts(k)[1..] == Bursts(k - 1);
      BurstsRun(Next(w, ClientBurst), k - 1, m);
    }
  }

  /** The steps of one scan, one by one. */
  lemma {:induction false} ScanRuns(w: World, c: Scan, m: World) returns (n: World)
    requires Run(w, [LossDetected(c.slot, c.bypass)] + Bursts(c.sent) + [NextStage], m)
    ensures SizedWorld(w) && Enabled(w, LossDetected(c.slot, c.bypass))
    ensures n == Next(w, LossDetected(c.slot, c.bypass)) && c.sent == |n.c.batch| && m.c.slots == n.c.slots
    ensures Run(n, Bursts(c.sent) + [NextStage], m)
  {
    hide Datapath.Retransmit;
    var loss := LossDetected(c.slot, c.bypass);
    var rest := Bursts(c.sent) + [NextStage];
    assert [loss] + Bursts(c.sent) + [NextStage] == [loss] + rest && ([loss] + rest)[1..] == rest;
    n := Next(w, loss);
    var n1 := RunSplit(n, Bursts(c.sent), [NextStage], m);
    BurstsRun(n, c.sent, n1);
    assert [NextStage][1..] == [];
    RetransmitStage(w.c, c.slot, c.bypass);
  }

  lemma {:induction false} RetransmitStage(s: Client, i: nat, bypass: bool)
    requires WellSized(s) && i < |s.slots|
    ensures Retransmit(s, i, bypass).stage == Flush
    ensures |Retransmit(s, i, bypass).slots| == |s.slots|
    ensures forall k | 0 <= k < |s.slots| && k != i :: Retransmit(s, i, bypass).slots[k] == s.slots[k]
  {
  }

  /** Scans of other slots leave a slot alone. */
  lemma {:induction false} SlotKept(w: World, before: seq<Step>, at: World, scans: seq<Scan>, m: World, i: nat)
    requires Led(w, before, at) && Run(w, AfterScans(before, scans), m) && i < kSessionReqWindow
    requires !ScansSlot(scans, i)
    ensures Led(w, AfterScans(before, scans), m) && m.c.slots[i] == at.c.slots[i]
  {
    hide SessionInvariant.SessionInv, Session.Run, Session.Next, Session.Enabled, AfterScan;
    if scans == [] {
      RunSame(w, before, m, at);
    } else {
      var c, init := scans[|scans| - 1], scans[..|scans| - 1];
      var a := AfterScans(before, init);
      AfterScanIs(a, c);
      var n := RunSplit(w, a, [LossDetected(c.slot, c.bypass)] + Bursts(c.sent) + [NextStage], m);
      NotScanned(scans, i);
      SlotKept(w, before, at, init, n, i);
      var n1 := ScanRuns(n, c, m);
      LossKeeps(n, c, i);
      RunOk(n, [LossDetected(c.slot, c.bypass)] + Bursts(c.sent) + [NextStage], m);
      SizedAfter(m);
    }
  }

  lemma {:induction false} SizedAfter(m: World)
    requires SessionInv(m)
    ensures SizedWorld(m)
  {
  }

  lemma {:induction false} NotScanned(scans: seq<Scan>, i: nat)
    requires scans != [] && !ScansSlot(scans, i)
    ensures !ScansSlot(scans[..|scans| - 1], i) && scans[|scans| - 1].slot != i
  {
    var init := scans[..|scans| - 1];
    assert forall k | 0 <= k < |init| :: init[k] == scans[k];
  }

  lemma {:induction false} LossKeeps(w: World, c: Scan, i: nat)
    requires SizedWorld(w) && Enabled(w, LossDetected(c.slot, c.bypass)) && i < kSessionReqWindow && i != c.slot
    ensures Next(w, LossDetected(c.slot, c.bypass)).c.slots[i] == w.c.slots[i]
  {
    hide Datapath.Retransmit;
    RetransmitStage(w.c, c.slot, c.bypass);
  }

  lemma {:induction false} AfterScanIs(a: seq<Step>, c: Scan)
    ensures AfterScan(a, c) == a + ([LossDetected(c.slot, c.bypass)] + Bursts(c.sent) + [NextStage])
  {
  }

  /** The first unacknowledged packet of a slot's request. */
  function FirstUnacked(c: ClientSlot): Pkt
    requires c.tx.Some?
  {
    if c.numRx < ReqPkts(c.tx.value) then ReqPkt(c.cur, c.tx.value, c.numRx) else RFR(c.cur, c.numRx)
  }

  /** At one of the steps from `from` on, the slot's first unacknowledged packet goes on the wire or is in the wheel. */
  ghost predicate SentAgain(w: World, steps: seq<Step>, from: nat, c: ClientSlot, i: nat) {
    c.tx.Some? && exists k, n :: from <= k < |steps| && Run(w, steps[..k], n) && OnItsWay(n, steps[k], c, i)
  }

  predicate OnItsWay(n: World, step: Step, c: ClientSlot, i: nat)
    requires c.tx.Some?
  {
    Tagged(i, c.numRx) in n.c.wheel ||
    (step == ClientBurst && n.c.batch != [] && ClientEmit(n.c, n.c.batch[0]) == {FirstUnacked(c)})
  }

  /** A turn of the event loop sends the first unacknowledged packet again of every request whose loss its scan detects
      and which has nothing in the wheel. `at` is the world that the scan finds. */
  lemma {:induction false} ScanResends(w: World, before: seq<Step>, at: World, scans: seq<Scan>, m: World, i: nat)
    requires Led(w, before, at) && Run(w, AfterScans(before, scans) + [NextStage], m)
    requires LossIn(AfterScans(before, scans) + [NextStage], |before|, i) && i < kSessionReqWindow
    requires at.c.slots[i].wheelCount == 0
    ensures SentAgain(w, AfterScans(before, scans) + [NextStage], |before|, at.c.slots[i], i)
  {
    hide SessionInvariant.SessionInv, Session.Run, Session.Next, Session.Enabled, LossIn, AfterScans, SentAgain;
    ScansDetect(before, scans, i);
    var j := FirstScan(scans, i);
    var a, rest := AfterScans(before, scans[..j]), ScanTail(before, scans, j);
    var steps := AfterScans(before, scans) + [NextStage];
    ScansLonger(before, scans[..j]);
    var c := scans[j];
    var one := [LossDetected(c.slot, c.bypass)] + Bursts(c.sent) + [NextStage];
    assert steps == a + (one + (rest + [NextStage]));
    var n := RunSplit(w, a, one + (rest + [NextStage]), m);
    var m1 := RunSplit(n, one, rest + [NextStage], m);
    SlotKept(w, before, at, scans[..j], n, i);
    LossSends(w, a, n, c, m1, at.c.slots[i]);
    SentEarlier(w, a + one, rest + [NextStage], |a|, |before|, at.c.slots[i], i);
    assert (a + one) + (rest + [NextStage]) == steps;
  }

  /** What follows scan `j`. */
  function ScanTail(before: seq<Step>, scans: seq<Scan>, j: nat): (rest: seq<Step>)
    requires j < |scans|
    ensures AfterScans(before, scans) ==
            AfterScans(before, scans[..j]) +
            (([LossDetected(scans[j].slot, scans[j].bypass)] + Bursts(scans[j].sent) + [NextStage]) + rest)
    decreases |scans|
  {
    var n, c := |scans| - 1, scans[|scans| - 1];
    var init := scans[..n];
    if j == n then
      assert AfterScans(before, scans) == AfterScan(AfterScans(before, init), c);
      []
    else
      assert init[..j] == scans[..j];
      ScanTail(before, init, j) + ([LossDetected(c.slot, c.bypass)] + Bursts(c.sent) + [NextStage])
  }

  lemma {:induction false} FirstScan(scans: seq<Scan>, i: nat) returns (j: nat)
    requires ScansSlot(scans, i)
    ensures j < |scans| && scans[j].slot == i && !ScansSlot(scans[..j], i)
  {
    j := 0;
    while scans[j].slot != i
      invariant j < |scans| && (exists k :: j <= k < |scans| && scans[k].slot == i)
      invariant forall k | 0 <= k < j :: scans[k].slot != i
      decreases |scans| - j
    {
      j := j + 1;
    }
  }

  lemma {:induction false} SentEarlier(w: World, a: seq<Step>, b: seq<Step>, from: nat, from': nat, c: ClientSlot,
                                       i: nat)
    requires SentAgain(w, a, from, c, i) && from' <= from
    ensures SentAgain(w, a + b, from', c, i)
  {
    hide Session.Run, OnItsWay;
    var k, n :| from <= k < |a| && Run(w, a[..k], n) && OnItsWay(n, a[k], c, i);
    assert (a + b)[..k] == a[..k] && (a + b)[k] == a[k];
  }

  lemma {:induction false} LossSends(w: World, a: seq<Step>, n: World, c: Scan, m: World, slot: ClientSlot)
    requires Led(w, a, n) && Run(n, [LossDetected(c.slot, c.bypass)] + Bursts(c.sent) + [NextStage], m)
    requires c.slot < kSessionReqWindow && n.c.slots[c.slot] == slot && slot.wheelCount == 0
    ensures SentAgain(w, a + ([LossDetected(c.slot, c.bypass)] + Bursts(c.sent) + [NextStage]), |a|, slot, c.slot)
  {
    hide SessionInvariant.SessionInv, Session.Run, Session.Next, Session.Enabled, Theorems.Resent;
    var i, loss := c.slot, LossDetected(c.slot, c.bypass);
    var n1 := ScanRuns(n, c, m);
    Theorems.Resends(n, i, c.bypass);
    RunStep(w, a, n, loss);
    var one := [loss] + Bursts(c.sent) + [NextStage];
    var k := ResentItem(n, i, c.bypass);
    if k.None? {
      assert (a + one)[..|a| + 1] == a + [loss];
      assert OnItsWay(n1, (a + one)[|a| + 1], slot, i);
    } else {
      assert Bursts(c.sent) + [NextStage] == Bursts(k.value) + (Bursts(c.sent - k.value) + [NextStage]);
      var n2 := RunSplit(n1, Bursts(k.value), Bursts(c.sent - k.value) + [NextStage], m);
      BurstsRun(n1, k.value, n2);
      RunConcat(w, a + [loss], n1, Bursts(k.value), n2);
      assert (a + one)[..|a| + 1 + k.value] == a + [loss] + Bursts(k.value);
      assert (a + one)[|a| + 1 + k.value] == ClientBurst;
      assert OnItsWay(n2, ClientBurst, slot, i);
    }
  }

  /** Where a retransmission put the first unacknowledged packet: at a place of the TX batch, or in the wheel. */
  lemma {:induction false} ResentItem(w: World, i: nat, bypass: bool) returns (k: Option<nat>)
    requires SizedWorld(w) && SessionInv(w) && Enabled(w, LossDetected(i, bypass)) && Theorems.Resent(w, i, bypass)
    ensures w.c.slots[i].tx.Some?
    ensures var n, c := Next(w, LossDetected(i, bypass)).c, w.c.slots[i];
            if k.None? then Tagged(i, c.numRx) in n.wheel
            else k.value < |n.batch| && ClientEmit(n, n.batch[k.value]) == {FirstUnacked(c)}
  {
    hide SessionInvariant.SessionInv;
    var n, c := Next(w, LossDetected(i, bypass)).c, w.c.slots[i];
    SameRequest(w.c, i, bypass);
    k := None;
    if c.numRx < ReqPkts(c.tx.value) {
      if bypass {
        var y :| 0 <= y < |n.batch| && n.batch[y] == Tagged(i, ReqRef(c.numRx));
        k := Some(y);
      }
    } else {
      var y :| 0 <= y < |n.batch| && n.batch[y] == Tagged(i, Ctl(RFR(c.cur, c.numRx)));
      k := Some(y);
    }
  }

  lemma {:induction false} SameRequest(s: Client, i: nat, bypass: bool)
    requires WellSized(s) && i < |s.slots|
    ensures var c, d := s.slots[i], Retransmit(s, i, bypass).slots[i]; d.cur == c.cur && d.tx == c.tx
  {
  }
}
