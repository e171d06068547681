/**
 * Protocol constants, packets, and the split of a message into packets.
 */
module Messages {
  import opened Arith

  type pos = n: nat | 1 <= n witness 1

  // The compile-time constants of the source stay symbolic: every result holds
  // for every positive value of them.
  const kSessionCredits: pos    // Packets a session may have outstanding
  const kSessionReqWindow: pos  // Slots per session
  const kMaxDataPerPkt: pos     // Data bytes per packet

  newtype byte = b: int | 0 <= b < 256

  type Bytes = seq<byte>

  /** Header and payload of one packet on the wire. */
  datatype Pkt =
    | Req(num: nat, pkt: nat, typ: nat, size: nat, data: Bytes)
    | CR(num: nat, pkt: nat)
    | RFR(num: nat, pkt: nat)
    | Resp(num: nat, pkt: nat, size: nat, data: Bytes)

  /** The slot of request `num`: `num % kSessionReqWindow`, by repeated subtraction. */
  function SlotOf(num: nat): (i: nat)
    ensures i < kSessionReqWindow
  {
    if num < kSessionReqWindow then num else SlotOf(num - kSessionReqWindow)
  }

  lemma {:induction false} SlotOfIsMod(num: nat)
    ensures SlotOf(num) == num % kSessionReqWindow
  {
    if num < kSessionReqWindow {
      DivModUnique(num, kSessionReqWindow, 0, num);
    } else {
      SlotOfIsMod(num - kSessionReqWindow);
      AddModulus(num - kSessionReqWindow, kSessionReqWindow);
    }
  }

  /** The index of packet `p` in per-credit arrays: `p % kSessionCredits`, by repeated subtraction. */
  function CreditIdx(p: nat): (f: nat)
    ensures f < kSessionCredits
  {
    if p < kSessionCredits then p else CreditIdx(p - kSessionCredits)
  }

  lemma {:induction false} CreditIdxIsMod(p: nat)
    ensures CreditIdx(p) == p % kSessionCredits
  {
    if p < kSessionCredits {
      DivModUnique(p, kSessionCredits, 0, p);
    } else {
      CreditIdxIsMod(p - kSessionCredits);
      AddModulus(p - kSessionCredits, kSessionCredits);
    }
  }

  /** Packets less than a full credit window apart have distinct indices. */
  lemma {:induction false} CreditIdxDistinct(x: nat, y: nat)
    requires x != y && x < y + kSessionCredits && y < x + kSessionCredits
    ensures CreditIdx(x) != CreditIdx(y)
  {
    CreditIdxIsMod(x);
    CreditIdxIsMod(y);
    if x < y { DistinctRemainders(x, y, kSessionCredits); } else { DistinctRemainders(y, x, kSessionCredits); }
  }

  function NumPkts(size: nat): (n: nat)
    ensures n >= 1
    ensures n == 1 <==> size <= kMaxDataPerPkt
  {
    if size <= kMaxDataPerPkt then 1
    else
      NumPktsBounds(size);
      (size + kMaxDataPerPkt - 1) / kMaxDataPerPkt
  }

  /** Bytes covered by the first `k` packets of a message of `size` bytes. */
  function Covered(k: nat, size: nat): (c: nat)
    ensures c <= size
  {
    if k == 0 then 0 else Min(size, Covered(k - 1, size) + kMaxDataPerPkt)
  }

  /** The payload of packet `k` of a message. */
  function Chunk(data: Bytes, k: nat): Bytes {
    CoveredMono(k, |data|);
    data[Covered(k, |data|)..Covered(k + 1, |data|)]
  }

  /** Write `data` into `buf` at byte `off`; a write past the end is not performed. */
  function WriteAt(buf: Bytes, off: nat, data: Bytes): (r: Bytes)
    ensures |r| == |buf|
  {
    if off + |data| <= |buf| then buf[..off] + data + buf[off + |data|..] else buf
  }

  /** `copy_data_to_msgbuf`: place a packet's payload at its packet index. */
  function CopyData(buf: Bytes, k: nat, size: nat, data: Bytes): (r: Bytes)
    ensures |r| == |buf|
  {
    var off := k * kMaxDataPerPkt;
    var toCopy := Min(kMaxDataPerPkt, size - off);
    if 0 <= toCopy <= |data| then WriteAt(buf, off, data[..toCopy]) else buf
  }

  lemma {:induction false} NumPktsBounds(size: nat)
    requires size > kMaxDataPerPkt
    ensures (size + kMaxDataPerPkt - 1) / kMaxDataPerPkt >= 2
    ensures var n := (size + kMaxDataPerPkt - 1) / kMaxDataPerPkt;
            (n - 1) * kMaxDataPerPkt < size <= n * kMaxDataPerPkt
  {
    var d: int := kMaxDataPerPkt;
    var n, m := (size + d - 1) / d, (size + d - 1) % d;
    assert size + d - 1 == d * n + m;
    assert (n - 1) * d == n * d - d;
    if n < 2 && n != 1 {
      MulAtLeast(d, 1 - n);
    }
  }

  lemma {:induction false} CoveredMono(k: nat, size: nat)
    ensures Covered(k, size) <= Covered(k + 1, size)
  {
  }

  lemma {:induction false} CoveredIsProduct(k: nat, size: nat)
    ensures Covered(k, size) == Min(size, k * kMaxDataPerPkt)
  {
    if k > 0 {
      CoveredIsProduct(k - 1, size);
      assert k * kMaxDataPerPkt == (k - 1) * kMaxDataPerPkt + kMaxDataPerPkt;
    }
  }

  lemma {:induction false} NumPktsCover(size: nat)
    ensures (NumPkts(size) - 1) * kMaxDataPerPkt <= size <= NumPkts(size) * kMaxDataPerPkt
    ensures size > 0 ==> (NumPkts(size) - 1) * kMaxDataPerPkt < size
  {
    if size > kMaxDataPerPkt { NumPktsBounds(size); }
  }

  /** Packets 0..NumPkts-1 cover the message exactly: packet k starts inside it. */
  lemma {:induction false} CoveredBounds(k: nat, size: nat)
    ensures Covered(0, size) == 0
    ensures Covered(NumPkts(size), size) == size
    ensures k < NumPkts(size) ==> Covered(k, size) == k * kMaxDataPerPkt
    ensures k < NumPkts(size) ==>
              Covered(k + 1, size) == k * kMaxDataPerPkt + Min(kMaxDataPerPkt, size - k * kMaxDataPerPkt)
  {
    var d: int := kMaxDataPerPkt;
    var n: int := NumPkts(size);
    NumPktsCover(size);
    CoveredIsProduct(k, size);
    CoveredIsProduct(n, size);
    if k < n { MulMono(k, n - 1, d); }
  }

  /** A buffer holds the first `k` packets of `data`. */
  ghost predicate Holds(buf: Bytes, data: Bytes, k: nat) {
    && |data| <= |buf|
    && buf[..Covered(k, |data|)] == data[..Covered(k, |data|)]
  }

  /** Copying packet k after packets 0..k-1 yields packets 0..k. */
  lemma {:induction false} HoldsStep(buf: Bytes, data: Bytes, k: nat)
    requires Holds(buf, data, k) && k < NumPkts(|data|)
    ensures Holds(CopyData(buf, k, |data|, Chunk(data, k)), data, k + 1)
  {
    CoveredBounds(k, |data|);
    CoveredMono(k, |data|);
    var lo, hi := Covered(k, |data|), Covered(k + 1, |data|);
    var c := Chunk(data, k);
    assert c[..hi - lo] == c;
    var r := CopyData(buf, k, |data|, c);
    assert r == buf[..lo] + c + buf[hi..];
    assert r[..hi] == buf[..lo] + c;
    assert data[..hi] == data[..lo] + c;
  }

  lemma {:induction false} HoldsAll(buf: Bytes, data: Bytes)
    requires Holds(buf, data, NumPkts(|data|))
    ensures buf[..|data|] == data
  {
    CoveredBounds(0, |data|);
    assert data[..|data|] == data;
  }

  lemma {:induction false} HoldsNone(buf: Bytes, data: Bytes)
    requires |data| <= |buf|
    ensures Holds(buf, data, 0)
  {
    CoveredBounds(0, |data|);
  }
}
