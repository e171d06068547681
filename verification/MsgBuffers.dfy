/** Message buffers: where headers and data lie in an allocated buffer, and which sizes fit. */
module MsgBuffers {
  import opened Options
  import opened Arith
  import Messages
  import opened SizeClasses
  import opened HugeAlloc

  const hdrWords: Messages.pos                      // sizeof(pkthdr_t) in 8-byte words
  const hdrSize: nat := 8 * hdrWords

  datatype MsgBuffer = MsgBuffer(
    buffer: Buffer,
    maxDataSize: nat,
    dataSize: nat,
    maxNumPkts: nat,
    numPkts: nat,
    buf: nat)

  /** `round_up` to a multiple of 8. */
  function RoundUp8(x: nat): nat { (x + 7) / 8 * 8 }

  /** `get_pkthdr_n` */
  function HdrAddr(m: MsgBuffer, n: nat): int {
    if n == 0 then m.buf - hdrSize else m.buf + RoundUp8(m.maxDataSize) + (n - 1) * hdrSize
  }

  /** `get_pkt_size` */
  function PktSize(m: MsgBuffer, k: nat): int {
    hdrSize + Min(Messages.kMaxDataPerPkt, m.dataSize - k * Messages.kMaxDataPerPkt)
  }

  /** What the constructor of a dynamic message buffer asserts and sets up. */
  predicate Built(m: MsgBuffer) {
    && m.maxNumPkts >= 1 && m.buf == m.buffer.buf + hdrSize
    && m.buffer.classSize >= m.maxDataSize + m.maxNumPkts * hdrSize
    && m.buffer.classSize % MIN_CLASS_SIZE == 0
  }

  lemma {:induction false} ClassIsMultiple(c: nat)
    ensures ClassMaxSize(c) % MIN_CLASS_SIZE == 0
  {
  }

  /** Rounding the data area up to whole words never runs out of the class. */
  lemma {:induction false} RoundedFits(c: nat, d: nat, n: nat)
    requires c % 8 == 0 && d + 8 * n <= c
    ensures d <= RoundUp8(d) && RoundUp8(d) + 8 * n <= c
  {
  }

  /** Header `n` lies inside the buffer, beside the data area. */
  lemma {:induction false} HeaderFits(m: MsgBuffer, n: nat)
    requires Built(m) && n < m.maxNumPkts
    ensures m.buffer.buf <= HdrAddr(m, n) && HdrAddr(m, n) + hdrSize <= m.buffer.buf + m.buffer.classSize
    ensures HdrAddr(m, n) + hdrSize <= m.buf || m.buf + m.maxDataSize <= HdrAddr(m, n)
  {
    hide RoundUp8;
    var k := m.maxNumPkts;
    MulAtLeast(hdrSize, k);
    Words(k);
    WholeWords(m.buffer.classSize);
    RoundedFits(m.buffer.classSize, m.maxDataSize, k * hdrWords);
    if n > 0 {
      MulMono(n - 1, k - 2, hdrSize);
      assert (k - 2) * hdrSize == k * hdrSize - 2 * hdrSize;
      MulMono(0, n - 1, hdrSize);
    }
  }

  lemma {:induction false} WholeWords(c: nat)
    requires c % MIN_CLASS_SIZE == 0
    ensures c % 8 == 0
  {
  }

  lemma {:induction false} Words(k: nat)
    ensures k * hdrSize == 8 * (k * hdrWords)
  {
  }

  /** Headers start on whole words of the buffer. */
  lemma {:induction false} HeaderAligned(m: MsgBuffer, n: nat)
    requires Built(m)
    ensures (HdrAddr(m, n) - m.buffer.buf) % 8 == 0
  {
    if n > 0 { Words(n - 1); }
  }

  /** Headers do not overlap. */
  lemma {:induction false} HeadersApart(m: MsgBuffer, j: nat, n: nat)
    requires Built(m) && j < n < m.maxNumPkts
    ensures HdrAddr(m, j) + hdrSize <= HdrAddr(m, n)
  {
    HeaderFits(m, n);
    if j == 0 {
      MulMono(0, n - 1, hdrSize);
    } else {
      MulMono(j, n - 1, hdrSize);
      assert j * hdrSize == (j - 1) * hdrSize + hdrSize;
    }
  }

  /** A message's packets carry its data exactly once. */
  function DataIn(m: MsgBuffer, k: nat): int {
    if k == 0 then 0 else DataIn(m, k - 1) + PktSize(m, k - 1) - hdrSize
  }

  lemma {:induction false} PktsCarryData(m: MsgBuffer, k: nat)
    requires m.numPkts == Messages.NumPkts(m.dataSize) && k <= m.numPkts
    ensures DataIn(m, k) == Messages.Covered(k, m.dataSize)
    ensures k == m.numPkts ==> DataIn(m, k) == m.dataSize
  {
    Messages.CoveredBounds(k, m.dataSize);
    if k > 0 {
      PktsCarryData(m, k - 1);
      Messages.CoveredBounds(k - 1, m.dataSize);
    }
  }

  /** `resize` within what was allocated keeps the layout. */
  function Resize(m: MsgBuffer, size: nat): (r: MsgBuffer)
    requires Built(m) && size <= m.maxDataSize && Messages.NumPkts(size) <= m.maxNumPkts
    ensures Built(r) && r.numPkts == Messages.NumPkts(r.dataSize) && r.dataSize == size
    ensures r.buffer == m.buffer && r.maxDataSize == m.maxDataSize && r.maxNumPkts == m.maxNumPkts
    ensures forall n :: HdrAddr(r, n) == HdrAddr(m, n)
  {
    m.(dataSize := size, numPkts := Messages.NumPkts(size))
  }

  /** A smaller message never needs more packets, so every smaller size can be resized to. */
  lemma {:induction false} FewerPkts(a: nat, b: nat)
    requires a <= b
    ensures Messages.NumPkts(a) <= Messages.NumPkts(b)
  {
    Messages.NumPktsCover(b);
    var d, n: nat := Messages.kMaxDataPerPkt, Messages.NumPkts(a);
    if n > Messages.NumPkts(b) {
      Messages.NumPktsBounds(a);
      MulMono(Messages.NumPkts(b), n - 1, d);
    }
  }

  // Which sizes can be allocated

  const maxPkts: nat := MAX_CLASS_SIZE / Messages.kMaxDataPerPkt

  /** kMaxMsgSize */
  const maxMsgSize: int := MAX_CLASS_SIZE - maxPkts * hdrSize

  /** The request that `alloc_msg_buffer` makes for this much data. */
  function Request(size: nat): nat { size + Messages.NumPkts(size) * hdrSize }

  ghost predicate EveryMessageFits() {
    forall size: nat :: 1 <= size <= maxMsgSize ==> Request(size) <= MAX_CLASS_SIZE
  }

  /** Every message up to kMaxMsgSize fits the largest class exactly when its packets are no more than those counted
      for the headers. */
  lemma {:induction false} MaxMessageFits()
    requires maxMsgSize >= 1
    ensures EveryMessageFits() <==> maxMsgSize <= maxPkts * Messages.kMaxDataPerPkt
  {
    hide Request;
    if maxMsgSize <= maxPkts * Messages.kMaxDataPerPkt {
      forall size: nat | 1 <= size <= maxMsgSize ensures Request(size) <= MAX_CLASS_SIZE { MessageFits(size); }
    } else {
      LargestDoesNot();
    }
  }

  lemma {:induction false} MessageFits(size: nat)
    requires 1 <= size <= maxMsgSize <= maxPkts * Messages.kMaxDataPerPkt
    ensures Request(size) <= MAX_CLASS_SIZE
  {
    hide Messages.NumPkts;
    PktsWithin(size, maxPkts);
    MulMono(Messages.NumPkts(size), maxPkts, hdrSize);
  }

  lemma {:induction false} LargestDoesNot()
    requires maxMsgSize >= 1 && maxMsgSize > maxPkts * Messages.kMaxDataPerPkt
    ensures Request(maxMsgSize) > MAX_CLASS_SIZE
  {
    hide Messages.NumPkts;
    PktsBeyond(maxMsgSize, maxPkts);
    MulMono(maxPkts + 1, Messages.NumPkts(maxMsgSize), hdrSize);
    assert (maxPkts + 1) * hdrSize == maxPkts * hdrSize + hdrSize;
  }

  lemma {:induction false} PktsWithin(size: nat, n: nat)
    requires 1 <= size <= n * Messages.kMaxDataPerPkt
    ensures Messages.NumPkts(size) <= n
  {
    var d: nat := Messages.kMaxDataPerPkt;
    assert n == 0 ==> n * d == 0;
    if Messages.NumPkts(size) > n {
      Messages.NumPktsBounds(size);
      MulMono(n, Messages.NumPkts(size) - 1, d);
    }
  }

  lemma {:induction false} PktsBeyond(size: nat, n: nat)
    requires size > n * Messages.kMaxDataPerPkt
    ensures Messages.NumPkts(size) >= n + 1
  {
    Messages.NumPktsCover(size);
    if Messages.NumPkts(size) <= n { MulMono(Messages.NumPkts(size), n, Messages.kMaxDataPerPkt); }
  }

  /** No check keeps a larger message from being allocated, and it can be exactly when the next larger one can. */
  lemma {:induction false} LargerAllocates()
    requires maxMsgSize >= 0
    ensures (exists size: nat :: size > maxMsgSize && Request(size) <= MAX_CLASS_SIZE)
            <==> Request(maxMsgSize + 1) <= MAX_CLASS_SIZE
  {
    if size: nat :| size > maxMsgSize && Request(size) <= MAX_CLASS_SIZE {
      FewerPkts(maxMsgSize + 1, size);
      MulMono(Messages.NumPkts(maxMsgSize + 1), Messages.NumPkts(size), hdrSize);
    }
  }

  /** With headers of 56 bytes and packets of 1024 bytes it can. */
  lemma {:induction false} OneTooLarge()
    requires hdrWords == 7 && Messages.kMaxDataPerPkt == 968
    ensures maxMsgSize == 7903368 && Request(maxMsgSize + 1) <= MAX_CLASS_SIZE
  {
    assert Messages.NumPkts(7903369) == 8165;
  }

  /** `alloc_msg_buffer` */
  method AllocMsgBuffer(a: Allocator, size: nat, raw: Option<(nat, nat)>) returns (r: Option<MsgBuffer>)
    requires a.Valid() && size >= 1 && Request(size) <= MAX_CLASS_SIZE
    requires FreshRegion(a.blocks, a.prevAllocationSize * 2, raw)
    modifies a
    ensures a.Valid()
    ensures r.None? <==>
              raw.None? && forall c :: GetClass(Request(size)) <= c < NUM_CLASSES ==> old(a.freelist)[c] == []
    ensures r.None? ==> a.out == old(a.out) && a.freelist == old(a.freelist) && a.blocks == old(a.blocks)
                        && a.prevAllocationSize == old(a.prevAllocationSize)
    ensures r.Some? ==> Built(r.value) && a.out == old(a.out) + [r.value.buffer]
    ensures r.Some? ==> r.value.dataSize == r.value.maxDataSize == size
                        && r.value.numPkts == r.value.maxNumPkts == Messages.NumPkts(size)
  {
    var maxNumPkts := Messages.NumPkts(size);
    var b := a.Alloc(size + maxNumPkts * hdrSize, raw);
    if b.None? { return None; }
    ClassIsMultiple(GetClass(Request(size)));
    return Some(MsgBuffer(b.value, size, size, maxNumPkts, maxNumPkts, b.value.buf + hdrSize));
  }
}
