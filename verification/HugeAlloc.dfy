/**
 * The hugepage allocator: over any run of allocations and frees, free and
 * outstanding buffers tile the reserved blocks.
 */
module HugeAlloc {
  import opened Options
  import opened Arith
  import opened SizeClasses

  datatype Buffer = Buffer(buf: nat, classSize: nat, lkey: nat)

  // Which buffers hold an address

  function Holds(b: Buffer, x: nat): nat {
    if b.buf <= x < b.buf + b.classSize then 1 else 0
  }

  /** How many of the buffers hold address `x`. */
  function Count(bs: seq<Buffer>, x: nat): nat {
    if bs == [] then 0 else Count(bs[..|bs| - 1], x) + Holds(bs[|bs| - 1], x)
  }

  function CountAll(lists: seq<seq<Buffer>>, x: nat): nat {
    if lists == [] then 0 else CountAll(lists[..|lists| - 1], x) + Count(lists[|lists| - 1], x)
  }

  lemma {:induction false} CountPush(bs: seq<Buffer>, b: Buffer, x: nat)
    ensures Count(bs + [b], x) == Count(bs, x) + Holds(b, x)
  {
    assert (bs + [b])[..|bs|] == bs;
  }

  lemma {:induction false} CountRemove(bs: seq<Buffer>, k: nat, x: nat)
    requires k < |bs|
    ensures Count(bs[..k] + bs[k + 1..], x) == Count(bs, x) - Holds(bs[k], x)
    decreases |bs|
  {
    var n := |bs| - 1;
    if k == n {
      assert bs[..k] + bs[k + 1..] == bs[..n];
    } else {
      CountRemove(bs[..n], k, x);
      assert (bs[..k] + bs[k + 1..])[..n - 1] == bs[..n][..k] + bs[..n][k + 1..];
    }
  }

  lemma {:induction false} CountUpdate(lists: seq<seq<Buffer>>, c: nat, bs: seq<Buffer>, x: nat)
    requires c < |lists|
    ensures CountAll(lists[c := bs], x) == CountAll(lists, x) - Count(lists[c], x) + Count(bs, x)
    decreases |lists|
  {
    var n := |lists| - 1;
    if c < n {
      CountUpdate(lists[..n], c, bs, x);
      assert lists[c := bs][..n] == lists[..n][c := bs];
    } else {
      assert lists[c := bs][..n] == lists[..n];
    }
  }

  lemma {:induction false} CountAtLeast(bs: seq<Buffer>, k: nat, x: nat)
    requires k < |bs|
    ensures Count(bs, x) >= Holds(bs[k], x)
    decreases |bs|
  {
    if k < |bs| - 1 { CountAtLeast(bs[..|bs| - 1], k, x); }
  }

  lemma {:induction false} CountTwo(bs: seq<Buffer>, j: nat, k: nat, x: nat)
    requires j < k < |bs|
    ensures Count(bs, x) >= Holds(bs[j], x) + Holds(bs[k], x)
    decreases |bs|
  {
    if k < |bs| - 1 { CountTwo(bs[..|bs| - 1], j, k, x); } else { CountAtLeast(bs[..k], j, x); }
  }

  function Total(bs: seq<Buffer>): nat {
    if bs == [] then 0 else Total(bs[..|bs| - 1]) + bs[|bs| - 1].classSize
  }

  lemma {:induction false} TotalPush(bs: seq<Buffer>, b: Buffer)
    ensures Total(bs + [b]) == Total(bs) + b.classSize
  {
    assert (bs + [b])[..|bs|] == bs;
  }

  lemma {:induction false} TotalRemove(bs: seq<Buffer>, k: nat)
    requires k < |bs|
    ensures Total(bs[..k] + bs[k + 1..]) == Total(bs) - bs[k].classSize
    decreases |bs|
  {
    var n := |bs| - 1;
    if k == n {
      assert bs[..k] + bs[k + 1..] == bs[..n];
    } else {
      TotalRemove(bs[..n], k);
      assert (bs[..k] + bs[k + 1..])[..n - 1] == bs[..n][..k] + bs[..n][k + 1..];
    }
  }

  // Buffers in blocks

  /** A buffer of class `c`: a part of a reserved block at a multiple of its own size. */
  predicate PartOf(b: Buffer, block: Buffer) {
    && b.classSize >= 1 && b.lkey == block.lkey
    && block.buf <= b.buf && b.buf + b.classSize <= block.buf + block.classSize
    && (b.buf - block.buf) % b.classSize == 0
  }

  ghost predicate Placed(b: Buffer, c: nat, blocks: seq<Buffer>) {
    b.classSize == ClassMaxSize(c) && exists k :: 0 <= k < |blocks| && PartOf(b, blocks[k])
  }

  ghost predicate AllPlaced(bs: seq<Buffer>, c: nat, blocks: seq<Buffer>) {
    forall j :: 0 <= j < |bs| ==> Placed(bs[j], c, blocks)
  }

  ghost predicate OutPlaced(out: seq<Buffer>, blocks: seq<Buffer>) {
    forall j :: 0 <= j < |out| ==>
      out[j].classSize >= 1 && GetClass(out[j].classSize) < NUM_CLASSES
      && Placed(out[j], GetClass(out[j].classSize), blocks)
  }

  function LeftHalf(b: Buffer): Buffer { b.(classSize := b.classSize / 2) }

  function RightHalf(b: Buffer): Buffer { b.(buf := b.buf + b.classSize / 2, classSize := b.classSize / 2) }

  /** The halves of a buffer are placed and share its addresses out between them. */
  lemma {:induction false} HalvesOk(b: Buffer, c: nat, blocks: seq<Buffer>)
    requires c >= 1 && Placed(b, c, blocks)
    ensures Placed(LeftHalf(b), c - 1, blocks) && Placed(RightHalf(b), c - 1, blocks)
    ensures forall x: nat :: Holds(b, x) == Holds(LeftHalf(b), x) + Holds(RightHalf(b), x)
  {
    var h := ClassMaxSize(c - 1);
    assert b.classSize == 2 * h;
    var k :| 0 <= k < |blocks| && PartOf(b, blocks[k]);
    HalfMultiple(b.buf - blocks[k].buf, h);
    assert PartOf(LeftHalf(b), blocks[k]) && PartOf(RightHalf(b), blocks[k]);
  }

  lemma {:induction false} HalfMultiple(o: nat, h: nat)
    requires h >= 1 && o % (2 * h) == 0
    ensures o % h == 0 && (o + h) % h == 0
  {
    var q := o / (2 * h);
    assert o == (2 * h) * q;
    assert (2 * h) * q == h * (2 * q);
    DivModUnique(o, h, 2 * q, 0);
    AddModulus(o, h);
  }

  lemma {:induction false} MorePlaced(b: Buffer, c: nat, blocks: seq<Buffer>, block: Buffer)
    requires Placed(b, c, blocks)
    ensures Placed(b, c, blocks + [block])
  {
    var k :| 0 <= k < |blocks| && PartOf(b, blocks[k]);
    assert (blocks + [block])[k] == blocks[k];
  }

  /** Every address of a reserved block is in exactly one free or outstanding buffer, and no other address in any. */
  ghost predicate Tiled(free: seq<seq<Buffer>>, out: seq<Buffer>, blocks: seq<Buffer>) {
    forall x: nat :: CountAll(free, x) + Count(out, x) == Count(blocks, x) <= 1
  }

  class Allocator {
    var freelist: seq<seq<Buffer>>
    var prevAllocationSize: nat
    var userAllocTot: nat
    ghost var out: seq<Buffer>            // Buffers the user holds
    ghost var blocks: seq<Buffer>         // Reserved blocks of the largest class

    ghost predicate Valid()
      reads this
    {
      && |freelist| == NUM_CLASSES && prevAllocationSize >= MAX_CLASS_SIZE
      && (forall c :: 0 <= c < NUM_CLASSES ==> AllPlaced(freelist[c], c, blocks))
      && OutPlaced(out, blocks)
      && Tiled(freelist, out, blocks)
      && userAllocTot == Total(out)
    }

    constructor (initialSize: nat)
      ensures Valid() && out == [] && blocks == []
    {
      prevAllocationSize := if initialSize < MAX_CLASS_SIZE then MAX_CLASS_SIZE else initialSize;
      freelist, userAllocTot, out, blocks := seq(NUM_CLASSES, _ => []), 0, [], [];
      new;
      forall x: nat ensures CountAll(freelist, x) == 0 { NoneCounted(freelist, x); }
    }

    /** `split` */
    method Split(c: nat)
      requires Valid() && 1 <= c < NUM_CLASSES && freelist[c] != [] && freelist[c - 1] == []
      modifies this`freelist
      ensures Valid()
      ensures var n := |old(freelist)[c]| - 1;
              var b := old(freelist)[c][n];
              freelist == old(freelist)[c := old(freelist)[c][..n]][c - 1 := [LeftHalf(b), RightHalf(b)]]
    {
      var n := |freelist[c]| - 1;
      var buffer := freelist[c][n];
      ghost var before := freelist;
      HalvesOk(buffer, c, blocks);
      freelist := freelist[c := freelist[c][..n]];
      freelist := freelist[c - 1 := freelist[c - 1] + [LeftHalf(buffer)]];
      freelist := freelist[c - 1 := freelist[c - 1] + [RightHalf(buffer)]];
      assert freelist[c - 1] == [LeftHalf(buffer), RightHalf(buffer)];
      assert freelist == before[c := before[c][..n]][c - 1 := [LeftHalf(buffer), RightHalf(buffer)]];
      hide LeftHalf, RightHalf, Holds, CountAll;
      forall x: nat ensures CountAll(freelist, x) == CountAll(before, x) {
        SplitCount(before, freelist, c, x);
      }
    }

    /** `alloc_from_class` */
    method AllocFromClass(c: nat) returns (buffer: Buffer)
      requires Valid() && c < NUM_CLASSES && freelist[c] != []
      modifies this`freelist, this`userAllocTot, this`out
      ensures Valid() && buffer.classSize == ClassMaxSize(c) && out == old(out) + [buffer]
      ensures freelist == old(freelist)[c := old(freelist)[c][..|old(freelist)[c]| - 1]]
      ensures buffer == old(freelist)[c][|old(freelist)[c]| - 1]
    {
      var n := |freelist[c]| - 1;
      buffer := freelist[c][n];
      ghost var before, held := freelist, out;
      freelist := freelist[c := freelist[c][..n]];
      userAllocTot := userAllocTot + buffer.classSize;
      out := out + [buffer];
      TotalPush(held, buffer);
      ClassOfMax(c);
      forall x: nat ensures CountAll(freelist, x) + Count(out, x) == CountAll(before, x) + Count(held, x) {
        CountUpdate(before, c, before[c][..n], x);
        CountPush(held, buffer, x);
      }
    }

    /** `free_buf` of a buffer that the user holds. */
    method FreeBuf(buffer: Buffer, ghost k: nat)
      requires Valid() && k < |out| && out[k] == buffer
      modifies this`freelist, this`userAllocTot, this`out
      ensures Valid() && out == old(out)[..k] + old(out)[k + 1..]
      ensures var c := GetClass(buffer.classSize);
              c < NUM_CLASSES && ClassMaxSize(c) == buffer.classSize
              && freelist == old(freelist)[c := old(freelist)[c] + [buffer]]
    {
      assert buffer.classSize >= 1 && GetClass(buffer.classSize) < NUM_CLASSES
             && Placed(buffer, GetClass(buffer.classSize), blocks);
      var c := GetClass(buffer.classSize);
      ghost var before, held := freelist, out;
      freelist := freelist[c := freelist[c] + [buffer]];
      TotalRemove(held, k);
      userAllocTot := userAllocTot - buffer.classSize;
      out := out[..k] + out[k + 1..];
      forall x: nat ensures CountAll(freelist, x) + Count(out, x) == CountAll(before, x) + Count(held, x) {
        CountUpdate(before, c, before[c] + [buffer], x);
        CountPush(before[c], buffer, x);
        CountRemove(held, k, x);
        CountAtLeast(held, k, x);
      }
    }

    /** Add one block of the largest class, whose addresses no block holds yet. */
    method AddBlock(block: Buffer)
      requires Valid() && block.classSize == MAX_CLASS_SIZE
      requires forall x: nat :: Holds(block, x) == 1 ==> Count(blocks, x) == 0
      modifies this`freelist, this`blocks
      ensures Valid() && blocks == old(blocks) + [block]
      ensures freelist == old(freelist)[NUM_CLASSES - 1 := old(freelist)[NUM_CLASSES - 1] + [block]]
    {
      var c := NUM_CLASSES - 1;
      ghost var before, known := freelist, blocks;
      MaxClass();
      freelist := freelist[c := freelist[c] + [block]];
      blocks := blocks + [block];
      assert PartOf(block, blocks[|known|]);
      forall b: Buffer, d: nat | Placed(b, d, known) ensures Placed(b, d, blocks) { MorePlaced(b, d, known, block); }
      forall x: nat ensures CountAll(freelist, x) + Count(out, x) == Count(blocks, x) <= 1 {
        CountUpdate(before, c, before[c] + [block], x);
        CountPush(before[c], block, x);
        CountPush(known, block, x);
        assert CountAll(before, x) + Count(out, x) == Count(known, x) <= 1;
      }
    }

    /** `reserve_hugepages`; `raw` is the region the system gives, if any: memory that was not reserved before. */
    method ReserveHugepages(size: nat, raw: Option<(nat, nat)>) returns (success: bool)
      requires Valid() && size >= MAX_CLASS_SIZE && FreshRegion(blocks, size, raw)
      modifies this`freelist, this`blocks
      ensures Valid() && success == raw.Some?
      ensures !success ==> freelist == old(freelist) && blocks == old(blocks)
      ensures success ==> freelist[NUM_CLASSES - 1] != []
      ensures forall c :: 0 <= c < NUM_CLASSES - 1 ==> freelist[c] == old(freelist)[c]
      ensures success ==> |blocks| == |old(blocks)| + size / MAX_CLASS_SIZE && old(blocks) <= blocks
    {
      if raw.None? { return false; }
      var (base, lkey) := raw.value;
      var numBuffers := size / MAX_CLASS_SIZE;
      for i := 0 to numBuffers
        invariant Valid() && |blocks| == |old(blocks)| + i && old(blocks) <= blocks
        invariant i > 0 ==> freelist[NUM_CLASSES - 1] != []
        invariant forall c :: 0 <= c < NUM_CLASSES - 1 ==> freelist[c] == old(freelist)[c]
        invariant forall x: nat :: base + i * MAX_CLASS_SIZE <= x < base + size ==> Count(blocks, x) == 0
      {
        var block := Buffer(base + i * MAX_CLASS_SIZE, MAX_CLASS_SIZE, lkey);
        ghost var known := blocks;
        AddBlock(block);
        forall x: nat | base + (i + 1) * MAX_CLASS_SIZE <= x < base + size ensures Count(blocks, x) == 0 {
          CountPush(known, block, x);
        }
      }
      return true;
    }

    /** `alloc`: a buffer of the smallest class that fits, unless nothing that large is free and no memory is left. */
    method Alloc(size: nat, raw: Option<(nat, nat)>) returns (r: Option<Buffer>)
      requires Valid() && 1 <= size <= MAX_CLASS_SIZE && FreshRegion(blocks, prevAllocationSize * 2, raw)
      modifies this
      ensures Valid()
      ensures r.None? <==> raw.None? && forall c :: GetClass(size) <= c < NUM_CLASSES ==> old(freelist)[c] == []
      ensures r.None? ==> freelist == old(freelist) && out == old(out) && blocks == old(blocks)
                          && prevAllocationSize == old(prevAllocationSize)
      ensures r.Some? ==> Smallest(size, GetClass(size)) && r.value.classSize == ClassMaxSize(GetClass(size))
      ensures r.Some? ==> out == old(out) + [r.value] && old(blocks) <= blocks
      ensures if exists c :: GetClass(size) <= c < NUM_CLASSES && old(freelist)[c] != []
              then blocks == old(blocks) && prevAllocationSize == old(prevAllocationSize)
              else r.Some? ==> prevAllocationSize == 2 * old(prevAllocationSize)
                               && |blocks| == |old(blocks)| + prevAllocationSize / MAX_CLASS_SIZE
      ensures forall c :: 0 <= c < GetClass(size) && c < NUM_CLASSES ==> freelist[c] == old(freelist)[c]
      ensures forall c, d :: GetClass(size) <= d < c < NUM_CLASSES && old(freelist)[d] != [] ==>
                freelist[c] == old(freelist)[c]
    {
      GetClassIsSmallest(size);
      hide GetClass, Smallest, AllPlaced, OutPlaced, Tiled, ClassMaxSize, FreshRegion;
      var sizeClass := GetClass(size);
      if freelist[sizeClass] != [] {
        var b := AllocFromClass(sizeClass);
        return Some(b);
      }
      var nextClass := NextClass(sizeClass, raw);
      if nextClass.None? { return None; }
      var b := SplitDown(sizeClass, nextClass.value);
      return Some(b);
    }

    /** The middle of `alloc`: the first class from `sizeClass` on with free buffers, after reserving memory if there is
        none. */
    method NextClass(sizeClass: nat, raw: Option<(nat, nat)>) returns (r: Option<nat>)
      requires Valid() && sizeClass < NUM_CLASSES && freelist[sizeClass] == []
      requires FreshRegion(blocks, prevAllocationSize * 2, raw)
      modifies this`freelist, this`blocks, this`prevAllocationSize
      ensures Valid() && out == old(out) && old(blocks) <= blocks
      ensures r.None? <==> raw.None? && forall c :: sizeClass <= c < NUM_CLASSES ==> old(freelist)[c] == []
      ensures r.None? || (exists c :: sizeClass <= c < NUM_CLASSES && old(freelist)[c] != []) ==>
                freelist == old(freelist) && blocks == old(blocks) && prevAllocationSize == old(prevAllocationSize)
      ensures r.Some? ==> sizeClass <= r.value < NUM_CLASSES && freelist[r.value] != []
                          && forall c :: sizeClass <= c < r.value ==> freelist[c] == []
      ensures r.Some? && (forall c :: sizeClass <= c < NUM_CLASSES ==> old(freelist)[c] == []) ==>
                && prevAllocationSize == 2 * old(prevAllocationSize) && r.value == NUM_CLASSES - 1
                && |blocks| == |old(blocks)| + prevAllocationSize / MAX_CLASS_SIZE
                && forall c :: 0 <= c < NUM_CLASSES - 1 ==> freelist[c] == old(freelist)[c]
    {
      hide AllPlaced, OutPlaced, Tiled, FreshRegion;
      var nextClass := sizeClass + 1;
      while nextClass < NUM_CLASSES && freelist[nextClass] == []
        invariant sizeClass < nextClass <= NUM_CLASSES
        invariant forall c :: sizeClass <= c < nextClass ==> freelist[c] == []
      {
        nextClass := nextClass + 1;
      }
      if nextClass < NUM_CLASSES { return Some(nextClass); }
      prevAllocationSize := prevAllocationSize * 2;
      var success := ReserveHugepages(prevAllocationSize, raw);
      if !success {
        prevAllocationSize := prevAllocationSize / 2;
        return None;
      }
      return Some(NUM_CLASSES - 1);
    }

    /** The end of `alloc`: split down from a class with free buffers through empty ones. */
    method SplitDown(sizeClass: nat, from: nat) returns (b: Buffer)
      requires Valid() && sizeClass <= from < NUM_CLASSES && freelist[from] != []
      requires forall c :: sizeClass <= c < from ==> freelist[c] == []
      modifies this`freelist, this`userAllocTot, this`out
      ensures Valid() && b.classSize == ClassMaxSize(sizeClass) && out == old(out) + [b]
      ensures forall c :: 0 <= c < NUM_CLASSES && (c < sizeClass || from < c) ==> freelist[c] == old(freelist)[c]
    {
      var nextClass := from;
      while nextClass != sizeClass
        invariant Valid() && sizeClass <= nextClass < NUM_CLASSES && freelist[nextClass] != []
        invariant forall c :: sizeClass <= c < nextClass ==> freelist[c] == []
        invariant out == old(out) && nextClass <= from
        invariant forall c :: 0 <= c < NUM_CLASSES && (c < sizeClass || from < c) ==> freelist[c] == old(freelist)[c]
        decreases nextClass
      {
        Split(nextClass);
        nextClass := nextClass - 1;
      }
      b := AllocFromClass(sizeClass);
    }
  }

  /** The system hands out memory that is in no block yet. */
  ghost predicate FreshRegion(blocks: seq<Buffer>, size: nat, raw: Option<(nat, nat)>) {
    raw.Some? ==> forall x: nat :: raw.value.0 <= x < raw.value.0 + size ==> Count(blocks, x) == 0
  }

  lemma {:induction false} NoneCounted(lists: seq<seq<Buffer>>, x: nat)
    requires forall c :: 0 <= c < |lists| ==> lists[c] == []
    ensures CountAll(lists, x) == 0
  {
    if lists != [] { NoneCounted(lists[..|lists| - 1], x); }
  }

  lemma {:induction false} SplitCount(before: seq<seq<Buffer>>, after: seq<seq<Buffer>>, c: nat, x: nat)
    requires 1 <= c < |before| && before[c] != [] && before[c - 1] == []
    requires var n := |before[c]| - 1;
             var b := before[c][n];
             && after == before[c := before[c][..n]][c - 1 := [LeftHalf(b), RightHalf(b)]]
             && Holds(b, x) == Holds(LeftHalf(b), x) + Holds(RightHalf(b), x)
    ensures CountAll(after, x) == CountAll(before, x)
  {
    var n := |before[c]| - 1;
    var b := before[c][n];
    var middle := before[c := before[c][..n]];
    CountUpdate(before, c, before[c][..n], x);
    CountUpdate(middle, c - 1, [LeftHalf(b), RightHalf(b)], x);
    CountPush([LeftHalf(b)], RightHalf(b), x);
    CountPush([], LeftHalf(b), x);
    assert [] + [LeftHalf(b)] == [LeftHalf(b)] && [LeftHalf(b)] + [RightHalf(b)] == [LeftHalf(b), RightHalf(b)];
  }

  // What tiling means for a user

  /** Two buffers the user holds share no address, and none shares an address with a free buffer. */
  lemma {:induction false} BuffersDisjoint(free: seq<seq<Buffer>>, out: seq<Buffer>, blocks: seq<Buffer>, j: nat,
                                           x: nat)
    requires Tiled(free, out, blocks) && j < |out| && Holds(out[j], x) == 1
    ensures forall k :: 0 <= k < |out| && k != j ==> Holds(out[k], x) == 0
    ensures forall c, k :: 0 <= c < |free| && 0 <= k < |free[c]| ==> Holds(free[c][k], x) == 0
    ensures exists k :: 0 <= k < |blocks| && Holds(blocks[k], x) == 1
  {
    assert CountAll(free, x) + Count(out, x) == Count(blocks, x) <= 1;
    CountAtLeast(out, j, x);
    forall k | 0 <= k < |out| && k != j ensures Holds(out[k], x) == 0 {
      if j < k { CountTwo(out, j, k, x); } else { CountTwo(out, k, j, x); }
    }
    forall c, k | 0 <= c < |free| && 0 <= k < |free[c]| ensures Holds(free[c][k], x) == 0 {
      CountAllAtLeast(free, c, x);
      CountAtLeast(free[c], k, x);
    }
    SomeHolds(blocks, x);
  }

  /** Nor do two free buffers share an address, or a free buffer and one the user holds. */
  lemma {:induction false} FreeDisjoint(free: seq<seq<Buffer>>, out: seq<Buffer>, blocks: seq<Buffer>, c: nat, j: nat,
                                        x: nat)
    requires Tiled(free, out, blocks) && c < |free| && j < |free[c]| && Holds(free[c][j], x) == 1
    ensures forall d, k :: 0 <= d < |free| && 0 <= k < |free[d]| && (d != c || k != j) ==> Holds(free[d][k], x) == 0
    ensures forall k :: 0 <= k < |out| ==> Holds(out[k], x) == 0
  {
    assert CountAll(free, x) + Count(out, x) == Count(blocks, x) <= 1;
    CountAtLeast(free[c], j, x);
    CountAllAtLeast(free, c, x);
    forall d, k | 0 <= d < |free| && 0 <= k < |free[d]| && (d != c || k != j) ensures Holds(free[d][k], x) == 0 {
      if d == c {
        CountTwo(free[c], Min(j, k), Max(j, k), x);
      } else {
        CountAtLeast(free[d], k, x);
        CountAllTwo(free, Min(c, d), Max(c, d), x);
      }
    }
    forall k | 0 <= k < |out| ensures Holds(out[k], x) == 0 { CountAtLeast(out, k, x); }
  }

  lemma {:induction false} CountAllTwo(lists: seq<seq<Buffer>>, c: nat, d: nat, x: nat)
    requires c < d < |lists|
    ensures CountAll(lists, x) >= Count(lists[c], x) + Count(lists[d], x)
    decreases |lists|
  {
    if d < |lists| - 1 {
      CountAllTwo(lists[..|lists| - 1], c, d, x);
    } else {
      CountAllAtLeast(lists[..|lists| - 1], c, x);
    }
  }

  /** No address of a reserved block is ever lost. */
  lemma {:induction false} NoAddressLost(free: seq<seq<Buffer>>, out: seq<Buffer>, blocks: seq<Buffer>, k: nat, x: nat)
    requires Tiled(free, out, blocks) && k < |blocks| && Holds(blocks[k], x) == 1
    ensures (exists j :: 0 <= j < |out| && Holds(out[j], x) == 1)
            || exists c, j :: 0 <= c < |free| && 0 <= j < |free[c]| && Holds(free[c][j], x) == 1
  {
    assert CountAll(free, x) + Count(out, x) == Count(blocks, x);
    CountAtLeast(blocks, k, x);
    if Count(out, x) > 0 {
      SomeHolds(out, x);
    } else {
      var c := SomeList(free, x);
      SomeHolds(free[c], x);
    }
  }

  lemma {:induction false} CountAllAtLeast(lists: seq<seq<Buffer>>, c: nat, x: nat)
    requires c < |lists|
    ensures CountAll(lists, x) >= Count(lists[c], x)
    decreases |lists|
  {
    if c < |lists| - 1 { CountAllAtLeast(lists[..|lists| - 1], c, x); }
  }

  lemma {:induction false} SomeHolds(bs: seq<Buffer>, x: nat)
    requires Count(bs, x) > 0
    ensures exists k :: 0 <= k < |bs| && Holds(bs[k], x) == 1
  {
    var n := |bs| - 1;
    if Holds(bs[n], x) == 0 {
      SomeHolds(bs[..n], x);
      var k :| 0 <= k < n && Holds(bs[..n][k], x) == 1;
      assert bs[k] == bs[..n][k];
    }
  }

  lemma {:induction false} SomeList(lists: seq<seq<Buffer>>, x: nat) returns (c: nat)
    requires CountAll(lists, x) > 0
    ensures c < |lists| && Count(lists[c], x) > 0
  {
    c := |lists| - 1;
    if Count(lists[c], x) == 0 {
      c := SomeList(lists[..c], x);
    }
  }
}
