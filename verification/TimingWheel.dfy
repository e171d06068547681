/**
 * The timing wheel as an object: a circular array of buckets, each the head of
 * a chain of buckets from a pool.
 */
module TimingWheel {
  import opened Options
  import opened Arith
  import opened Messages
  import opened Sequences
  import opened WheelSpec

  const kWheelBucketCap: nat := 5

  /** `wheel_bkt_t`; `next` and `last` are bucket numbers. */
  datatype Bkt<E> = Bkt(numEntries: nat, tx: nat, last: nat, next: Option<nat>, entry: seq<E>)

  /** The entries of a bucket. */
  function Live<E>(b: Bkt<E>): seq<E> {
    if b.numEntries <= |b.entry| then b.entry[..b.numEntries] else []
  }

  /** The slot `j` after the current one, and how far after it a slot is. */
  function SlotAt(cur: nat, j: nat): nat {
    if cur + j < kWheelNumWslots then cur + j else Max(0, cur + j - kWheelNumWslots)
  }

  function Ahead(cur: nat, i: nat): nat {
    if i >= cur then i - cur else Max(0, i + kWheelNumWslots - cur)
  }

  // Chains

  /** The entries of a chain of buckets. */
  ghost function Cat<E>(bkts: seq<Bkt<E>>, chain: seq<nat>): seq<E> {
    if chain == [] then [] else (if chain[0] < |bkts| then Live(bkts[chain[0]]) else []) + Cat(bkts, chain[1..])
  }

  lemma {:induction false} CatConcat<E>(bkts: seq<Bkt<E>>, a: seq<nat>, b: seq<nat>)
    ensures Cat(bkts, a + b) == Cat(bkts, a) + Cat(bkts, b)
  {
    if a == [] {
      assert a + b == b;
    } else {
      CatConcat(bkts, a[1..], b);
      TailOfAppend(a, b);
      var head := if a[0] < |bkts| then Live(bkts[a[0]]) else [];
      assert Cat(bkts, a) == head + Cat(bkts, a[1..]) && Cat(bkts, a + b) == head + Cat(bkts, a[1..] + b);
      AppendAssoc(head, Cat(bkts, a[1..]), Cat(bkts, b));
    }
  }

  lemma {:induction false} CatNone<E>(bkts: seq<Bkt<E>>)
    ensures Cat(bkts, []) == []
  {
  }

  lemma {:induction false} CatOne<E>(bkts: seq<Bkt<E>>, b: nat)
    requires b < |bkts|
    ensures Cat(bkts, [b]) == Live(bkts[b])
  {
    assert [b][1..] == [];
  }

  lemma {:induction false} CatFrame<E>(before: seq<Bkt<E>>, bkts: seq<Bkt<E>>, chain: seq<nat>)
    requires forall j :: 0 <= j < |chain| ==> chain[j] < |before| && chain[j] < |bkts|
    requires forall j :: 0 <= j < |chain| ==> Live(bkts[chain[j]]) == Live(before[chain[j]])
    ensures Cat(bkts, chain) == Cat(before, chain)
  {
    if chain != [] { CatFrame(before, bkts, chain[1..]); }
  }

  /** Only the last bucket of a chain has room. */
  predicate LinkOk<E>(b: Bkt<E>, next: Option<nat>) {
    |b.entry| == kWheelBucketCap && b.next == next
    && (if next == None then b.numEntries < kWheelBucketCap else b.numEntries == kWheelBucketCap)
  }

  function NextIn(chain: seq<nat>, j: nat): Option<nat> {
    if j + 1 < |chain| then Some(chain[j + 1]) else None
  }

  ghost predicate Links<E>(bkts: seq<Bkt<E>>, chain: seq<nat>) {
    forall j :: 0 <= j < |chain| ==> chain[j] < |bkts| && LinkOk(bkts[chain[j]], NextIn(chain, j))
  }

  /** A chain that starts at bucket `i`, whose `last` names the chain's last bucket. */
  ghost predicate ChainOk<E>(bkts: seq<Bkt<E>>, i: nat, chain: seq<nat>) {
    && |chain| >= 1 && chain[0] == i
    && Links(bkts, chain)
    && bkts[i].last == chain[|chain| - 1]
  }

  /** Where a bucket is: in the chain of a slot, or in the pool when `slot` is the slot count. */
  datatype Place = Place(slot: nat, pos: nat)

  /** Buckets at distinct places are distinct. */
  ghost predicate Placed(place: seq<Place>, slot: nat, chain: seq<nat>) {
    forall j :: 0 <= j < |chain| ==> chain[j] < |place| && place[chain[j]] == Place(slot, j)
  }

  ghost predicate Chains<E>(bkts: seq<Bkt<E>>, place: seq<Place>, chains: seq<seq<nat>>, pool: seq<nat>) {
    && |chains| == kWheelNumWslots <= |bkts| == |place|
    && (forall i :: 0 <= i < kWheelNumWslots ==> ChainOk(bkts, i, chains[i]) && Placed(place, i, chains[i]))
    && Placed(place, kWheelNumWslots, pool)
    && (forall b :: 0 <= b < |bkts| ==> |bkts[b].entry| == kWheelBucketCap)
  }

  /** A chain whose buckets keep their entries and links is still good. */
  lemma {:induction false} ChainFrame<E>(before: seq<Bkt<E>>, bkts: seq<Bkt<E>>, place: seq<Place>, i: nat,
                                         chain: seq<nat>)
    requires ChainOk(before, i, chain) && Placed(place, i, chain) && |before| <= |bkts| && |before| <= |place|
    requires forall b :: 0 <= b < |before| && place[b].slot == i ==> bkts[b] == before[b]
    ensures ChainOk(bkts, i, chain) && Cat(bkts, chain) == Cat(before, chain)
  {
    forall j | 0 <= j < |chain| ensures bkts[chain[j]] == before[chain[j]] {
      assert place[chain[j]] == Place(i, j);
    }
    CatFrame(before, bkts, chain);
  }

  /** A bucket of the wheel as the constructor sets it up. */
  function Head<E>(b: Bkt<E>, base: nat, i: nat): Bkt<E> {
    b.(numEntries := 0, next := None, tx := base + (i + 1) * wslotWidthTsc, last := i)
  }

  lemma {:induction false} NewChains<E>(bkts: seq<Bkt<E>>, place: seq<Place>, chains: seq<seq<nat>>)
    requires |bkts| == |place| == |chains| == kWheelNumWslots
    requires forall k :: 0 <= k < kWheelNumWslots ==> chains[k] == [k] && place[k] == Place(k, 0)
    requires forall k :: 0 <= k < kWheelNumWslots ==>
               LinkOk(bkts[k], None) && bkts[k].last == k && bkts[k].numEntries == 0
    ensures Chains(bkts, place, chains, [])
    ensures forall k :: 0 <= k < kWheelNumWslots ==> Cat(bkts, chains[k]) == []
  {
    hide Cat;
    forall k | 0 <= k < kWheelNumWslots ensures Cat(bkts, chains[k]) == [] { CatOne(bkts, k); }
  }

  lemma {:induction false} NewTimes<E>(bkts: seq<Bkt<E>>, base: nat)
    requires |bkts| == kWheelNumWslots
    requires forall k :: 0 <= k < kWheelNumWslots ==> bkts[k].tx == base + (k + 1) * wslotWidthTsc
    ensures forall k :: 0 <= k < kWheelNumWslots ==> bkts[k].tx == bkts[0].tx + Ahead(0, k) * wslotWidthTsc
  {
    forall k | 0 <= k < kWheelNumWslots ensures bkts[k].tx == bkts[0].tx + Ahead(0, k) * wslotWidthTsc {
      assert (k + 1) * wslotWidthTsc == k * wslotWidthTsc + wslotWidthTsc;
    }
  }

  ghost predicate Pooled<E>(bkts: seq<Bkt<E>>, place: seq<Place>, pool: seq<nat>) {
    && |bkts| == |place|
    && Placed(place, kWheelNumWslots, pool)
    && (forall b :: 0 <= b < |bkts| ==> |bkts[b].entry| == kWheelBucketCap)
  }

  lemma {:induction false} LastOf<E>(bkts: seq<Bkt<E>>, place: seq<Place>, i: nat, chain: seq<nat>)
    requires ChainOk(bkts, i, chain) && Placed(place, i, chain)
    ensures var last := bkts[i].last;
            last < |bkts| && LinkOk(bkts[last], None) && place[last] == Place(i, |chain| - 1)
  {
    assert LinkOk(bkts[chain[|chain| - 1]], NextIn(chain, |chain| - 1));
  }

  /** A chain whose last bucket takes an entry and keeps room. */
  lemma {:induction false} ChainFills<E>(before: seq<Bkt<E>>, bkts: seq<Bkt<E>>, place: seq<Place>, i: nat,
                                         chain: seq<nat>, e: E)
    requires ChainOk(before, i, chain) && Placed(place, i, chain)
    requires var last := before[i].last;
             && last < |before| && |before[last].entry| == kWheelBucketCap
             && before[last].numEntries + 1 < kWheelBucketCap
             && bkts == before[last := before[last].(entry := before[last].entry[before[last].numEntries := e],
                                                     numEntries := before[last].numEntries + 1)]
    ensures ChainOk(bkts, i, chain) && Cat(bkts, chain) == Cat(before, chain) + [e]
  {
    var n := |chain| - 1;
    forall j | 0 <= j < n ensures chain[j] != chain[n] {
      assert place[chain[j]] == Place(i, j) && place[chain[n]] == Place(i, n);
    }
    forall j | 0 <= j < |chain| ensures chain[j] < |bkts| && LinkOk(bkts[chain[j]], NextIn(chain, j)) {
      assert LinkOk(before[chain[j]], NextIn(chain, j));
    }
    CatLast(before, bkts, chain, e);
  }

  /** The entries of a chain when only its last bucket gained one. */
  lemma {:induction false} CatLast<E>(before: seq<Bkt<E>>, bkts: seq<Bkt<E>>, chain: seq<nat>, e: E)
    requires chain != [] && forall j :: 0 <= j < |chain| ==> chain[j] < |before| && chain[j] < |bkts|
    requires forall j :: 0 <= j < |chain| - 1 ==> Live(bkts[chain[j]]) == Live(before[chain[j]])
    requires Live(bkts[chain[|chain| - 1]]) == Live(before[chain[|chain| - 1]]) + [e]
    ensures Cat(bkts, chain) == Cat(before, chain) + [e]
  {
    var n := |chain| - 1;
    assert chain == chain[..n] + [chain[n]];
    CatConcat(bkts, chain[..n], [chain[n]]);
    CatConcat(before, chain[..n], [chain[n]]);
    CatOne(bkts, chain[n]);
    CatOne(before, chain[n]);
    CatFrame(before, bkts, chain[..n]);
  }

  /** A chain whose last bucket takes its final entry and is followed by a new one. */
  lemma {:induction false} ChainGrows<E>(before: seq<Bkt<E>>, bkts: seq<Bkt<E>>, place: seq<Place>, i: nat,
                                         chain: seq<nat>, added: nat, e: E)
    requires ChainOk(before, i, chain) && Placed(place, i, chain) && |before| <= |bkts| == |place|
    requires added < |bkts| && place[added] == Place(i, |chain|)
    requires LinkOk(bkts[added], None) && Live(bkts[added]) == []
    requires var last := before[i].last;
             && last < |before| && |before[last].entry| == kWheelBucketCap
             && before[last].numEntries + 1 == kWheelBucketCap
             && LinkOk(bkts[last], Some(added)) && Live(bkts[last]) == Live(before[last]) + [e]
             && bkts[i].last == added
             && forall b :: 0 <= b < |before| && place[b].slot == i && b != last && b != added ==>
                  bkts[b].(last := before[b].last) == before[b]
    ensures ChainOk(bkts, i, chain + [added]) && Placed(place, i, chain + [added])
    ensures Cat(bkts, chain + [added]) == Cat(before, chain) + [e]
  {
    var n, grown := |chain| - 1, chain + [added];
    forall j | 0 <= j < n ensures chain[j] != chain[n] && chain[j] != added {
      assert place[chain[j]] == Place(i, j) && place[chain[n]] == Place(i, n);
    }
    forall j | 0 <= j < |grown| ensures grown[j] < |bkts| && LinkOk(bkts[grown[j]], NextIn(grown, j)) {
      if j < n { assert LinkOk(before[chain[j]], NextIn(chain, j)); }
    }
    CatConcat(bkts, chain, [added]);
    CatOne(bkts, added);
    forall j | 0 <= j < n ensures Live(bkts[chain[j]]) == Live(before[chain[j]]) {
      assert place[chain[j]].slot == i;
    }
    CatLast(before, bkts, chain, e);
  }

  class Wheel<E(0)> {
    var bkts: seq<Bkt<E>>                  // The first kWheelNumWslots are the wheel
    var cur: nat
    var pool: seq<nat>                     // Free buckets
    var ready: seq<E>
    const numToAlloc: pos                  // How many buckets the pool grows by
    const memory: nat -> Bkt<E>            // What each new bucket's memory holds
    ghost var chains: seq<seq<nat>>
    ghost var place: seq<Place>

    ghost predicate Valid()
      reads this
    {
      && Chains(bkts, place, chains, pool)
      && cur < kWheelNumWslots
      && (forall i :: 0 <= i < kWheelNumWslots ==> bkts[i].tx == bkts[cur].tx + Ahead(cur, i) * wslotWidthTsc)
      && MemoryOk()
    }

    /** The wheel as the specification sees it. */
    ghost function Abs(): WheelSpec.Wheel<E>
      requires Valid()
      reads this
    {
      WheelSpec.Wheel(bkts[cur].tx,
                      seq(kWheelNumWslots, j requires 0 <= j < kWheelNumWslots reads this requires Valid() =>
                        Cat(bkts, chains[SlotAt(cur, j)])),
                      ready)
    }

    ghost predicate MemoryOk() {
      forall i :: |memory(i).entry| == kWheelBucketCap
    }

    /** The constructor, at time `base`. */
    constructor (base: nat, numToAlloc: pos, memory: nat -> Bkt<E>)
      requires forall i :: |memory(i).entry| == kWheelBucketCap
      ensures Valid() && Abs() == WheelSpec.Wheel(base + wslotWidthTsc, seq(kWheelNumWslots, _ => []), [])
    {
      this.numToAlloc, this.memory := numToAlloc, memory;
      bkts, cur, pool, ready := [], 0, [], [];
      chains, place := [], [];
      new;
      for i := 0 to kWheelNumWslots
        invariant |bkts| == i && cur == 0 && pool == [] && ready == []
        invariant forall k :: 0 <= k < i ==> bkts[k] == Head(memory(k), base, k)
      {
        bkts := bkts + [Head(memory(i), base, i)];
      }
      chains := seq(kWheelNumWslots, k requires 0 <= k => [k]);
      place := seq(kWheelNumWslots, k requires 0 <= k => Place(k, 0));
      NewChains(bkts, place, chains);
      NewTimes(bkts, base);
    }

    /** `alloc_bkt`: a bucket from the pool, reset. */
    method AllocBkt() returns (b: nat)
      requires Pooled(bkts, place, pool) && MemoryOk()
      modifies this`bkts, this`pool, this`place
      ensures Pooled(bkts, place, pool)
      ensures b < |bkts| && place[b] == Place(kWheelNumWslots, |pool|)
      ensures LinkOk(bkts[b], None) && Live(bkts[b]) == []
      ensures |bkts| >= old(|bkts|) && forall k :: 0 <= k < old(|bkts|) && k != b ==> bkts[k] == old(bkts[k])
      ensures old(place) <= place
    {
      if pool == [] { ExtendPool(); }
      b := pool[|pool| - 1];
      pool := pool[..|pool| - 1];
      bkts := bkts[b := bkts[b].(next := None, numEntries := 0)];
    }

    /** `extend_pool` */
    method ExtendPool()
      requires Pooled(bkts, place, pool) && pool == [] && MemoryOk()
      modifies this`bkts, this`pool, this`place
      ensures Pooled(bkts, place, pool) && pool != []
      ensures old(bkts) <= bkts && old(place) <= place
    {
      var n := |bkts|;
      bkts := bkts + seq(numToAlloc, k requires 0 <= k < numToAlloc => memory(n + k));
      pool := seq(numToAlloc, k requires 0 <= k < numToAlloc => n + k);
      place := place + seq(numToAlloc, k requires 0 <= k < numToAlloc => Place(kWheelNumWslots, k));
    }

    /** `insert_into_wslot` */
    method InsertIntoWslot(i: nat, e: E)
      requires Chains(bkts, place, chains, pool) && MemoryOk() && i < kWheelNumWslots
      modifies this`bkts, this`pool, this`place, this`chains
      ensures Chains(bkts, place, chains, pool)
      ensures Cat(bkts, chains[i]) == old(Cat(bkts, chains[i])) + [e]
      ensures forall k :: 0 <= k < kWheelNumWslots && k != i ==> Cat(bkts, chains[k]) == old(Cat(bkts, chains[k]))
      ensures forall k :: 0 <= k < kWheelNumWslots ==> bkts[k].tx == old(bkts[k].tx)
    {
      hide ChainOk, Placed, Cat;
      ghost var before, chain, was := bkts, chains[i], place;
      var last := bkts[i].last;
      LastOf(bkts, place, i, chain);
      var b := bkts[last];
      b := b.(entry := b.entry[b.numEntries := e]);
      b := b.(numEntries := b.numEntries + 1);
      bkts := bkts[last := b];
      if b.numEntries == kWheelBucketCap {
        AddBkt(i, last, before, e);
      } else {
        ChainFills(before, bkts, was, i, chain, e);
      }
      OthersKeep(before, bkts, was, place, chains, i);
    }

    /** Chain a new bucket behind the last one, which has just been filled. */
    method AddBkt(i: nat, last: nat, ghost before: seq<Bkt<E>>, ghost e: E)
      requires Chains(before, place, chains, pool) && MemoryOk() && i < kWheelNumWslots && before[i].last == last
      requires last < |before| && LinkOk(before[last], None) && before[last].numEntries + 1 == kWheelBucketCap
      requires place[last] == Place(i, |chains[i]| - 1)
      requires |bkts| == |before| && bkts == before[last := bkts[last]]
      requires bkts[last].(entry := [], numEntries := 0) == before[last].(entry := [], numEntries := 0)
      requires |bkts[last].entry| == bkts[last].numEntries == kWheelBucketCap
      requires Live(bkts[last]) == Live(before[last]) + [e]
      modifies this`bkts, this`pool, this`place, this`chains
      ensures |before| <= |bkts| && |chains| == |old(chains)| && chains == old(chains)[i := chains[i]]
      ensures ChainOk(bkts, i, chains[i]) && Placed(place, i, chains[i]) && Pooled(bkts, place, pool)
      ensures Cat(bkts, chains[i]) == Cat(before, old(chains[i])) + [e]
      ensures forall b :: 0 <= b < |before| && old(place)[b].slot < kWheelNumWslots ==>
                place[b] == old(place)[b] && (old(place)[b].slot != i ==> bkts[b] == before[b])
      ensures bkts[i].tx == before[i].tx
    {
      hide Cat, Placed, Links;
      ghost var chain, was := chains[i], place;
      HeadPlace(before, place, i, chain);
      assert ChainOk(before, i, chain) && Placed(was, i, chain) && was[i] == Place(i, 0);
      hide Chains, ChainOk;
      var added := AllocBkt();
      ghost var taken := place;
      bkts := bkts[last := bkts[last].(next := Some(added))];
      bkts := bkts[i := bkts[i].(last := added)];
      chains := chains[i := chain + [added]];
      place := place[added := Place(i, |chain|)];
      Replace(was, taken, place, i, chain, added, pool);
      ChainGrows(before, bkts, place, i, chain, added, e);
    }

    /** `reap_wslot`: move a slot's entries to the ready queue and its chained buckets to the pool. */
    method ReapWslot(i: nat)
      requires Chains(bkts, place, chains, pool) && i < kWheelNumWslots
      modifies this`bkts, this`pool, this`place, this`chains, this`ready
      ensures Chains(bkts, place, chains, pool)
      ensures ready == old(ready) + old(Cat(bkts, chains[i])) && Cat(bkts, chains[i]) == []
      ensures forall k :: 0 <= k < kWheelNumWslots && k != i ==> Cat(bkts, chains[k]) == old(Cat(bkts, chains[k]))
      ensures forall k :: 0 <= k < kWheelNumWslots ==> bkts[k].tx == old(bkts[k].tx)
    {
      ghost var before, was, chain, pool0 := bkts, place, chains[i], pool;
      SizeOf(bkts, place, chains, pool);
      EmptiedNone(before, was, i, chain);
      DrainChain(i, chain, was);
      EmptiedAll(before, bkts, was, i, chain);
      hide Emptied, Links, Cat;
      bkts := bkts[i := bkts[i].(last := i)];
      chains := chains[i := [i]];
      place := Returned(was, i, chain, |pool0|);
      ReapedOk(before, bkts, was, place, old(chains), chains, pool0, pool, i, chain);
    }

    /** The loop of `reap_wslot` along the chain. */
    method DrainChain(i: nat, ghost chain: seq<nat>, ghost was: seq<Place>)
      requires Emptied(bkts, bkts, was, i, chain, 0) && |chain| >= 1 && chain[0] == i
      modifies this`bkts, this`pool, this`ready
      ensures Emptied(old(bkts), bkts, was, i, chain, |chain|)
      ensures pool == old(pool) + chain[1..] && ready == old(ready) + Cat(old(bkts), chain)
    {
      hide Cat, Emptied, Live;
      ghost var before, k: nat := bkts, 0;
      assert Cat(before, chain[..0]) == [] by { CatNone(before); }
      var bkt := Some(i);
      while bkt.Some?
        invariant k <= |chain| && bkt == (if k < |chain| then Some(chain[k]) else None)
        invariant Emptied(before, bkts, was, i, chain, k)
        invariant pool == old(pool) + Tail(chain, k) && ready == old(ready) + Cat(before, chain[..k])
        decreases |chain| - k
      {
        var b := bkt.value;
        EmptiedMore(before, bkts, was, i, chain, k);
        CatMore(before, chain, k);
        TailMore(chain, k);
        ready := ready + Live(bkts[b]);
        bkt := bkts[b].next;
        bkts := bkts[b := bkts[b].(next := None, numEntries := 0)];
        if b != i { pool := pool + [b]; }
        k := k + 1;
      }
      assert chain[..k] == chain;
    }

    /** One turn of the loop of `reap`. */
    method ReapStep()
      requires Valid()
      modifies this
      ensures Valid()
      ensures var w := old(Abs());
              Abs() == WheelSpec.Wheel(w.tx + wslotWidthTsc, w.slots[1..] + [[]], w.ready + w.slots[0])
    {
      hide Chains, Cat;
      ghost var before, was, c := bkts, Abs(), cur;
      SizeOf(bkts, place, chains, pool);
      ReapWslot(cur);
      SizeOf(bkts, place, chains, pool);
      TurnChains(bkts, place, chains, pool, cur, bkts[cur].tx + wslotWidthTsc * kWheelNumWslots);
      bkts := bkts[cur := bkts[cur].(tx := bkts[cur].tx + wslotWidthTsc * kWheelNumWslots)];
      cur := cur + 1;
      if cur == kWheelNumWslots { cur := 0; }
      TurnTimes(before, bkts, c, cur);
      forall j | 0 <= j < kWheelNumWslots
        ensures Abs().slots[j] == (was.slots[1..] + [[]])[j]
      {
        TurnSlot(c, cur, j);
      }
      assert Abs().slots == was.slots[1..] + [[]];
    }

    /** `reap` */
    method Reap(t: nat)
      requires Valid()
      modifies this
      ensures Valid() && Abs() == WheelSpec.Reap(old(Abs()), t)
    {
      while bkts[cur].tx <= t
        invariant Valid() && WheelSpec.Reap(Abs(), t) == WheelSpec.Reap(old(Abs()), t)
        decreases t + 1 - bkts[cur].tx
      {
        ReapStep();
      }
    }

    /** `insert`, whose assertions are its preconditions. */
    method Insert(e: E, ref: nat, desired: nat)
      requires Valid() && Delta(WheelSpec.Reap(Abs(), ref).tx, desired) < kWheelNumWslots
      modifies this
      ensures Valid() && Abs() == WheelSpec.Insert(old(Abs()), e, ref, desired)
    {
      hide Chains, Cat;
      Reap(ref);
      SizeOf(bkts, place, chains, pool);
      ghost var was := Abs();
      var dst;
      ghost var delta := Delta(was.tx, desired);
      if desired <= bkts[cur].tx {
        dst := cur;
      } else {
        var wslotDelta := 1 + (desired - bkts[cur].tx) / wslotWidthTsc;
        dst := cur + wslotDelta;
        if dst >= kWheelNumWslots { dst := dst - kWheelNumWslots; }
      }
      assert dst == SlotAt(cur, delta);
      InsertIntoWslot(dst, e);
      SizeOf(bkts, place, chains, pool);
      forall j | 0 <= j < kWheelNumWslots
        ensures Abs().slots[j] == was.slots[delta := was.slots[delta] + [e]][j]
      {
        if j != delta { assert SlotAt(cur, j) != dst; }
      }
      assert Abs().slots == was.slots[delta := was.slots[delta] + [e]];
    }
  }

  lemma {:induction false} SizeOf<E>(bkts: seq<Bkt<E>>, place: seq<Place>, chains: seq<seq<nat>>, pool: seq<nat>)
    requires Chains(bkts, place, chains, pool)
    ensures |chains| == kWheelNumWslots <= |bkts|
  {
  }

  /** The chained buckets after the first, among the first `k`. */
  function Tail(chain: seq<nat>, k: nat): seq<nat>
    requires k <= |chain|
  {
    if k == 0 then [] else chain[1..k]
  }

  lemma {:induction false} TailMore(chain: seq<nat>, k: nat)
    requires k < |chain|
    ensures Tail(chain, k + 1) == if k == 0 then Tail(chain, k) else Tail(chain, k) + [chain[k]]
  {
  }

  lemma {:induction false} CatMore<E>(bkts: seq<Bkt<E>>, chain: seq<nat>, k: nat)
    requires k < |chain| && chain[k] < |bkts|
    ensures Cat(bkts, chain[..k + 1]) == Cat(bkts, chain[..k]) + Live(bkts[chain[k]])
  {
    assert chain[..k + 1] == chain[..k] + [chain[k]];
    CatConcat(bkts, chain[..k], [chain[k]]);
    CatOne(bkts, chain[k]);
  }

  /** The first `k` buckets of a chain have been reset and no others changed. */
  ghost predicate Emptied<E>(before: seq<Bkt<E>>, bkts: seq<Bkt<E>>, was: seq<Place>, i: nat, chain: seq<nat>, k: nat) {
    && |bkts| == |before| == |was| && Links(before, chain) && Placed(was, i, chain)
    && (forall j :: 0 <= j < |chain| ==>
         bkts[chain[j]] == if j < k then before[chain[j]].(next := None, numEntries := 0) else before[chain[j]])
    && (forall b :: 0 <= b < |bkts| && was[b].slot != i ==> bkts[b] == before[b])
    && (forall b :: 0 <= b < |bkts| ==> bkts[b].entry == before[b].entry)
  }

  lemma {:induction false} EmptiedNone<E>(bkts: seq<Bkt<E>>, was: seq<Place>, i: nat, chain: seq<nat>)
    requires |bkts| == |was| && Links(bkts, chain) && Placed(was, i, chain)
    ensures Emptied(bkts, bkts, was, i, chain, 0)
  {
  }

  lemma {:induction false} EmptiedMore<E>(before: seq<Bkt<E>>, bkts: seq<Bkt<E>>, was: seq<Place>, i: nat,
                                          chain: seq<nat>, k: nat)
    requires Emptied(before, bkts, was, i, chain, k) && k < |chain| && i == chain[0]
    ensures chain[k] < |bkts| == |before| && Live(bkts[chain[k]]) == Live(before[chain[k]])
    ensures bkts[chain[k]].next == NextIn(chain, k) && (chain[k] == i <==> k == 0)
    ensures var b := chain[k];
            Emptied(before, bkts[b := bkts[b].(next := None, numEntries := 0)], was, i, chain, k + 1)
  {
    assert LinkOk(before[chain[k]], NextIn(chain, k)) && bkts[chain[k]] == before[chain[k]];
    assert was[chain[k]] == Place(i, k) && was[chain[0]] == Place(i, 0);
    var b, r := chain[k], bkts[chain[k] := bkts[chain[k]].(next := None, numEntries := 0)];
    forall j | 0 <= j < |chain| ensures r[chain[j]] == (if j < k + 1 then
      before[chain[j]].(next := None, numEntries := 0) else before[chain[j]])
    {
      assert was[chain[j]] == Place(i, j);
    }
  }

  lemma {:induction false} EmptiedAll<E>(before: seq<Bkt<E>>, bkts: seq<Bkt<E>>, was: seq<Place>, i: nat,
                                         chain: seq<nat>)
    requires Emptied(before, bkts, was, i, chain, |chain|) && |chain| >= 1 && chain[0] == i
    ensures |bkts| == |before| == |was| && i < |bkts| && bkts[i] == before[i].(next := None, numEntries := 0)
    ensures forall b :: 0 <= b < |bkts| && was[b].slot != i ==> bkts[b] == before[b]
    ensures forall b :: 0 <= b < |bkts| ==> bkts[b].entry == before[b].entry
    ensures was[i].slot == i
  {
    assert bkts[chain[0]] == before[chain[0]].(next := None, numEntries := 0);
  }

  /** The places after a chain's later buckets were returned to the end of the pool. */
  function Returned(was: seq<Place>, i: nat, chain: seq<nat>, size: nat): seq<Place> {
    seq(|was|, b requires 0 <= b < |was| =>
      if was[b].slot == i && 1 <= was[b].pos < |chain| && chain[was[b].pos] == b
      then Place(kWheelNumWslots, size + was[b].pos - 1) else was[b])
  }

  lemma {:induction false} ReapedOk<E>(before: seq<Bkt<E>>, bkts: seq<Bkt<E>>, was: seq<Place>, place: seq<Place>,
                    chains0: seq<seq<nat>>, chains: seq<seq<nat>>, pool0: seq<nat>, pool: seq<nat>, i: nat,
                    chain: seq<nat>)
    requires Chains(before, was, chains0, pool0) && i < kWheelNumWslots && chains0[i] == chain
    requires chains == chains0[i := [i]] && pool == pool0 + chain[1..]
    requires place == Returned(was, i, chain, |pool0|)
    requires |bkts| == |before| && bkts[i] == before[i].(next := None, numEntries := 0, last := i)
    requires forall b :: 0 <= b < |bkts| && was[b].slot != i ==> bkts[b] == before[b]
    requires forall b :: 0 <= b < |bkts| ==> bkts[b].entry == before[b].entry
    ensures Chains(bkts, place, chains, pool) && Cat(bkts, chains[i]) == []
    ensures forall k :: 0 <= k < kWheelNumWslots && k != i ==> Cat(bkts, chains[k]) == Cat(before, chains0[k])
    ensures forall k :: 0 <= k < kWheelNumWslots ==> bkts[k].tx == before[k].tx
  {
    hide Cat;
    HeadPlace(before, was, i, chain);
    CatOne(bkts, i);
    OthersKeep(before, bkts, was, place, chains, i);
    forall j | 0 <= j < |pool| ensures pool[j] < |place| && place[pool[j]] == Place(kWheelNumWslots, j) {
      if j >= |pool0| { assert pool[j] == chain[1 + j - |pool0|]; }
    }
  }

  /** Chains do not depend on deadlines. */
  lemma {:induction false} TurnChains<E>(bkts: seq<Bkt<E>>, place: seq<Place>, chains: seq<seq<nat>>, pool: seq<nat>,
                                         cur: nat, tx: nat)
    requires Chains(bkts, place, chains, pool) && cur < kWheelNumWslots
    ensures var turned := bkts[cur := bkts[cur].(tx := tx)];
            && Chains(turned, place, chains, pool)
            && forall k :: 0 <= k < kWheelNumWslots ==> Cat(turned, chains[k]) == Cat(bkts, chains[k])
  {
    var turned := bkts[cur := bkts[cur].(tx := tx)];
    forall k | 0 <= k < kWheelNumWslots ensures Cat(turned, chains[k]) == Cat(bkts, chains[k]) {
      assert ChainOk(bkts, k, chains[k]);
      CatFrame(bkts, turned, chains[k]);
    }
    forall k | 0 <= k < kWheelNumWslots ensures ChainOk(turned, k, chains[k]) {
      assert ChainOk(bkts, k, chains[k]);
      forall j | 0 <= j < |chains[k]|
        ensures chains[k][j] < |turned| && LinkOk(turned[chains[k][j]], NextIn(chains[k], j))
      {
        assert LinkOk(bkts[chains[k][j]], NextIn(chains[k], j));
      }
    }
  }

  /** Deadlines after the current slot moved to the back. */
  lemma {:induction false} TurnTimes<E>(before: seq<Bkt<E>>, bkts: seq<Bkt<E>>, c: nat, cur: nat)
    requires c < kWheelNumWslots <= |before| && kWheelNumWslots <= |bkts|
    requires cur == (if c + 1 == kWheelNumWslots then 0 else c + 1)
    requires forall i :: 0 <= i < kWheelNumWslots ==> before[i].tx == before[c].tx + Ahead(c, i) * wslotWidthTsc
    requires forall i :: 0 <= i < kWheelNumWslots && i != c ==> bkts[i].tx == before[i].tx
    requires bkts[c].tx == before[c].tx + wslotWidthTsc * kWheelNumWslots
    ensures bkts[cur].tx == before[c].tx + wslotWidthTsc
    ensures forall i :: 0 <= i < kWheelNumWslots ==> bkts[i].tx == bkts[cur].tx + Ahead(cur, i) * wslotWidthTsc
  {
    forall i | 0 <= i < kWheelNumWslots
      ensures bkts[i].tx == before[c].tx + wslotWidthTsc + Ahead(cur, i) * wslotWidthTsc
    {
      if i == c {
        assert Ahead(cur, c) == kWheelNumWslots - 1;
        assert wslotWidthTsc * kWheelNumWslots == wslotWidthTsc + (kWheelNumWslots - 1) * wslotWidthTsc;
      } else {
        assert Ahead(c, i) == Ahead(cur, i) + 1;
        assert (Ahead(cur, i) + 1) * wslotWidthTsc == wslotWidthTsc + Ahead(cur, i) * wslotWidthTsc;
      }
    }
    assert Ahead(cur, cur) == 0;
  }

  lemma {:induction false} TurnSlot(c: nat, cur: nat, j: nat)
    requires c < kWheelNumWslots && cur == (if c + 1 == kWheelNumWslots then 0 else c + 1) && j < kWheelNumWslots
    ensures if j + 1 == kWheelNumWslots then SlotAt(cur, j) == c
            else SlotAt(cur, j) == SlotAt(c, j + 1) && SlotAt(cur, j) != c
  {
  }

  lemma {:induction false} HeadPlace<E>(bkts: seq<Bkt<E>>, place: seq<Place>, i: nat, chain: seq<nat>)
    requires ChainOk(bkts, i, chain) && Placed(place, i, chain)
    ensures i < |place| && place[i] == Place(i, 0)
  {
  }

  /** Moving a bucket from the end of the pool to the end of a chain. */
  lemma {:induction false} Replace(was: seq<Place>, taken: seq<Place>, place: seq<Place>, i: nat, chain: seq<nat>,
                                   added: nat, pool: seq<nat>)
    requires Placed(was, i, chain) && was <= taken && Placed(taken, kWheelNumWslots, pool) && i < kWheelNumWslots
    requires added < |taken| && taken[added] == Place(kWheelNumWslots, |pool|)
    requires place == taken[added := Place(i, |chain|)]
    ensures Placed(place, i, chain) && Placed(place, kWheelNumWslots, pool)
  {
  }

  /** The other slots, when only buckets of slot `i` and free buckets changed. */
  lemma {:induction false} OthersKeep<E>(before: seq<Bkt<E>>, bkts: seq<Bkt<E>>, was: seq<Place>, place: seq<Place>,
                      chains: seq<seq<nat>>, i: nat)
    requires |chains| == kWheelNumWslots <= |before| == |was| && |before| <= |bkts| == |place|
    requires forall k :: 0 <= k < kWheelNumWslots && k != i ==>
               ChainOk(before, k, chains[k]) && Placed(was, k, chains[k])
    requires forall b :: 0 <= b < |before| && was[b].slot < kWheelNumWslots && was[b].slot != i ==>
               place[b] == was[b] && bkts[b] == before[b]
    ensures forall k :: 0 <= k < kWheelNumWslots && k != i ==>
              ChainOk(bkts, k, chains[k]) && Placed(place, k, chains[k])
    ensures forall k :: 0 <= k < kWheelNumWslots && k != i ==>
              Cat(bkts, chains[k]) == Cat(before, chains[k]) && bkts[k].tx == before[k].tx
  {
    forall k | 0 <= k < kWheelNumWslots && k != i
      ensures ChainOk(bkts, k, chains[k]) && Placed(place, k, chains[k])
      ensures Cat(bkts, chains[k]) == Cat(before, chains[k]) && bkts[k].tx == before[k].tx
    {
      HeadPlace(before, was, k, chains[k]);
      ChainFrame(before, bkts, was, k, chains[k]);
    }
  }
}
