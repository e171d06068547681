/**
 * The persistent hash map: chains of buckets over a fixed table, with overflow
 * buckets from a free list, refine a finite map.
 */
module Pmica {
  import opened Options

  type Key = nat
  const INVALID_KEY: Key := 0
  const kSlotsPerBucket: nat := 5

  datatype Slot<V> = Slot(key: Key, value: V)

  /** `next` counts extra buckets from 1; 0 is none. */
  datatype Bucket<V> = Bucket(next: nat, slots: seq<Slot<V>>)

  /** Where a bucket is: at a position in a regular bucket's chain, or in the free list. */
  datatype Place = InChain(slot: nat, pos: nat) | Free(pos: nat)

  /** The table, and where each bucket is in it. */
  datatype Table<V> = Table(
    numRegular: nat,
    buckets: seq<Bucket<V>>,               // Regular buckets, then extra buckets
    freeList: seq<nat>,                    // Extra buckets, counted from 1
    chains: seq<seq<nat>>,
    place: seq<Place>)

  /** The index of an extra bucket in the table. */
  function Extra(numRegular: nat, e: nat): nat {
    if e == 0 then 0 else numRegular + e - 1
  }

  // The shape of the table

  predicate LinkOk<V>(t: Table<V>, i: nat, c: seq<nat>, j: nat)
    requires j < |c| && |t.place| == |t.buckets|
  {
    && c[j] < |t.buckets| && t.place[c[j]] == InChain(i, j)
    && (j > 0 ==> c[j] >= t.numRegular)
    && if j + 1 < |c| then t.buckets[c[j]].next >= 1 && Extra(t.numRegular, t.buckets[c[j]].next) == c[j + 1]
       else t.buckets[c[j]].next == 0
  }

  ghost predicate ChainOk<V>(t: Table<V>, i: nat, c: seq<nat>)
    requires |t.place| == |t.buckets|
  {
    |c| >= 1 && c[0] == i && forall j :: 0 <= j < |c| ==> LinkOk(t, i, c, j)
  }

  predicate Empty<V>(b: Bucket<V>) {
    b.next == 0 && forall s :: 0 <= s < |b.slots| ==> b.slots[s].key == INVALID_KEY
  }

  /** A bucket is where it is said to be; a free one is empty. */
  predicate PlaceOk<V>(t: Table<V>, b: nat)
    requires b < |t.buckets| == |t.place|
  {
    match t.place[b]
    case InChain(i, j) => i < |t.chains| && j < |t.chains[i]| && t.chains[i][j] == b
    case Free(f) =>
      f < |t.freeList| && t.freeList[f] >= 1 && b == Extra(t.numRegular, t.freeList[f]) && Empty(t.buckets[b])
  }

  predicate FreeOk<V>(t: Table<V>, f: nat)
    requires f < |t.freeList|
  {
    t.freeList[f] >= 1 && Extra(t.numRegular, t.freeList[f]) < |t.place|
    && t.place[Extra(t.numRegular, t.freeList[f])] == Free(f)
  }

  /** Every bucket is in exactly one chain or once in the free list. */
  ghost predicate Shape<V>(t: Table<V>) {
    && 1 <= t.numRegular <= |t.buckets| == |t.place| && |t.chains| == t.numRegular
    && (forall b :: 0 <= b < |t.buckets| ==> |t.buckets[b].slots| == kSlotsPerBucket)
    && (forall i :: 0 <= i < t.numRegular ==> ChainOk(t, i, t.chains[i]))
    && (forall f :: 0 <= f < |t.freeList| ==> FreeOk(t, f))
    && (forall b :: 0 <= b < |t.buckets| ==> PlaceOk(t, b))
  }

  /** Slot `s` of the `j`-th bucket of chain `i`. */
  ghost predicate IsSlot<V>(t: Table<V>, i: nat, j: nat, s: nat) {
    i < |t.chains| && j < |t.chains[i]| && t.chains[i][j] < |t.buckets| && s < |t.buckets[t.chains[i][j]].slots|
  }

  ghost function SlotAt<V>(t: Table<V>, i: nat, j: nat, s: nat): Slot<V>
    requires IsSlot(t, i, j, s)
  {
    t.buckets[t.chains[i][j]].slots[s]
  }

  lemma {:induction false} ShapeChain<V>(t: Table<V>, i: nat)
    requires Shape(t) && i < t.numRegular
    ensures i < |t.chains| && |t.chains[i]| >= 1 && t.chains[i][0] == i && i < |t.buckets|
    ensures forall j :: 0 <= j < |t.chains[i]| ==>
              t.chains[i][j] < |t.buckets| && |t.buckets[t.chains[i][j]].slots| == kSlotsPerBucket
  {
    assert ChainOk(t, i, t.chains[i]);
    forall j | 0 <= j < |t.chains[i]|
      ensures t.chains[i][j] < |t.buckets| && |t.buckets[t.chains[i][j]].slots| == kSlotsPerBucket
    {
      assert LinkOk(t, i, t.chains[i], j);
    }
  }

  lemma {:induction false} ShapeLink<V>(t: Table<V>, i: nat, j: nat)
    requires Shape(t) && i < t.numRegular && i < |t.chains| && j < |t.chains[i]|
    ensures LinkOk(t, i, t.chains[i], j)
  {
    assert ChainOk(t, i, t.chains[i]);
  }

  // What the chains hold

  ghost predicate SlotOk<V>(x: Slot<V>, home: Key -> nat, m: map<Key, V>, at: map<Key, (nat, nat)>, i: nat, j: nat,
                            s: nat) {
    x.key != INVALID_KEY ==>
      home(x.key) == i && x.key in m && m[x.key] == x.value && x.key in at && at[x.key] == (j, s)
  }

  ghost predicate KeyOk<V>(t: Table<V>, home: Key -> nat, at: map<Key, (nat, nat)>, k: Key) {
    k != INVALID_KEY && k in at && IsSlot(t, home(k), at[k].0, at[k].1) && SlotAt(t, home(k), at[k].0, at[k].1).key == k
  }

  /** The chains hold exactly the map: each key once, in the chain of its hash. */
  ghost predicate Holds<V>(t: Table<V>, home: Key -> nat, m: map<Key, V>, at: map<Key, (nat, nat)>) {
    && (forall i: nat, j: nat, s: nat :: IsSlot(t, i, j, s) ==> SlotOk(SlotAt(t, i, j, s), home, m, at, i, j, s))
    && (forall k :: k in m ==> KeyOk(t, home, at, k))
  }

  // Writing a slot

  function Written<V>(t: Table<V>, b: nat, s: nat, x: Slot<V>): Table<V>
    requires b < |t.buckets| && s < |t.buckets[b].slots|
  {
    t.(buckets := t.buckets[b := t.buckets[b].(slots := t.buckets[b].slots[s := x])])
  }

  lemma {:induction false} WrittenShape<V>(t: Table<V>, i: nat, p: nat, s: nat, x: Slot<V>)
    requires Shape(t) && i < t.numRegular && IsSlot(t, i, p, s)
    ensures Shape(Written(t, t.chains[i][p], s, x))
  {
    var b := t.chains[i][p];
    var w := Written(t, b, s, x);
    ShapeLink(t, i, p);
    forall k | 0 <= k < t.numRegular ensures ChainOk(w, k, w.chains[k]) {
      forall j | 0 <= j < |w.chains[k]| ensures LinkOk(w, k, w.chains[k], j) { ShapeLink(t, k, j); }
      ShapeChain(t, k);
    }
    forall f | 0 <= f < |w.freeList| ensures FreeOk(w, f) { assert FreeOk(t, f); }
    forall c | 0 <= c < |w.buckets| ensures PlaceOk(w, c) { assert PlaceOk(t, c); }
  }

  lemma {:induction false} WrittenSlot<V>(t: Table<V>, i: nat, p: nat, s: nat, x: Slot<V>, k: nat, j: nat, r: nat)
    requires Shape(t) && i < t.numRegular && IsSlot(t, i, p, s)
    ensures var w := Written(t, t.chains[i][p], s, x);
            && (IsSlot(w, k, j, r) <==> IsSlot(t, k, j, r))
            && (IsSlot(t, k, j, r) ==>
                 SlotAt(w, k, j, r) == if (k, j, r) == (i, p, s) then x else SlotAt(t, k, j, r))
  {
    if IsSlot(t, k, j, r) {
      ShapeLink(t, i, p);
      ShapeLink(t, k, j);
    }
  }

  /** Writing a key's own slot, or an empty slot for a key that is not there, sets the key in the map. */
  lemma {:induction false} WrittenHolds<V>(t: Table<V>, home: Key -> nat, m: map<Key, V>, at: map<Key, (nat, nat)>,
                                           i: nat, p: nat, s: nat, x: Slot<V>)
    requires Shape(t) && Holds(t, home, m, at) && i < t.numRegular && IsSlot(t, i, p, s)
    requires x.key != INVALID_KEY && home(x.key) == i
    requires SlotAt(t, i, p, s).key == x.key || (SlotAt(t, i, p, s).key == INVALID_KEY && x.key !in m)
    ensures Holds(Written(t, t.chains[i][p], s, x), home, m[x.key := x.value], at[x.key := (p, s)])
  {
    var w := Written(t, t.chains[i][p], s, x);
    var m2, at2 := m[x.key := x.value], at[x.key := (p, s)];
    assert SlotOk(SlotAt(t, i, p, s), home, m, at, i, p, s);
    forall k: nat, j: nat, r: nat | IsSlot(w, k, j, r)
      ensures SlotOk(SlotAt(w, k, j, r), home, m2, at2, k, j, r)
    {
      WrittenSlot(t, i, p, s, x, k, j, r);
      assert SlotOk(SlotAt(t, k, j, r), home, m, at, k, j, r);
    }
    forall k | k in m2 ensures KeyOk(w, home, at2, k) {
      if k == x.key {
        WrittenSlot(t, i, p, s, x, i, p, s);
      } else {
        assert KeyOk(t, home, at, k);
        WrittenSlot(t, i, p, s, x, home(k), at[k].0, at[k].1);
      }
    }
  }

  // Growing a chain

  function Grown<V>(t: Table<V>, i: nat): Table<V>
    requires |t.freeList| >= 1 && i < |t.chains| && |t.chains[i]| >= 1 && t.chains[i][|t.chains[i]| - 1] < |t.buckets|
    requires var e := t.freeList[|t.freeList| - 1]; Extra(t.numRegular, e) < |t.place|
  {
    var n := |t.freeList| - 1;
    var e, last := t.freeList[n], t.chains[i][|t.chains[i]| - 1];
    var b := Extra(t.numRegular, e);
    t.(freeList := t.freeList[..n], buckets := t.buckets[last := t.buckets[last].(next := e)],
       chains := t.chains[i := t.chains[i] + [b]], place := t.place[b := InChain(i, |t.chains[i]|)])
  }

  ghost predicate CanGrow<V>(t: Table<V>, i: nat) {
    Shape(t) && i < t.numRegular && t.freeList != []
  }

  lemma {:induction false} GrownDefined<V>(t: Table<V>, i: nat)
    requires CanGrow(t, i)
    ensures |t.freeList| >= 1 && i < |t.chains| && |t.chains[i]| >= 1
    ensures t.chains[i][|t.chains[i]| - 1] < |t.buckets|
    ensures var e := t.freeList[|t.freeList| - 1];
            e >= 1 && Extra(t.numRegular, e) < |t.place| == |t.buckets| && Empty(t.buckets[Extra(t.numRegular, e)])
            && t.place[Extra(t.numRegular, e)] == Free(|t.freeList| - 1)
  {
    ShapeChain(t, i);
    assert FreeOk(t, |t.freeList| - 1);
    assert PlaceOk(t, Extra(t.numRegular, t.freeList[|t.freeList| - 1]));
  }

  lemma {:induction false} GrownShape<V>(t: Table<V>, i: nat)
    requires CanGrow(t, i)
    ensures |t.freeList| >= 1 && i < |t.chains| && |t.chains[i]| >= 1
    ensures t.chains[i][|t.chains[i]| - 1] < |t.buckets|
    ensures Extra(t.numRegular, t.freeList[|t.freeList| - 1]) < |t.place|
    ensures Shape(Grown(t, i))
  {
    GrownDefined(t, i);
    var g := Grown(t, i);
    forall k | 0 <= k < t.numRegular ensures ChainOk(g, k, g.chains[k]) {
      ShapeChain(t, k);
      forall j | 0 <= j < |g.chains[k]| ensures LinkOk(g, k, g.chains[k], j) { GrownLink(t, i, k, j); }
    }
    forall f | 0 <= f < |g.freeList| ensures FreeOk(g, f) { assert FreeOk(t, f); }
    forall b | 0 <= b < |g.buckets| ensures PlaceOk(g, b) {
      assert PlaceOk(t, b);
      ShapeLink(t, i, |t.chains[i]| - 1);
    }
  }

  lemma {:induction false} GrownLink<V>(t: Table<V>, i: nat, k: nat, j: nat)
    requires CanGrow(t, i) && k < t.numRegular
    requires |t.freeList| >= 1 && i < |t.chains| && k < |t.chains| && |t.chains[i]| >= 1
    requires t.chains[i][|t.chains[i]| - 1] < |t.buckets|
    requires Extra(t.numRegular, t.freeList[|t.freeList| - 1]) < |t.place|
    requires j < |Grown(t, i).chains[k]|
    ensures LinkOk(Grown(t, i), k, Grown(t, i).chains[k], j)
  {
    GrownDefined(t, i);
    var last := |t.chains[i]| - 1;
    ShapeLink(t, i, last);
    if j < |t.chains[k]| { ShapeLink(t, k, j); }
  }

  /** Growing a chain adds only empty slots. */
  lemma {:induction false} GrownHolds<V>(t: Table<V>, home: Key -> nat, m: map<Key, V>, at: map<Key, (nat, nat)>,
                                         i: nat)
    requires CanGrow(t, i) && Holds(t, home, m, at)
    requires |t.freeList| >= 1 && i < |t.chains| && |t.chains[i]| >= 1
    requires t.chains[i][|t.chains[i]| - 1] < |t.buckets|
    requires Extra(t.numRegular, t.freeList[|t.freeList| - 1]) < |t.place|
    ensures Holds(Grown(t, i), home, m, at)
    ensures var n := |t.chains[i]|;
            forall s :: 0 <= s < kSlotsPerBucket ==>
              IsSlot(Grown(t, i), i, n, s) && SlotAt(Grown(t, i), i, n, s).key == INVALID_KEY
  {
    GrownDefined(t, i);
    var g := Grown(t, i);
    forall k: nat, j: nat, s: nat | IsSlot(g, k, j, s) ensures SlotOk(SlotAt(g, k, j, s), home, m, at, k, j, s) {
      if k != i || j < |t.chains[i]| { assert SlotOk(SlotAt(t, k, j, s), home, m, at, k, j, s); }
    }
    forall k | k in m ensures KeyOk(g, home, at, k) { assert KeyOk(t, home, at, k); }
  }

  class HashMap<V(0)> {
    const numRegular: nat
    const hash: Key -> nat
    var buckets: seq<Bucket<V>>
    var freeList: seq<nat>
    ghost var chains: seq<seq<nat>>
    ghost var place: seq<Place>
    ghost var m: map<Key, V>
    ghost var at: map<Key, (nat, nat)>     // Chain position and slot of each key

    ghost function Now(): Table<V>
      reads this
    {
      Table(numRegular, buckets, freeList, chains, place)
    }

    /** The regular bucket of a key. */
    function Home(key: Key): nat {
      if numRegular == 0 then 0 else hash(key) % numRegular
    }

    ghost predicate Valid()
      reads this
    {
      Shape(Now()) && Holds(Now(), Home, m, at)
    }

    constructor (numRegular: nat, numExtra: nat, hash: Key -> nat, zero: V)
      requires numRegular >= 1
      ensures Valid() && m == map[] && |freeList| == numExtra
    {
      this.numRegular, this.hash := numRegular, hash;
      var empty := Bucket(0, seq(kSlotsPerBucket, _ => Slot(INVALID_KEY, zero)));
      buckets := seq(numRegular + numExtra, _ => empty);
      freeList := seq(numExtra, i requires 0 <= i < numExtra => i + 1);
      chains := seq(numRegular, i requires 0 <= i < numRegular => [i]);
      place := seq(numRegular + numExtra, b requires 0 <= b < numRegular + numExtra =>
        if b < numRegular then InChain(b, 0) else Free(b - numRegular));
      m, at := map[], map[];
    }

    /** No slot of a chain has this key. */
    ghost predicate NotInChain(i: nat, key: Key)
      reads this
    {
      forall j: nat, s: nat :: IsSlot(Now(), i, j, s) ==> SlotAt(Now(), i, j, s).key != key
    }

    /** Each key in the table is in the chain of the bucket that its hash selects, and the table has its value. */
    lemma {:induction false} InItsChain(i: nat, j: nat, s: nat)
      requires Valid() && IsSlot(Now(), i, j, s) && SlotAt(Now(), i, j, s).key != INVALID_KEY
      ensures numRegular >= 1 && hash(SlotAt(Now(), i, j, s).key) % numRegular == i
      ensures var x := SlotAt(Now(), i, j, s); x.key in m && m[x.key] == x.value
    {
      assert SlotOk(SlotAt(Now(), i, j, s), Home, m, at, i, j, s);
    }

    /** Walk a chain for a slot with this key: `find_item_index`, and with INVALID_KEY the walk of `get_empty`. */
    method FindItemIndex(i: nat, key: Key) returns (r: Option<(nat, nat)>, last: nat, ghost p: nat)
      requires Valid() && i < numRegular
      ensures r.Some? ==> IsSlot(Now(), i, p, r.value.1) && chains[i][p] == r.value.0
                          && SlotAt(Now(), i, p, r.value.1).key == key
      ensures r.None? ==> NotInChain(i, key) && i < |chains| && |chains[i]| >= 1 && last == chains[i][|chains[i]| - 1]
    {
      hide Shape, Holds;
      ShapeChain(Now(), i);
      last, p := i, 0;
      while true
        invariant p < |chains[i]| && chains[i][p] == last
        invariant forall j: nat, s: nat :: IsSlot(Now(), i, j, s) && j < p ==> SlotAt(Now(), i, j, s).key != key
        decreases |chains[i]| - p
      {
        var s := FindInBucket(buckets[last], key);
        ShapeLink(Now(), i, p);
        if s < kSlotsPerBucket { return Some((last, s)), last, p; }
        if buckets[last].next == 0 { return None, last, p; }
        last := Extra(numRegular, buckets[last].next);
        p := p + 1;
      }
    }

    /** `get` */
    method Get(key: Key) returns (r: Option<V>)
      requires Valid() && key != INVALID_KEY
      ensures r == if key in m then Some(m[key]) else None
    {
      var i := Home(key);
      var x, last; ghost var p;
      x, last, p := FindItemIndex(i, key);
      if x.None? {
        assert key in m ==> KeyOk(Now(), Home, at, key);
        return None;
      }
      assert SlotOk(SlotAt(Now(), i, p, x.value.1), Home, m, at, i, p, x.value.1);
      return Some(buckets[x.value.0].slots[x.value.1].value);
    }

    /** `alloc_extra_bucket` behind the last bucket of chain `i`. */
    method AllocExtraBucket(i: nat, last: nat) returns (ok: bool)
      requires Valid() && i < numRegular
      requires i < |chains| && |chains[i]| >= 1 && last == chains[i][|chains[i]| - 1]
      modifies this`freeList, this`buckets, this`chains, this`place
      ensures Valid() && ok == (old(freeList) != [])
      ensures !ok ==> buckets == old(buckets) && freeList == old(freeList) && chains == old(chains)
      ensures ok ==> freeList == old(freeList)[..|old(freeList)| - 1]
      ensures ok ==> last < |buckets| && |chains| == |old(chains)| && |chains[i]| == old(|chains[i]|) + 1
                     && Extra(numRegular, buckets[last].next) == chains[i][|chains[i]| - 1]
                     && forall s :: 0 <= s < kSlotsPerBucket ==>
                          IsSlot(Now(), i, old(|chains[i]|), s)
                          && SlotAt(Now(), i, old(|chains[i]|), s).key == INVALID_KEY
    {
      hide Shape, Holds, IsSlot, SlotAt;
      if freeList == [] { return false; }
      ghost var t := Now();
      assert CanGrow(t, i);
      GrownShape(t, i);
      GrownHolds(t, Home, m, at, i);
      var n := |freeList| - 1;
      var e := freeList[n];
      freeList := freeList[..n];
      buckets := buckets[last := buckets[last].(next := e)];
      ghost var b := Extra(numRegular, e);
      place := place[b := InChain(i, |chains[i]|)];
      chains := chains[i := chains[i] + [b]];
      assert Now() == Grown(t, i);
      return true;
    }

    /** Write a slot of the chain where the key belongs: its own slot, or an empty one if it has none. */
    method WriteSlot(i: nat, b: nat, s: nat, key: Key, value: V, ghost p: nat)
      requires Valid() && key != INVALID_KEY && i == Home(key) && IsSlot(Now(), i, p, s) && chains[i][p] == b
      requires var k := SlotAt(Now(), i, p, s).key; k == key || (k == INVALID_KEY && key !in m)
      modifies this`buckets, this`m, this`at
      ensures Valid() && m == old(m)[key := value]
    {
      assert i < numRegular;
      hide Shape, Holds;
      ghost var t, x := Now(), Slot(key, value);
      WrittenShape(t, i, p, s, x);
      WrittenHolds(t, Home, m, at, i, p, s, x);
      buckets := buckets[b := buckets[b].(slots := buckets[b].slots[s := Slot(key, value)])];
      m, at := m[key := value], at[key := (p, s)];
      assert Now() == Written(t, b, s, x);
    }

    /** `set_nodrain`: the map with the key set, or no change when the chain is full and no bucket is free. */
    method Set(key: Key, value: V) returns (ok: bool)
      requires Valid() && key != INVALID_KEY
      modifies this
      ensures Valid()
      ensures ok ==> m == old(m)[key := value]
      ensures !ok ==> m == old(m) && buckets == old(buckets) && freeList == old(freeList)
      ensures numRegular >= 1
      ensures ok <==> key in old(m) || !old(NotInChain(hash(key) % numRegular, INVALID_KEY)) || old(freeList) != []
      ensures if key in old(m) || !old(NotInChain(hash(key) % numRegular, INVALID_KEY)) then freeList == old(freeList)
              else ok ==> freeList == old(freeList)[..|old(freeList)| - 1]
    {
      var i := Home(key);
      assert i < numRegular;
      var x, last; ghost var p;
      x, last, p := FindItemIndex(i, key);
      if x.Some? {
        assert SlotOk(SlotAt(Now(), i, p, x.value.1), Home, m, at, i, p, x.value.1);
        WriteSlot(i, x.value.0, x.value.1, key, value, p);
        return true;
      }
      assert key in m ==> KeyOk(Now(), Home, at, key);
      hide Shape, Holds;
      x, last, p := FindItemIndex(i, INVALID_KEY);
      if x.Some? {
        WriteSlot(i, x.value.0, x.value.1, key, value, p);
        return true;
      }
      p := |chains[i]|;
      ok := AllocExtraBucket(i, last);
      if ok { WriteSlot(i, Extra(numRegular, buckets[last].next), 0, key, value, p); }
    }
  }

  method FindInBucket<V>(b: Bucket<V>, key: Key) returns (s: nat)
    requires |b.slots| == kSlotsPerBucket
    ensures s <= kSlotsPerBucket && (s < kSlotsPerBucket ==> b.slots[s].key == key)
    ensures forall k :: 0 <= k < s ==> b.slots[k].key != key
  {
    s := 0;
    while s < kSlotsPerBucket && b.slots[s].key != key
      invariant s <= kSlotsPerBucket && forall k :: 0 <= k < s ==> b.slots[k].key != key
    {
      s := s + 1;
    }
  }
}
