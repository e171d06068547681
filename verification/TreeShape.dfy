/**
 * What a B+ tree holds: the shape of its nodes, its entries in order, and how
 * they change when a child is split or an entry is put into one child.
 */
module TreeShape {
  import opened Sequences

  const MIN_DEGREE: nat := 5                 // BPLUSTREE_MIN_DEGREE
  const MAX_KEYS: nat := 2 * MIN_DEGREE - 1
  const MAX_CHILDREN: nat := 2 * MIN_DEGREE

  type uint64 = n: nat | n < 0x1_0000_0000_0000_0000

  datatype Entry = Entry(key: uint64, value: uint64)

  /** A tree of nodes, each under the number it was allocated with. */
  datatype Tree =
    | Leaf(id: nat, es: seq<Entry>)
    | Inner(id: nat, keys: seq<uint64>, kids: seq<Tree>)

  // Sorted entries

  predicate Sorted(s: seq<Entry>) {
    forall i, j :: 0 <= i < j < |s| ==> s[i].key < s[j].key
  }

  predicate Below(s: seq<Entry>, k: uint64) {
    forall i :: 0 <= i < |s| ==> s[i].key < k
  }

  predicate AtLeast(s: seq<Entry>, k: uint64) {
    forall i :: 0 <= i < |s| ==> k <= s[i].key
  }

  predicate HasKey(s: seq<Entry>, k: uint64) {
    exists i :: 0 <= i < |s| && s[i].key == k
  }

  /** Put a value under a key into sorted entries. */
  function Put(s: seq<Entry>, k: uint64, v: uint64): seq<Entry> {
    if s == [] || k < s[0].key then [Entry(k, v)] + s
    else if s[0].key == k then [Entry(k, v)] + s[1..]
    else [s[0]] + Put(s[1..], k, v)
  }

  /** `Put` of a new key between the entries below it and those above it. */
  lemma {:induction false} PutNew(a: seq<Entry>, b: seq<Entry>, k: uint64, v: uint64)
    requires Below(a, k) && AtLeast(b, k) && !HasKey(b, k)
    ensures Put(a + b, k, v) == a + [Entry(k, v)] + b
  {
    if a == [] {
      assert a + b == b;
      if b != [] { assert b[0].key != k; }
    } else {
      assert (a + b)[1..] == a[1..] + b;
      PutNew(a[1..], b, k, v);
      assert a == [a[0]] + a[1..];
    }
  }

  /** `Put` of a key that is there replaces its value. */
  lemma {:induction false} PutOver(s: seq<Entry>, i: nat, v: uint64)
    requires Sorted(s) && i < |s|
    ensures Put(s, s[i].key, v) == s[i := Entry(s[i].key, v)]
  {
    if i > 0 {
      PutOver(s[1..], i - 1, v);
    }
  }

  /** `Put` acts on the middle when the key belongs there. */
  lemma {:induction false} PutMiddle(a: seq<Entry>, m: seq<Entry>, b: seq<Entry>, k: uint64, v: uint64)
    requires Below(a, k) && AtLeast(b, k) && !HasKey(b, k)
    ensures Put(a + m + b, k, v) == a + Put(m, k, v) + b
  {
    var s := a + m + b;
    if a != [] {
      PutMiddle(a[1..], m, b, k, v);
      assert s[1..] == a[1..] + m + b;
    } else {
      PutFront(m, b, k, v);
      assert s == m + b && a + Put(m, k, v) == Put(m, k, v);
    }
  }

  lemma {:induction false} PutFront(m: seq<Entry>, b: seq<Entry>, k: uint64, v: uint64)
    requires AtLeast(b, k) && !HasKey(b, k)
    ensures Put(m + b, k, v) == Put(m, k, v) + b
  {
    if m == [] {
      assert m + b == b;
      if b != [] { assert b[0].key != k; }
    } else {
      assert (m + b)[1..] == m[1..] + b;
      if m[0].key < k { PutFront(m[1..], b, k, v); }
    }
  }

  lemma {:induction false} PutHas(s: seq<Entry>, k: uint64, v: uint64, e: Entry)
    requires Sorted(s)
    ensures e in Put(s, k, v) <==> e == Entry(k, v) || (e in s && e.key != k)
  {
    if s == [] || k < s[0].key {
    } else if s[0].key == k {
      assert s == [s[0]] + s[1..];
    } else {
      PutHas(s[1..], k, v, e);
      assert s == [s[0]] + s[1..];
    }
  }

  lemma {:induction false} PutSorted(s: seq<Entry>, k: uint64, v: uint64)
    requires Sorted(s)
    ensures Sorted(Put(s, k, v))
  {
    if s != [] && s[0].key < k {
      PutSorted(s[1..], k, v);
      forall i | 0 <= i < |Put(s[1..], k, v)| ensures s[0].key < Put(s[1..], k, v)[i].key {
        PutHas(s[1..], k, v, Put(s[1..], k, v)[i]);
      }
    }
  }

  /** Putting a key that is not smaller leaves the first key alone. */
  lemma {:induction false} PutFirst(s: seq<Entry>, k: uint64, v: uint64)
    ensures |Put(s, k, v)| >= 1
    ensures s != [] && s[0].key <= k ==> Put(s, k, v)[0].key == s[0].key
  {
  }

  // The map that sorted entries stand for

  function ToMap(s: seq<Entry>): map<uint64, uint64> {
    if s == [] then map[] else ToMap(s[..|s| - 1])[s[|s| - 1].key := s[|s| - 1].value]
  }

  lemma {:induction false} ToMapHas(s: seq<Entry>, k: uint64)
    requires Sorted(s)
    ensures k in ToMap(s) <==> HasKey(s, k)
    ensures k in ToMap(s) ==> Entry(k, ToMap(s)[k]) in s
    ensures forall i :: 0 <= i < |s| && s[i].key == k ==> k in ToMap(s) && ToMap(s)[k] == s[i].value
  {
    if s != [] {
      ToMapHas(s[..|s| - 1], k);
      assert s == s[..|s| - 1] + [s[|s| - 1]];
    }
  }

  lemma {:induction false} PutMap(s: seq<Entry>, k: uint64, v: uint64)
    requires Sorted(s)
    ensures ToMap(Put(s, k, v)) == ToMap(s)[k := v]
  {
    var p := Put(s, k, v);
    PutSorted(s, k, v);
    forall x ensures x in ToMap(p) <==> x in ToMap(s)[k := v]
             ensures x in ToMap(p) ==> ToMap(p)[x] == ToMap(s)[k := v][x] {
      ToMapHas(s, x);
      ToMapHas(p, x);
      if x in ToMap(p) { PutHas(s, k, v, Entry(x, ToMap(p)[x])); }
      if x in ToMap(s) { PutHas(s, k, v, Entry(x, ToMap(s)[x])); }
      PutHas(s, k, v, Entry(k, v));
    }
  }

  // Leaves and entries of a tree

  function Leaves(t: Tree): seq<Tree> {
    if t.Leaf? then [t] else LeavesAll(t.kids)
  }

  function LeavesAll(kids: seq<Tree>): seq<Tree> {
    if kids == [] then [] else Leaves(kids[0]) + LeavesAll(kids[1..])
  }

  function Flat(ls: seq<Tree>): seq<Entry> {
    if ls == [] then [] else (if ls[0].Leaf? then ls[0].es else []) + Flat(ls[1..])
  }

  function Entries(t: Tree): seq<Entry> { Flat(Leaves(t)) }

  function EntriesAll(kids: seq<Tree>): seq<Entry> { Flat(LeavesAll(kids)) }

  lemma {:induction false} FlatConcat(a: seq<Tree>, b: seq<Tree>)
    ensures Flat(a + b) == Flat(a) + Flat(b)
  {
    if a == [] {
      assert a + b == b;
    } else {
      FlatConcat(a[1..], b);
      TailOfAppend(a, b);
      var head := if a[0].Leaf? then a[0].es else [];
      assert Flat(a) == head + Flat(a[1..]) && Flat(a + b) == head + Flat(a[1..] + b);
      AppendAssoc(head, Flat(a[1..]), Flat(b));
    }
  }

  lemma {:induction false} LeavesConcat(a: seq<Tree>, b: seq<Tree>)
    ensures LeavesAll(a + b) == LeavesAll(a) + LeavesAll(b)
  {
    hide Leaves;
    if a == [] {
      assert a + b == b;
    } else {
      LeavesConcat(a[1..], b);
      TailOfAppend(a, b);
      assert LeavesAll(a) == Leaves(a[0]) + LeavesAll(a[1..]);
      assert LeavesAll(a + b) == Leaves(a[0]) + LeavesAll(a[1..] + b);
      AppendAssoc(Leaves(a[0]), LeavesAll(a[1..]), LeavesAll(b));
    }
  }

  lemma {:induction false} EntriesConcat(a: seq<Tree>, b: seq<Tree>)
    ensures EntriesAll(a + b) == EntriesAll(a) + EntriesAll(b)
  {
    hide LeavesAll, Flat;
    LeavesConcat(a, b);
    FlatConcat(LeavesAll(a), LeavesAll(b));
  }

  lemma {:induction false} LeafEntries(t: Tree)
    requires t.Leaf?
    ensures Entries(t) == t.es
  {
    assert Flat(Leaves(t)[1..]) == [];
  }

  lemma {:induction false} EmptyKids()
    ensures LeavesAll([]) == [] && EntriesAll([]) == []
  {
  }

  lemma {:induction false} LeavesOne(t: Tree)
    ensures LeavesAll([t]) == Leaves(t) && EntriesAll([t]) == Entries(t)
  {
    assert [t][1..] == [];
  }

  /** Leaves and entries around the `i`-th child. */
  lemma {:induction false} LeavesAround(kids: seq<Tree>, i: nat)
    requires i < |kids|
    ensures LeavesAll(kids) == LeavesAll(kids[..i]) + Leaves(kids[i]) + LeavesAll(kids[i + 1..])
    ensures EntriesAll(kids) == EntriesAll(kids[..i]) + Entries(kids[i]) + EntriesAll(kids[i + 1..])
  {
    hide LeavesAll, EntriesAll, Leaves, Flat, Entries;
    assert kids == kids[..i] + [kids[i]] + kids[i + 1..];
    LeavesConcat(kids[..i] + [kids[i]], kids[i + 1..]);
    LeavesConcat(kids[..i], [kids[i]]);
    EntriesConcat(kids[..i] + [kids[i]], kids[i + 1..]);
    EntriesConcat(kids[..i], [kids[i]]);
    LeavesOne(kids[i]);
  }

  // Well-formed trees

  predicate Starts(k: uint64, s: seq<Entry>) {
    s != [] && s[0].key == k
  }

  /** Height `h`, at least `min` keys here and MIN_DEGREE - 1 below, and every separator the first key of the child
      to its right. */
  predicate WellFormed(t: Tree, h: nat, min: nat)
    decreases h
  {
    if h == 0 then t.Leaf? && min <= |t.es| <= MAX_KEYS
    else
      && t.Inner?
      && min <= |t.keys| <= MAX_KEYS
      && |t.kids| == |t.keys| + 1
      && (forall i :: 0 <= i < |t.kids| ==> WellFormed(t.kids[i], h - 1, MIN_DEGREE - 1))
      && (forall i :: 0 <= i < |t.keys| ==> Starts(t.keys[i], Entries(t.kids[i + 1])))
  }

  lemma {:induction false} NotEmpty(t: Tree, h: nat, min: nat)
    requires WellFormed(t, h, min) && min >= 1
    ensures Entries(t) != [] && Leaves(t) != []
  {
    if h == 0 {
      LeafEntries(t);
    } else {
      NotEmpty(t.kids[0], h - 1, MIN_DEGREE - 1);
      LeavesAround(t.kids, 0);
    }
  }

  predicate Full(t: Tree) {
    if t.Leaf? then |t.es| == MAX_KEYS else |t.keys| == MAX_KEYS
  }

  /** Child `i` is where a key belongs when it lies between the separators around it. */
  predicate Between(t: Tree, i: nat, k: uint64)
    requires t.Inner? && |t.kids| == |t.keys| + 1
  {
    && i < |t.kids|
    && (i > 0 ==> t.keys[i - 1] <= k)
    && (i < |t.keys| ==> k < t.keys[i])
  }

  /** Everything left of the child is smaller and everything right of it larger. */
  lemma {:induction false} BetweenMeans(t: Tree, h: nat, min: nat, i: nat, k: uint64)
    requires h > 0 && WellFormed(t, h, min) && Sorted(Entries(t)) && Between(t, i, k)
    ensures Entries(t) == EntriesAll(t.kids[..i]) + Entries(t.kids[i]) + EntriesAll(t.kids[i + 1..])
    ensures Below(EntriesAll(t.kids[..i]), k) && AtLeast(EntriesAll(t.kids[i + 1..]), k)
    ensures !HasKey(EntriesAll(t.kids[i + 1..]), k)
    ensures Sorted(Entries(t.kids[i]))
  {
    hide LeavesAll, Flat;
    LeavesAround(t.kids, i);
    var a, m, b := EntriesAll(t.kids[..i]), Entries(t.kids[i]), EntriesAll(t.kids[i + 1..]);
    SortedParts(a, m, b);
    EmptyKids();
    assert t.kids[..0] == [] && t.kids[|t.kids|..] == [];
    if i > 0 { assert Starts(t.keys[i - 1], m); }
    if i < |t.keys| {
      LeavesAround(t.kids[i + 1..], 0);
      assert t.kids[i + 1..][..0] == [];
      assert Starts(t.keys[i], Entries(t.kids[i + 1]));
      assert b[0] == Entries(t.kids[i + 1])[0];
    }
  }

  lemma {:induction false} SortedParts(a: seq<Entry>, m: seq<Entry>, b: seq<Entry>)
    requires Sorted(a + m + b)
    ensures Sorted(a) && Sorted(m) && Sorted(b)
    ensures m != [] ==> Below(a, m[0].key)
  {
    var s := a + m + b;
    forall i, j | 0 <= i < j < |a| ensures a[i].key < a[j].key { assert a[i] == s[i] && a[j] == s[j]; }
    forall i, j | 0 <= i < j < |m| ensures m[i].key < m[j].key { assert m[i] == s[|a| + i] && m[j] == s[|a| + j]; }
    forall i, j | 0 <= i < j < |b| ensures b[i].key < b[j].key {
      assert b[i] == s[|a + m| + i] && b[j] == s[|a + m| + j];
    }
    if m != [] {
      forall i | 0 <= i < |a| ensures a[i].key < m[0].key { assert a[i] == s[i] && m[0] == s[|a|]; }
    }
  }

  // One child replaced

  function Replaced(t: Tree, i: nat, kid: Tree): Tree
    requires t.Inner? && i < |t.kids|
  {
    t.(kids := t.kids[i := kid])
  }

  lemma {:induction false} ReplacedLeaves(t: Tree, i: nat, kid: Tree)
    requires t.Inner? && i < |t.kids|
    ensures Leaves(t) == LeavesAll(t.kids[..i]) + Leaves(t.kids[i]) + LeavesAll(t.kids[i + 1..])
    ensures Leaves(Replaced(t, i, kid)) == LeavesAll(t.kids[..i]) + Leaves(kid) + LeavesAll(t.kids[i + 1..])
    ensures Entries(Replaced(t, i, kid)) == EntriesAll(t.kids[..i]) + Entries(kid) + EntriesAll(t.kids[i + 1..])
  {
    hide LeavesAll, Flat;
    LeavesAround(t.kids, i);
    LeavesAround(Replaced(t, i, kid).kids, i);
    assert t.kids[i := kid][..i] == t.kids[..i];
    assert t.kids[i := kid][i + 1..] == t.kids[i + 1..];
  }

  /** Putting an entry into the child where its key belongs puts it into the tree and keeps the tree well formed. */
  lemma {:induction false} PutIntoChild(t: Tree, h: nat, min: nat, i: nat, kid: Tree, k: uint64, v: uint64)
    requires h > 0 && WellFormed(t, h, min) && Sorted(Entries(t)) && Between(t, i, k)
    requires WellFormed(kid, h - 1, MIN_DEGREE - 1) && Entries(kid) == Put(Entries(t.kids[i]), k, v)
    ensures WellFormed(Replaced(t, i, kid), h, min)
    ensures Entries(Replaced(t, i, kid)) == Put(Entries(t), k, v)
  {
    hide LeavesAll, EntriesAll, Flat, Leaves, Put;
    BetweenMeans(t, h, min, i, k);
    PutFirst(Entries(t.kids[i]), k, v);
    ReplacedLeaves(t, i, kid);
    PutMiddle(EntriesAll(t.kids[..i]), Entries(t.kids[i]), EntriesAll(t.kids[i + 1..]), k, v);
    if i > 0 {
      assert Starts(t.keys[i - 1], Entries(t.kids[i]));
      assert Starts(t.keys[i - 1], Entries(kid));
    }
  }

  // A full child split in two

  function LeftHalf(t: Tree): Tree
    requires Full(t) && (t.Inner? ==> |t.kids| == MAX_CHILDREN)
  {
    if t.Leaf? then t.(es := t.es[..MIN_DEGREE - 1])
    else t.(keys := t.keys[..MIN_DEGREE - 1], kids := t.kids[..MIN_DEGREE])
  }

  function RightHalf(t: Tree, id: nat): Tree
    requires Full(t) && (t.Inner? ==> |t.kids| == MAX_CHILDREN)
  {
    if t.Leaf? then Leaf(id, t.es[MIN_DEGREE - 1..])
    else Inner(id, t.keys[MIN_DEGREE..], t.kids[MIN_DEGREE..])
  }

  function Separator(t: Tree): uint64
    requires Full(t)
  {
    if t.Leaf? then t.es[MIN_DEGREE - 1].key else t.keys[MIN_DEGREE - 1]
  }

  /** Parent `t` with its full `i`-th child split, the new sibling numbered `id`. */
  function SplitChild(t: Tree, i: nat, id: nat): Tree
    requires t.Inner? && |t.kids| == |t.keys| + 1 && i < |t.kids|
    requires Full(t.kids[i]) && (t.kids[i].Inner? ==> |t.kids[i].kids| == MAX_CHILDREN)
  {
    var kid := t.kids[i];
    Inner(t.id, t.keys[..i] + [Separator(kid)] + t.keys[i..],
          t.kids[..i] + [LeftHalf(kid), RightHalf(kid, id)] + t.kids[i + 1..])
  }

  /** Splitting keeps the entries in order, and both halves are well formed. */
  lemma {:induction false} HalvesOk(t: Tree, h: nat, min: nat, id: nat)
    requires WellFormed(t, h, min) && Full(t)
    ensures WellFormed(LeftHalf(t), h, MIN_DEGREE - 1) && WellFormed(RightHalf(t, id), h, MIN_DEGREE - 1)
    ensures Entries(t) == Entries(LeftHalf(t)) + Entries(RightHalf(t, id))
    ensures h > 0 ==> Leaves(t) == Leaves(LeftHalf(t)) + Leaves(RightHalf(t, id))
    ensures Starts(Separator(t), Entries(RightHalf(t, id)))
    ensures Entries(LeftHalf(t)) != [] && Entries(LeftHalf(t))[0] == Entries(t)[0]
  {
    var l, r := LeftHalf(t), RightHalf(t, id);
    if h == 0 {
      LeafEntries(t);
      LeafEntries(l);
      LeafEntries(r);
      assert t.es == l.es + r.es;
    } else {
      assert t.kids == l.kids + r.kids;
      LeavesConcat(l.kids, r.kids);
      EntriesConcat(l.kids, r.kids);
      forall i | 0 <= i < |r.keys| ensures Starts(r.keys[i], Entries(r.kids[i + 1])) {
        assert r.keys[i] == t.keys[i + MIN_DEGREE] && r.kids[i + 1] == t.kids[i + MIN_DEGREE + 1];
      }
      assert Starts(t.keys[MIN_DEGREE - 1], Entries(t.kids[MIN_DEGREE]));
      LeavesAround(r.kids, 0);
      assert r.kids[..0] == [];
      assert WellFormed(l, h, MIN_DEGREE - 1);
      NotEmpty(l, h, MIN_DEGREE - 1);
    }
  }

  lemma {:induction false} SplitLeaves(t: Tree, i: nat, id: nat)
    requires t.Inner? && |t.kids| == |t.keys| + 1 && i < |t.kids|
    requires Full(t.kids[i]) && (t.kids[i].Inner? ==> |t.kids[i].kids| == MAX_CHILDREN)
    ensures var l, r := LeftHalf(t.kids[i]), RightHalf(t.kids[i], id);
            var a, b := t.kids[..i], t.kids[i + 1..];
            && Leaves(SplitChild(t, i, id)) == LeavesAll(a) + (Leaves(l) + Leaves(r)) + LeavesAll(b)
            && Entries(SplitChild(t, i, id)) == EntriesAll(a) + (Entries(l) + Entries(r)) + EntriesAll(b)
  {
    hide LeavesAll, Flat;
    var l, r := LeftHalf(t.kids[i]), RightHalf(t.kids[i], id);
    var a, b := t.kids[..i], t.kids[i + 1..];
    LeavesConcat(a + [l, r], b);
    LeavesConcat(a, [l, r]);
    LeavesConcat([l], [r]);
    EntriesConcat(a + [l, r], b);
    EntriesConcat(a, [l, r]);
    EntriesConcat([l], [r]);
    assert [l] + [r] == [l, r];
    LeavesOne(l);
    LeavesOne(r);
  }

  /** Splitting a full child of a node with room keeps the tree well formed and its entries untouched. */
  lemma {:induction false} SplitOk(t: Tree, h: nat, min: nat, i: nat, id: nat)
    requires h > 0 && WellFormed(t, h, min) && !Full(t)
    requires i < |t.kids| && WellFormed(t.kids[i], h - 1, MIN_DEGREE - 1) && Full(t.kids[i])
    ensures WellFormed(SplitChild(t, i, id), h, min + 1)
    ensures Entries(SplitChild(t, i, id)) == Entries(t)
  {
    hide LeavesAll, Flat, LeftHalf, RightHalf, Separator;
    var kid, u := t.kids[i], SplitChild(t, i, id);
    HalvesOk(kid, h - 1, MIN_DEGREE - 1, id);
    SplitLeaves(t, i, id);
    LeavesAround(t.kids, i);
    forall j | 0 <= j < |u.kids| ensures WellFormed(u.kids[j], h - 1, MIN_DEGREE - 1) {
      assert u.kids[j] == if j < i then t.kids[j] else if j == i then LeftHalf(kid)
                          else if j == i + 1 then RightHalf(kid, id) else t.kids[j - 1];
    }
    forall j | 0 <= j < |u.keys| ensures Starts(u.keys[j], Entries(u.kids[j + 1])) {
      assert u.keys[j] == if j < i then t.keys[j] else if j == i then Separator(kid) else t.keys[j - 1];
      assert u.kids[j + 1] == if j + 1 < i then t.kids[j + 1] else if j + 1 == i then LeftHalf(kid)
                              else if j == i then RightHalf(kid, id) else t.kids[j];
      if j < i { assert Starts(t.keys[j], Entries(t.kids[j + 1])); }
      if j > i { assert Starts(t.keys[j - 1], Entries(t.kids[j])); }
    }
  }

  /** A separator is a key in the tree, so a key that is not there differs from it. */
  lemma {:induction false} SeparatorIsLive(t: Tree, h: nat, min: nat, i: nat)
    requires h > 0 && WellFormed(t, h, min) && i < |t.keys|
    ensures HasKey(Entries(t), t.keys[i])
  {
    LeavesAround(t.kids, i + 1);
    assert Starts(t.keys[i], Entries(t.kids[i + 1]));
    assert Entries(t)[|EntriesAll(t.kids[..i + 1])|].key == t.keys[i];
  }

  /** Whether a key is in the tree is decided by the child where it belongs. */
  lemma {:induction false} KeyInChild(t: Tree, h: nat, min: nat, i: nat, k: uint64)
    requires h > 0 && WellFormed(t, h, min) && Sorted(Entries(t)) && Between(t, i, k)
    ensures HasKey(Entries(t), k) <==> HasKey(Entries(t.kids[i]), k)
  {
    hide LeavesAll, Flat;
    BetweenMeans(t, h, min, i, k);
    var a, m := EntriesAll(t.kids[..i]), Entries(t.kids[i]);
    if HasKey(m, k) {
      var j :| 0 <= j < |m| && m[j].key == k;
      assert Entries(t)[|a| + j].key == k;
    }
  }

  /** After a split, comparing a new key with the new separator by strict `<` finds the half where it belongs: the
      separator is a key of the tree. */
  lemma {:induction false} SplitBetween(t: Tree, h: nat, min: nat, i: nat, id: nat, k: uint64)
    requires h > 0 && WellFormed(t, h, min) && !Full(t)
    requires i < |t.kids| && WellFormed(t.kids[i], h - 1, MIN_DEGREE - 1) && Full(t.kids[i])
    requires Between(t, i, k) && !HasKey(Entries(t), k)
    ensures var u := SplitChild(t, i, id); Between(u, if u.keys[i] < k then i + 1 else i, k)
  {
    var u := SplitChild(t, i, id);
    SplitOk(t, h, min, i, id);
    SeparatorIsLive(u, h, min + 1, i);
    assert u.keys[i] != k;
    assert i > 0 ==> u.keys[i - 1] == t.keys[i - 1];
    assert i < |t.keys| ==> u.keys[i + 1] == t.keys[i];
  }

  /** A leaf scan that stops without a match. */
  lemma {:induction false} LeafMiss(t: Tree, i: nat, k: uint64)
    requires t.Leaf? && Sorted(t.es) && i <= |t.es| && Below(t.es[..i], k) && (i < |t.es| ==> k < t.es[i].key)
    ensures !HasKey(t.es, k)
  {
    forall j | 0 <= j < |t.es| ensures t.es[j].key != k {
      if j < i { assert t.es[..i][j] == t.es[j]; }
    }
  }
}
