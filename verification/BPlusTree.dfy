/**
 * The B+ tree: every operation acts on the map the tree stands for, over any
 * run of operations.
 */
module BPlusTree {
  import opened Options
  import opened TreeShape
  import opened TreeNodes

  /** The first `limit` entries of a map from a key on, in order; no limit when it is not positive. */
  ghost predicate IsRange(m: map<uint64, uint64>, key: uint64, limit: int, r: seq<Entry>) {
    && Sorted(r)
    && (forall i :: 0 <= i < |r| ==> key <= r[i].key && r[i].key in m && m[r[i].key] == r[i].value)
    && (limit >= 1 ==> |r| <= limit)
    && (forall k :: k in m && key <= k ==> HasKey(r, k) || (limit >= 1 && |r| == limit && Below(r, k)))
  }

  // One node

  /** The scan from the left that descents start with. */
  method Position(n: Node, key: uint64) returns (i: nat)
    requires n.nk <= MAX_KEYS
    ensures i <= n.nk
    ensures forall j :: 0 <= j < i ==> n.entries[j].key < key
    ensures i < n.nk ==> key <= n.entries[i].key
  {
    i := 0;
    while i < n.nk && key > n.entries[i].key
      invariant i <= n.nk
      invariant forall j :: 0 <= j < i ==> n.entries[j].key < key
    {
      i := i + 1;
    }
  }

  /** Put an entry into a leaf with room, moving larger entries up one place at a time. */
  method InsertEntry(n: Node, key: uint64, value: uint64) returns (r: Node)
    requires n.nk < MAX_KEYS && Sorted(n.entries[..n.nk]) && !HasKey(n.entries[..n.nk], key)
    ensures r == n.(nk := n.nk + 1, entries := r.entries)
    ensures r.entries[..r.nk] == Put(n.entries[..n.nk], key, value)
  {
    hide Put, Sorted, HasKey;
    var i: int;
    r, i := ShiftUp(n, key);
    r := r.(entries := r.entries[i + 1 := Entry(key, value)]);
    r := r.(nk := r.nk + 1);
    ghost var s := n.entries[..n.nk];
    Shifted(s, r.entries[..r.nk], i + 1, Entry(key, value));
    EntryPut(s, i + 1, key, value);
  }

  /** Move the entries above a key up by one place. */
  method ShiftUp(n: Node, key: uint64) returns (r: Node, i: int)
    requires n.nk < MAX_KEYS
    ensures -1 <= i < n.nk && r == n.(entries := r.entries)
    ensures forall j :: 0 <= j <= i ==> r.entries[j] == n.entries[j]
    ensures forall j :: i < j < n.nk ==> r.entries[j + 1] == n.entries[j]
    ensures i >= 0 ==> n.entries[i].key <= key
    ensures i + 1 < n.nk ==> n.entries[i + 1].key > key
  {
    r := n;
    i := n.nk - 1;
    while i >= 0 && r.entries[i].key > key
      invariant -1 <= i < n.nk && r == n.(entries := r.entries)
      invariant forall j :: 0 <= j <= i ==> r.entries[j] == n.entries[j]
      invariant forall j :: i < j < n.nk ==> r.entries[j + 1] == n.entries[j]
      invariant i + 1 < n.nk ==> n.entries[i + 1].key > key
    {
      r := r.(entries := r.entries[i + 1 := r.entries[i]]);
      i := i - 1;
    }
  }

  lemma {:induction false} Shifted(s: seq<Entry>, r: seq<Entry>, i: nat, e: Entry)
    requires i <= |s| && |r| == |s| + 1 && r[i] == e
    requires forall j :: 0 <= j < i ==> r[j] == s[j]
    requires forall j :: i <= j < |s| ==> r[j + 1] == s[j]
    ensures r == s[..i] + [e] + s[i..]
  {
    assert r[..i] == s[..i];
    assert r[i + 1..] == s[i..];
    assert r == r[..i] + [r[i]] + r[i + 1..];
  }

  /** The place of a new entry. */
  lemma {:induction false} EntryPut(s: seq<Entry>, i: nat, key: uint64, value: uint64)
    requires Sorted(s) && !HasKey(s, key) && i <= |s|
    requires i > 0 ==> s[i - 1].key <= key
    requires i < |s| ==> s[i].key > key
    ensures Put(s, key, value) == s[..i] + [Entry(key, value)] + s[i..]
  {
    hide Put;
    assert s == s[..i] + s[i..];
    if i > 0 { assert s[i - 1].key < key; }
    assert !HasKey(s[i..], key);
    PutNew(s[..i], s[i..], key, value);
  }

  /** Copy `count` entries of `src`, from `from` on, to the front of `n`. */
  method TakeEntries(n: Node, src: Node, from: nat, count: nat) returns (r: Node)
    requires from + count <= MAX_KEYS
    ensures r == n.(entries := r.entries) && r.entries[..count] == src.entries[from..from + count]
  {
    r := n;
    for i := 0 to count
      invariant r == n.(entries := r.entries) && forall j :: 0 <= j < i ==> r.entries[j] == src.entries[from + j]
    {
      r := r.(entries := r.entries[i := src.entries[i + from]]);
    }
  }

  method TakeChildren(n: Node, src: Node, from: nat, count: nat) returns (r: Node)
    requires from + count <= MAX_CHILDREN
    ensures r == n.(children := r.children) && r.children[..count] == src.children[from..from + count]
  {
    r := n;
    for i := 0 to count
      invariant r == n.(children := r.children) && forall j :: 0 <= j < i ==> r.children[j] == src.children[from + j]
    {
      r := r.(children := r.children[i := src.children[i + from]]);
    }
  }

  /** Make room for a child after the `idx`-th and for the key between them. */
  method MakeRoom(p: Node, idx: nat) returns (r: Node)
    requires idx <= p.nk < MAX_KEYS
    ensures r == p.(entries := r.entries, children := r.children)
    ensures forall j :: 0 <= j < idx ==> r.entries[j] == p.entries[j]
    ensures forall j :: idx <= j < p.nk ==> r.entries[j + 1] == p.entries[j]
    ensures forall j :: 0 <= j <= idx ==> r.children[j] == p.children[j]
    ensures forall j :: idx < j <= p.nk ==> r.children[j + 1] == p.children[j]
  {
    r := p;
    var i: int := p.nk;
    while i >= idx + 1
      invariant idx <= i <= p.nk && r == p.(children := r.children)
      invariant forall j :: 0 <= j <= i ==> r.children[j] == p.children[j]
      invariant forall j :: i < j <= p.nk ==> r.children[j + 1] == p.children[j]
    {
      r := r.(children := r.children[i + 1 := r.children[i]]);
      i := i - 1;
    }
    i := p.nk - 1;
    while i >= idx
      invariant idx - 1 <= i < p.nk && r == p.(entries := r.entries, children := r.children)
      invariant forall j :: 0 <= j <= idx ==> r.children[j] == p.children[j]
      invariant forall j :: idx < j <= p.nk ==> r.children[j + 1] == p.children[j]
      invariant forall j :: 0 <= j <= i ==> r.entries[j] == p.entries[j]
      invariant forall j :: i < j < p.nk ==> r.entries[j + 1] == p.entries[j]
    {
      r := r.(entries := r.entries[i + 1 := r.entries[i]]);
      i := i - 1;
    }
  }

  /** A parent with room made, the key and the sibling in place, holds the tree with the child split. */
  lemma {:induction false} ParentHolds(p: Node, r: Node, t: Tree, i: nat, id: nat)
    requires HoldsInner(p, t) && i < |t.kids| && |t.keys| < MAX_KEYS
    requires Full(t.kids[i]) && (t.kids[i].Inner? ==> |t.kids[i].kids| == MAX_CHILDREN)
    requires !r.isLeaf && r.nk == p.nk + 1 && r.entries[i].key == Separator(t.kids[i]) && r.children[i + 1] == id
    requires forall j :: 0 <= j < i ==> r.entries[j] == p.entries[j]
    requires forall j :: i <= j < p.nk ==> r.entries[j + 1] == p.entries[j]
    requires forall j :: 0 <= j <= i ==> r.children[j] == p.children[j]
    requires forall j :: i < j <= p.nk ==> r.children[j + 1] == p.children[j]
    ensures HoldsInner(r, SplitChild(t, i, id))
  {
    var u := SplitChild(t, i, id);
    forall j | 0 <= j < |u.keys| ensures r.entries[j].key == u.keys[j] {
      assert u.keys[j] == if j < i then t.keys[j] else if j == i then Separator(t.kids[i]) else t.keys[j - 1];
      if j > i { assert r.entries[(j - 1) + 1] == p.entries[j - 1]; }
    }
    forall j | 0 <= j < |u.kids| ensures r.children[j] == u.kids[j].id {
      assert u.kids[j] == SplitKid(t, i, LeftHalf(t.kids[i]), RightHalf(t.kids[i], id), j);
      if j > i + 1 { assert r.children[(j - 1) + 1] == p.children[j - 1]; }
    }
  }

  /** The scan from the right by which an insertion picks a child. */
  method ChildFor(n: Node, key: uint64) returns (c: nat)
    requires n.nk <= MAX_KEYS
    ensures c <= n.nk
    ensures c > 0 ==> n.entries[c - 1].key <= key
    ensures c < n.nk ==> key < n.entries[c].key
  {
    var i: int := n.nk - 1;
    while i >= 0 && n.entries[i].key > key
      invariant -1 <= i < n.nk
      invariant i + 1 < n.nk ==> key < n.entries[i + 1].key
    {
      i := i - 1;
    }
    c := i + 1;
  }

  /** The child that a search goes to: right of a separator equal to the key. */
  lemma {:induction false} ChildIs(n: Node, t: Tree, h: nat, min: nat, i: nat, key: uint64)
    requires h > 0 && WellFormed(t, h, min) && Sorted(Entries(t)) && HoldsInner(n, t) && i <= n.nk
    requires forall j :: 0 <= j < i ==> n.entries[j].key < key
    requires i < n.nk ==> key <= n.entries[i].key
    ensures Between(t, if i < n.nk && key == n.entries[i].key then i + 1 else i, key)
  {
    if i < n.nk && key == n.entries[i].key && i + 1 < n.nk { KeysSorted(t, h, min, i, i + 1); }
  }

  lemma {:induction false} KeysSorted(t: Tree, h: nat, min: nat, i: nat, j: nat)
    requires h > 0 && WellFormed(t, h, min) && Sorted(Entries(t)) && i < j < |t.keys|
    ensures t.keys[i] < t.keys[j]
  {
    hide LeavesAll, Flat;
    assert Starts(t.keys[i], Entries(t.kids[i + 1])) && Starts(t.keys[j], Entries(t.kids[j + 1]));
    var a := t.kids[..j + 1];
    LeavesAround(t.kids, j + 1);
    SortedParts(EntriesAll(a), Entries(t.kids[j + 1]), EntriesAll(t.kids[j + 2..]));
    LeavesAround(a, i + 1);
    assert EntriesAll(a)[|EntriesAll(a[..i + 1])|] == Entries(t.kids[i + 1])[0];
  }

  class Index {
    var root: Option<nat>
    var nodes: seq<Node>
    const memory: nat -> Node         // What each new node's memory holds before it is set up
    ghost var tree: Tree
    ghost var height: nat

    ghost predicate Valid()
      reads this
    {
      root.Some? ==>
        && root.value == tree.id
        && Rep(nodes, tree, height)
        && WellFormed(tree, height, 1)
        && Sorted(Entries(tree))
        && Chain(nodes, Leaves(tree), None)
    }

    /** The map the tree stands for. */
    ghost function Contents(): map<uint64, uint64>
      reads this
    {
      if root.None? then map[] else ToMap(Entries(tree))
    }

    /** `init` */
    constructor (memory: nat -> Node)
      ensures Valid() && Contents() == map[] && root == None
    {
      this.memory := memory;
      root, nodes := None, [];
    }

    /** `create_node` */
    method CreateNode(isLeaf: bool) returns (id: nat)
      modifies this`nodes
      ensures id == old(|nodes|) && |nodes| == id + 1 && nodes[..id] == old(nodes)
      ensures nodes[id].isLeaf == isLeaf && nodes[id].nk == 0 && nodes[id].next == None
    {
      id := |nodes|;
      nodes := nodes + [memory(id).(isLeaf := isLeaf, nk := 0, next := None)];
    }

    /** `search`: what the subtree holds under the key. */
    method Search(id: nat, key: uint64, ghost t: Tree, ghost h: nat, ghost min: nat) returns (r: Option<uint64>)
      requires id == t.id && Rep(nodes, t, h) && WellFormed(t, h, min) && Sorted(Entries(t))
      ensures r.Some? ==> Entry(key, r.value) in Entries(t)
      ensures r.None? ==> !HasKey(Entries(t), key)
      decreases h
    {
      hide Ids, Leaves, LeavesAll, Flat;
      var n := nodes[id];
      var i := Position(n, key);
      if n.isLeaf {
        LeafEntries(t);
        if i < n.nk && key == n.entries[i].key {
          assert t.es[i] == n.entries[i];
          return Some(n.entries[i].value);
        }
        LeafMiss(t, i, key);
        return None;
      }
      ChildIs(n, t, h, min, i, key);
      if i < n.nk && key == n.entries[i].key { i := i + 1; }
      BetweenMeans(t, h, min, i, key);
      KeyInChild(t, h, min, i, key);
      r := Search(n.children[i], key, t.kids[i], h - 1, MIN_DEGREE - 1);
    }

    /** `read` */
    method Read(key: uint64) returns (r: Option<uint64>)
      requires Valid() && root.Some?
      ensures r == if key in Contents() then Some(Contents()[key]) else None
    {
      r := Search(root.value, key, tree, height, 1);
      ToMapHas(Entries(tree), key);
    }

    /** `update_if_found`: write the value if the key is in the subtree. */
    method UpdateIfFound(id: nat, key: uint64, value: uint64, ghost t: Tree, ghost h: nat, ghost min: nat,
                         ghost after: Option<nat>)
      returns (found: bool, ghost u: Tree)
      requires id == t.id && Rep(nodes, t, h) && WellFormed(t, h, min) && Sorted(Entries(t))
      requires Chain(nodes, Leaves(t), after)
      modifies this`nodes
      ensures found == HasKey(Entries(t), key)
      ensures !found ==> nodes == old(nodes)
      ensures found ==> Became(old(nodes), nodes, t, h, u, after) && WellFormed(u, h, min)
      ensures found ==> Entries(u) == Put(Entries(t), key, value)
      decreases h
    {
      hide Ids, Leaves, Flat, Put, Chain, TreeNodes.Became;
      ghost var before := nodes;
      var n := nodes[id];
      var i := Position(n, key);
      u := t;
      if n.isLeaf {
        LeafEntries(t);
        if i < n.nk && key == n.entries[i].key {
          assert t.es[i].key == key;
          nodes := nodes[id := n.(entries := n.entries[i := n.entries[i].(value := value)])];
          u := Leaf(id, t.es[i := Entry(key, value)]);
          LeafEntries(u);
          PutOver(t.es, i, value);
          LeafBecame(before, nodes, t, u, after);
          return true, u;
        }
        LeafMiss(t, i, key);
        return false, u;
      }
      ChildIs(n, t, h, min, i, key);
      if i < n.nk && key == n.entries[i].key { i := i + 1; }
      BetweenMeans(t, h, min, i, key);
      KeyInChild(t, h, min, i, key);
      KidChain(nodes, t, h, i, after);
      ghost var kid;
      found, kid := UpdateIfFound(n.children[i], key, value, t.kids[i], h - 1, MIN_DEGREE - 1, AfterKid(t, i, after));
      if found {
        u := Replaced(t, i, kid);
        PutIntoChild(t, h, min, i, kid, key, value);
        KidBecame(before, nodes, t, h, i, kid, after);
      }
    }

    /** `split_node`: split a full child of a node with room. */
    method SplitNode(idx: nat, parent: nat, child: nat, ghost t: Tree, ghost h: nat, ghost after: Option<nat>)
      requires h > 0 && Rep(nodes, t, h) && Chain(nodes, Leaves(t), after)
      requires t.id == parent && |t.keys| < MAX_KEYS && idx < |t.kids| && t.kids[idx].id == child
      requires Full(t.kids[idx]) && WellFormed(t.kids[idx], h - 1, MIN_DEGREE - 1)
      modifies this`nodes
      ensures Became(old(nodes), nodes, t, h, SplitChild(t, idx, old(|nodes|)), after)
    {
      hide Ids, Leaves, LeavesAll, Flat, Chain, WellFormed, Became, SplitChild, LeftHalf, RightHalf, Separator;
      ghost var before := nodes;
      KidHolds(before, t, h, idx);
      var sibling := CreateNode(nodes[child].isLeaf);
      var p, c, s := nodes[parent], nodes[child], nodes[sibling];
      if c.isLeaf {
        c, s := SplitLeaf(c, s, sibling);
        assert s.entries[0] == s.entries[..MIN_DEGREE][0];
      } else {
        c, s := SplitInner(c, s);
      }
      var r := MakeRoom(p, idx);
      var sep := if c.isLeaf then r.entries[idx].(key := s.entries[0].key) else c.entries[MIN_DEGREE - 1];
      r := r.(children := r.children[idx + 1 := sibling], entries := r.entries[idx := sep], nk := r.nk + 1);
      HalvesHold(before[child], c, s, t.kids[idx], sibling);
      ParentHolds(before[parent], r, t, idx, sibling);
      nodes := nodes[child := c][sibling := s][parent := r];
      SplitBecame(before, nodes, t, h, idx, after);
    }

    /** `insert_not_full`: put a new key into a subtree whose root has room. */
    method InsertNotFull(id: nat, key: uint64, value: uint64, ghost t: Tree, ghost h: nat, ghost min: nat,
                         ghost after: Option<nat>)
      returns (ghost u: Tree)
      requires id == t.id && Rep(nodes, t, h) && WellFormed(t, h, min) && Sorted(Entries(t)) && !Full(t)
      requires !HasKey(Entries(t), key) && Chain(nodes, Leaves(t), after)
      modifies this`nodes
      ensures Became(old(nodes), nodes, t, h, u, after) && WellFormed(u, h, min)
      ensures Entries(u) == Put(Entries(t), key, value)
      decreases h, 1
    {
      hide Ids, Leaves, Flat, Put, Chain, TreeNodes.Became, Rep, WellFormed, Sorted;
      RootHolds(nodes, t, h);
      Outline(t, h, min);
      ghost var before := nodes;
      var n := nodes[id];
      if n.isLeaf {
        u := InsertIntoLeaf(id, key, value, t, min, after);
        return;
      }
      var i := ChildFor(n, key);
      KidHolds(nodes, t, h, i);
      KidWell(t, h, min, i);
      if nodes[n.children[i]].nk != MAX_KEYS {
        u := InsertBelow(id, i, key, value, t, h, min, after);
        return;
      }
      SplitNode(i, id, n.children[i], t, h, after);
      ghost var p := SplitChild(t, i, |before|);
      ghost var middle := nodes;
      SplitOk(t, h, min, i, |before|);
      SplitBetween(t, h, min, i, |before|, key);
      BecameHolds(before, middle, t, h, p, after);
      HalvesRoom(t, i, |before|);
      WeakerMin(p, h, min);
      if nodes[id].entries[i].key < key { i := i + 1; }
      u := InsertBelow(id, i, key, value, p, h, min, after);
      BecameTrans(before, middle, nodes, t, p, u, h, after);
    }

    /** `insert_not_full` at a leaf. */
    method InsertIntoLeaf(id: nat, key: uint64, value: uint64, ghost t: Tree, ghost min: nat, ghost after: Option<nat>)
      returns (ghost u: Tree)
      requires id == t.id && Rep(nodes, t, 0) && WellFormed(t, 0, min) && Sorted(Entries(t)) && !Full(t)
      requires !HasKey(Entries(t), key) && Chain(nodes, Leaves(t), after)
      modifies this`nodes
      ensures Became(old(nodes), nodes, t, 0, u, after) && WellFormed(u, 0, min)
      ensures Entries(u) == Put(Entries(t), key, value)
    {
      hide Ids, Leaves, Flat, Put, Chain, TreeNodes.Became;
      LeafEntries(t);
      var r := InsertEntry(nodes[id], key, value);
      u := Leaf(id, Put(t.es, key, value));
      LeafEntries(u);
      ghost var before := nodes;
      nodes := nodes[id := r];
      LeafBecame(before, nodes, t, u, after);
    }

    /** The end of an insertion step: go down into the child where the key belongs, which has room. */
    method InsertBelow(id: nat, i: nat, key: uint64, value: uint64, ghost t: Tree, ghost h: nat, ghost min: nat,
                       ghost after: Option<nat>)
      returns (ghost u: Tree)
      requires h > 0 && id == t.id && Rep(nodes, t, h) && WellFormed(t, h, min) && Sorted(Entries(t))
      requires Between(t, i, key) && !Full(t.kids[i])
      requires !HasKey(Entries(t), key) && Chain(nodes, Leaves(t), after)
      modifies this`nodes
      ensures Became(old(nodes), nodes, t, h, u, after) && WellFormed(u, h, min)
      ensures Entries(u) == Put(Entries(t), key, value)
      decreases h, 0
    {
      hide Ids, Leaves, Flat, Put, Chain, TreeNodes.Became;
      ghost var before := nodes;
      BetweenMeans(t, h, min, i, key);
      KeyInChild(t, h, min, i, key);
      KidChain(nodes, t, h, i, after);
      ghost var kid := InsertNotFull(nodes[id].children[i], key, value, t.kids[i], h - 1, MIN_DEGREE - 1,
                                     AfterKid(t, i, after));
      u := Replaced(t, i, kid);
      PutIntoChild(t, h, min, i, kid, key, value);
      KidBecame(before, nodes, t, h, i, kid, after);
    }

    /** `insert`: the map with the key set to the value, whether or not it was there. */
    method Insert(key: uint64, value: uint64)
      requires Valid()
      modifies this
      ensures Valid() && root.Some?
      ensures Contents() == old(Contents())[key := value]
    {
      hide Ids, Leaves, Flat, Put, Chain, TreeNodes.Became, WellFormed, Rep, ToMap;
      if root.None? {
        InsertFirst(key, value);
        return;
      }
      PutMap(Entries(tree), key, value);
      PutSorted(Entries(tree), key, value);
      ghost var before := nodes;
      var updated; ghost var u;
      updated, u := UpdateIfFound(root.value, key, value, tree, height, 1, None);
      if updated {
        BecameHolds(before, nodes, tree, height, u, None);
        tree := u;
        return;
      }
      RootHolds(nodes, tree, height);
      if nodes[root.value].nk == MAX_KEYS {
        GrowAndInsert(key, value);
      } else {
        u := InsertNotFull(root.value, key, value, tree, height, 1, None);
        BecameHolds(before, nodes, tree, height, u, None);
        tree := u;
      }
    }

    /** `insert` into the empty tree. */
    method InsertFirst(key: uint64, value: uint64)
      requires root.None?
      modifies this
      ensures Valid() && root.Some? && Contents() == map[key := value]
    {
      var id := CreateNode(true);
      nodes := nodes[id := nodes[id].(entries := nodes[id].entries[0 := Entry(key, value)], nk := 1)];
      root := Some(id);
      tree, height := Leaf(id, [Entry(key, value)]), 0;
      LeafEntries(tree);
      assert nodes[id].entries[..1] == tree.es;
      assert Leaves(tree) == [tree] && Linked(nodes, tree, NextLeaf([tree], 0, None));
      assert ToMap(tree.es[..0]) == map[];
    }

    /** `insert` of a new key when the root is full: a new root above the two halves of the old one. */
    method GrowAndInsert(key: uint64, value: uint64)
      requires Valid() && root.Some? && Full(tree) && !HasKey(Entries(tree), key)
      modifies this
      ensures Valid() && root.Some? && Contents() == ToMap(Put(old(Entries(tree)), key, value))
    {
      hide Ids, Leaves, Flat, Put, Chain, TreeNodes.Became, ToMap, WellFormed, Rep;
      ghost var before := nodes;
      var newRoot := CreateNode(false);
      nodes := nodes[newRoot := nodes[newRoot].(children := nodes[newRoot].children[0 := root.value])];
      ghost var t := Inner(newRoot, [], [tree]);
      ghost var h := height + 1;
      NewRoot(before, nodes, tree, height);
      ghost var single := nodes;
      SplitNode(0, newRoot, root.value, t, h, None);
      ghost var p, sib := SplitChild(t, 0, newRoot + 1), newRoot + 1;
      SplitOk(t, h, 0, 0, sib);
      SplitBetween(t, h, 0, 0, sib, key);
      BecameHolds(single, nodes, t, h, p, None);
      ghost var split := nodes;
      var idx := if nodes[newRoot].entries[0].key < key then 1 else 0;
      ghost var u := InsertBelow(newRoot, idx, key, value, p, h, 1, None);
      BecameHolds(split, nodes, p, h, u, None);
      PutSorted(Entries(tree), key, value);
      root, tree, height := Some(newRoot), u, h;
    }

    /** `update`: like `insert`, on a tree that is not empty. */
    method Update(key: uint64, value: uint64)
      requires Valid() && root.Some?
      modifies this
      ensures Valid() && root.Some?
      ensures Contents() == old(Contents())[key := value]
    {
      Insert(key, value);
    }

    /** `scan`: go down left of an equal separator, then follow the leaf chain. */
    method Scan(key: uint64, len: int) returns (result: seq<Entry>)
      requires Valid() && root.Some?
      ensures IsRange(Contents(), key, len, result)
    {
      ghost var ls := Leaves(tree);
      var cur, i; ghost var p;
      cur, i, p := ScanStart(key);
      ghost var x, y := Flat(ls[..p]) + ls[p].es[..i], ls[p].es[i..] + Flat(ls[p + 1..]);
      result := ScanChain(cur, i, len, p);
      RangeOk(x, y, key, len, result);
    }

    /** The leaf and the place in it where the entries from `key` on begin. */
    method ScanStart(key: uint64) returns (cur: nat, i: nat, ghost p: nat)
      requires Valid() && root.Some?
      ensures var ls := Leaves(tree);
              && p < |ls| && ls[p].Leaf? && ls[p].id == cur && i <= |ls[p].es|
              && Below(Flat(ls[..p]) + ls[p].es[..i], key)
              && AtLeast(ls[p].es[i..] + Flat(ls[p + 1..]), key)
              && Entries(tree) == (Flat(ls[..p]) + ls[p].es[..i]) + (ls[p].es[i..] + Flat(ls[p + 1..]))
    {
      hide Ids, Leaves, LeavesAll, Flat, Chain;
      assert Flat([]) == [] by { FlatEmpty(); }
      cur := root.value;
      ghost var t, h, min: nat, before, rest := tree, height, 1, [], [];
      while !nodes[cur].isLeaf
        invariant cur == t.id && Rep(nodes, t, h) && WellFormed(t, h, min) && Sorted(Entries(t))
        invariant Leaves(tree) == before + Leaves(t) + rest
        invariant Below(Flat(before), key) && AtLeast(Flat(rest), key)
        decreases h
      {
        var n := nodes[cur];
        var c := Position(n, key);
        ScanDown(t, h, min, c, key, before, rest);
        before, rest := before + LeavesAll(t.kids[..c]), LeavesAll(t.kids[c + 1..]) + rest;
        cur := n.children[c];
        t, h, min := t.kids[c], h - 1, MIN_DEGREE - 1;
      }
      i := Position(nodes[cur], key);
      p := |before|;
      LeafEntries(t);
      LeavesOfLeaf(t);
      ScanLeaf(t, i, key, before, rest);
    }

    /** Collect entries from a place in a leaf on, along the chain, until `len` of them or the end. */
    method ScanChain(start: nat, from: nat, len: int, ghost at: nat) returns (result: seq<Entry>)
      requires Valid() && root.Some? && at < |Leaves(tree)|
      requires Leaves(tree)[at].Leaf? && Leaves(tree)[at].id == start && from <= |Leaves(tree)[at].es|
      ensures result <= Rest(Leaves(tree), at, from) && (len >= 1 ==> |result| <= len)
      ensures result == Rest(Leaves(tree), at, from) || (len >= 1 && |result| == len)
    {
      LeavesRep(nodes, tree, height);
      hide Leaves, Rep, WellFormed, Sorted, Rest, Chain;
      result := CollectChain(nodes, start, from, len, Leaves(tree), at);
    }
  }

  method CollectChain(nodes: seq<Node>, start: nat, from: nat, len: int, ghost ls: seq<Tree>, ghost at: nat)
    returns (result: seq<Entry>)
    requires Chain(nodes, ls, None) && (forall q :: 0 <= q < |ls| ==> Rep(nodes, ls[q], 0))
    requires at < |ls| && ls[at].Leaf? && ls[at].id == start && from <= |ls[at].es|
    ensures result <= Rest(ls, at, from) && (len >= 1 ==> |result| <= len)
    ensures result == Rest(ls, at, from) || (len >= 1 && |result| == len)
  {
    hide Rep, Rest, Chain;
    ghost var y, p := Rest(ls, at, from), at;
    var cur, i: nat := Some(start), from;
    result := [];
    while cur.Some?
      invariant at <= p <= |ls| && cur == (if p < |ls| then Some(ls[p].id) else None)
      invariant p < |ls| ==> ls[p].Leaf? && i <= |ls[p].es|
      invariant len >= 1 ==> |result| < len
      invariant y == result + Rest(ls, p, i)
      decreases |ls| - p
    {
      LeafAt(nodes, ls, p, i);
      var n := nodes[cur.value];
      RestStep(ls, p, i, result);
      var done;
      result, done := TakeLeaf(n, i, len, result);
      if done { return; }
      cur := n.next;
      p, i := p + 1, 0;
    }
    RestEnd(ls, i);
  }

  /** The entries from place `i` of leaf `p` on. */
  function Rest(ls: seq<Tree>, p: nat, i: nat): seq<Entry> {
    if p < |ls| && ls[p].Leaf? && i <= |ls[p].es| then ls[p].es[i..] + Flat(ls[p + 1..]) else []
  }

  lemma {:induction false} RestStep(ls: seq<Tree>, p: nat, i: nat, result: seq<Entry>)
    requires p < |ls| && ls[p].Leaf? && i <= |ls[p].es| && (p + 1 < |ls| ==> ls[p + 1].Leaf?)
    ensures result + Rest(ls, p, i) == (result + ls[p].es[i..]) + Rest(ls, p + 1, 0)
  {
    if p + 1 < |ls| { assert ls[p + 1..][1..] == ls[p + 2..]; }
    assert Flat(ls[p + 1..]) == Rest(ls, p + 1, 0);
  }

  lemma {:induction false} RestEnd(ls: seq<Tree>, i: nat)
    ensures Rest(ls, |ls|, i) == []
  {
  }

  /** A leaf of the chain as its node has it, and the one after it. */
  lemma {:induction false} LeafAt(nodes: seq<Node>, ls: seq<Tree>, p: nat, i: nat)
    requires p < |ls| && Chain(nodes, ls, None) && forall q :: 0 <= q < |ls| ==> Rep(nodes, ls[q], 0)
    requires ls[p].Leaf? && i <= |ls[p].es|
    ensures ls[p].id < |nodes| && (p + 1 < |ls| ==> ls[p + 1].Leaf?)
    ensures var n := nodes[ls[p].id];
            && i <= n.nk <= MAX_KEYS && n.entries[i..n.nk] == ls[p].es[i..]
            && n.next == if p + 1 < |ls| then Some(ls[p + 1].id) else None
  {
    hide Rep;
    LeafHolds(nodes, ls[p]);
    if p + 1 < |ls| { LeafHolds(nodes, ls[p + 1]); }
    assert Linked(nodes, ls[p], NextLeaf(ls, p, None));
    var n := nodes[ls[p].id];
    assert n.entries[i..n.nk] == n.entries[..n.nk][i..];
  }

  lemma {:induction false} LeafHolds(nodes: seq<Node>, l: Tree)
    requires Rep(nodes, l, 0)
    ensures l.id < |nodes| && HoldsLeaf(nodes[l.id], l)
  {
  }

  /** The inner loop of `scan`: append entries of one leaf, stopping at `len` in all. */
  method TakeLeaf(n: Node, from: nat, len: int, already: seq<Entry>) returns (result: seq<Entry>, done: bool)
    requires from <= n.nk <= MAX_KEYS && (len >= 1 ==> |already| < len)
    ensures result <= already + n.entries[from..n.nk]
    ensures done ==> len >= 1 && |result| == len
    ensures !done ==> result == already + n.entries[from..n.nk] && (len >= 1 ==> |result| < len)
  {
    result, done := already, false;
    var i := from;
    while i < n.nk
      invariant from <= i <= n.nk && result == already + n.entries[from..i]
      invariant len >= 1 ==> |result| < len
    {
      result := result + [n.entries[i]];
      assert result == already + n.entries[from..i + 1];
      if |result| == len { return result, true; }
      i := i + 1;
    }
  }

  lemma {:induction false} FlatEmpty()
    ensures Flat([]) == []
  {
  }

  lemma {:induction false} LeavesOfLeaf(t: Tree)
    requires t.Leaf?
    ensures Leaves(t) == [t]
  {
  }

  /** One step of the scan's descent, with strict `>`: what is left behind is smaller, what is right is not. */
  lemma {:induction false} ScanDown(t: Tree, h: nat, min: nat, c: nat, key: uint64, before: seq<Tree>, rest: seq<Tree>)
    requires h > 0 && WellFormed(t, h, min) && Sorted(Entries(t)) && c < |t.kids|
    requires c > 0 ==> t.keys[c - 1] < key
    requires c < |t.keys| ==> key <= t.keys[c]
    requires Below(Flat(before), key) && AtLeast(Flat(rest), key)
    ensures var a, b := LeavesAll(t.kids[..c]), LeavesAll(t.kids[c + 1..]);
            && before + Leaves(t) + rest == (before + a) + Leaves(t.kids[c]) + (b + rest)
            && Below(Flat(before + a), key) && AtLeast(Flat(b + rest), key)
            && Sorted(Entries(t.kids[c]))
  {
    hide LeavesAll, Flat, WellFormed, Sorted;
    ScanSides(t, h, min, c, key);
    var a, b := LeavesAll(t.kids[..c]), LeavesAll(t.kids[c + 1..]);
    FlatConcat(before, a);
    FlatConcat(b, rest);
    assert before + (a + Leaves(t.kids[c]) + b) + rest == (before + a) + Leaves(t.kids[c]) + (b + rest);
  }

  lemma {:induction false} ScanSides(t: Tree, h: nat, min: nat, c: nat, key: uint64)
    requires h > 0 && WellFormed(t, h, min) && Sorted(Entries(t)) && c < |t.kids|
    requires c > 0 ==> t.keys[c - 1] < key
    requires c < |t.keys| ==> key <= t.keys[c]
    ensures t.Inner? && Leaves(t) == LeavesAll(t.kids[..c]) + Leaves(t.kids[c]) + LeavesAll(t.kids[c + 1..])
    ensures Below(EntriesAll(t.kids[..c]), key) && AtLeast(EntriesAll(t.kids[c + 1..]), key)
    ensures Sorted(Entries(t.kids[c]))
  {
    hide LeavesAll, Flat;
    var b := EntriesAll(t.kids[c + 1..]);
    LeavesAround(t.kids, c);
    SortedParts(EntriesAll(t.kids[..c]), Entries(t.kids[c]), b);
    EmptyKids();
    assert t.kids[..0] == [] && t.kids[|t.kids|..] == [];
    if c > 0 { assert Starts(t.keys[c - 1], Entries(t.kids[c])); }
    if c < |t.keys| {
      LeavesAround(t.kids[c + 1..], 0);
      assert t.kids[c + 1..][..0] == [];
      assert Starts(t.keys[c], Entries(t.kids[c + 1]));
      assert b[0] == Entries(t.kids[c + 1])[0];
    }
  }

  lemma {:induction false} ScanLeaf(t: Tree, i: nat, key: uint64, before: seq<Tree>, rest: seq<Tree>)
    requires t.Leaf? && i <= |t.es| && Sorted(t.es) && Below(t.es[..i], key) && (i < |t.es| ==> key <= t.es[i].key)
    requires Below(Flat(before), key) && AtLeast(Flat(rest), key)
    ensures var ls, p := before + [t] + rest, |before|;
            && ls[..p] == before && ls[p] == t && ls[p + 1..] == rest
            && Below(Flat(before) + t.es[..i], key) && AtLeast(t.es[i..] + Flat(rest), key)
            && Flat(ls) == (Flat(before) + t.es[..i]) + (t.es[i..] + Flat(rest))
  {
    hide Flat;
    assert AtLeast(t.es[i..], key);
    Sides(Flat(before), t.es[..i], t.es[i..], Flat(rest), key);
    hide Below, AtLeast, Sorted;
    FlatConcat(before + [t], rest);
    FlatConcat(before, [t]);
    assert Flat([t]) == t.es by { LeafEntries(t); LeavesOfLeaf(t); }
    Regroup(Flat(before), t.es, i, Flat(rest));
  }

  lemma {:induction false} Sides(a: seq<Entry>, b: seq<Entry>, c: seq<Entry>, d: seq<Entry>, key: uint64)
    requires Below(a, key) && Below(b, key) && AtLeast(c, key) && AtLeast(d, key)
    ensures Below(a + b, key) && AtLeast(c + d, key)
  {
  }

  lemma {:induction false} Regroup(a: seq<Entry>, m: seq<Entry>, i: nat, b: seq<Entry>)
    requires i <= |m|
    ensures a + m + b == (a + m[..i]) + (m[i..] + b)
  {
    assert m == m[..i] + m[i..];
    assert a + (m[..i] + m[i..]) + b == (a + m[..i]) + (m[i..] + b);
  }

  /** A prefix of the entries from a key on is a range of the map. */
  lemma {:induction false} RangeOk(x: seq<Entry>, y: seq<Entry>, key: uint64, len: int, r: seq<Entry>)
    requires Sorted(x + y) && Below(x, key) && AtLeast(y, key)
    requires r <= y && (len >= 1 ==> |r| <= len) && (r == y || (len >= 1 && |r| == len))
    ensures IsRange(ToMap(x + y), key, len, r)
  {
    hide ToMap;
    var s := x + y;
    forall i | 0 <= i < |r| ensures r[i].key in ToMap(s) && ToMap(s)[r[i].key] == r[i].value {
      ToMapHas(s, r[i].key);
      assert s[|x| + i] == r[i];
    }
    forall i, j | 0 <= i < j < |r| ensures r[i].key < r[j].key { assert r[i] == s[|x| + i] && r[j] == s[|x| + j]; }
    forall k | k in ToMap(s) && key <= k ensures HasKey(r, k) || (len >= 1 && |r| == len && Below(r, k)) {
      ToMapHas(s, k);
      var j :| 0 <= j < |s| && s[j].key == k;
      assert j >= |x|;
      if j - |x| < |r| {
        assert r[j - |x|].key == k;
      } else {
        forall i | 0 <= i < |r| ensures r[i].key < k { assert r[i] == s[|x| + i]; }
      }
    }
  }

  /** The new nodes of a leaf split. */
  method SplitLeaf(c: Node, s: Node, sibling: nat) returns (l: Node, r: Node)
    requires c.nk == MAX_KEYS
    ensures l == c.(nk := MIN_DEGREE - 1, next := Some(sibling))
    ensures r == s.(nk := MIN_DEGREE, next := c.next, entries := r.entries)
    ensures r.entries[..MIN_DEGREE] == c.entries[MIN_DEGREE - 1..MAX_KEYS]
  {
    r := TakeEntries(s.(nk := MIN_DEGREE), c, MIN_DEGREE - 1, MIN_DEGREE);
    l := c.(nk := MIN_DEGREE - 1);
    r := r.(next := c.next);
    l := l.(next := Some(sibling));
  }

  /** The new nodes of an inner split. */
  method SplitInner(c: Node, s: Node) returns (l: Node, r: Node)
    requires c.nk == MAX_KEYS
    ensures l == c.(nk := MIN_DEGREE - 1)
    ensures r == s.(nk := MIN_DEGREE - 1, entries := r.entries, children := r.children)
    ensures r.entries[..MIN_DEGREE - 1] == c.entries[MIN_DEGREE..MAX_KEYS]
    ensures r.children[..MIN_DEGREE] == c.children[MIN_DEGREE..MAX_CHILDREN]
  {
    r := TakeEntries(s.(nk := MIN_DEGREE - 1), c, MIN_DEGREE, MIN_DEGREE - 1);
    r := TakeChildren(r, c, MIN_DEGREE, MIN_DEGREE);
    l := c.(nk := MIN_DEGREE - 1);
  }

  lemma {:induction false} BecameHolds(before: seq<Node>, nodes: seq<Node>, t: Tree, h: nat, u: Tree,
                                       after: Option<nat>)
    requires Became(before, nodes, t, h, u, after)
    ensures u.id == t.id < |nodes| && Rep(nodes, u, h) && Chain(nodes, Leaves(u), after)
    ensures if h == 0 then HoldsLeaf(nodes[u.id], u) else HoldsInner(nodes[u.id], u)
  {
  }

  lemma {:induction false} RootHolds(nodes: seq<Node>, t: Tree, h: nat)
    requires Rep(nodes, t, h)
    ensures t.id < |nodes|
    ensures if h == 0 then HoldsLeaf(nodes[t.id], t) else HoldsInner(nodes[t.id], t)
  {
  }

  lemma {:induction false} Outline(t: Tree, h: nat, min: nat)
    requires WellFormed(t, h, min)
    ensures if h == 0 then t.Leaf? else t.Inner? && |t.kids| == |t.keys| + 1 && |t.keys| <= MAX_KEYS
  {
  }

  lemma {:induction false} KidWell(t: Tree, h: nat, min: nat, i: nat)
    requires h > 0 && WellFormed(t, h, min) && i < |t.kids|
    ensures WellFormed(t.kids[i], h - 1, MIN_DEGREE - 1)
    ensures t.kids[i].Inner? ==> |t.kids[i].kids| == |t.kids[i].keys| + 1
  {
  }

  lemma {:induction false} WeakerMin(t: Tree, h: nat, min: nat)
    requires WellFormed(t, h, min + 1)
    ensures WellFormed(t, h, min)
  {
  }

  /** Neither half of a split child is full. */
  lemma {:induction false} HalvesRoom(t: Tree, i: nat, id: nat)
    requires t.Inner? && |t.kids| == |t.keys| + 1 && i < |t.kids|
    requires Full(t.kids[i]) && (t.kids[i].Inner? ==> |t.kids[i].kids| == MAX_CHILDREN)
    ensures var p := SplitChild(t, i, id); !Full(p.kids[i]) && !Full(p.kids[i + 1])
  {
  }

  lemma {:induction false} KidHolds(nodes: seq<Node>, t: Tree, h: nat, i: nat)
    requires h > 0 && Rep(nodes, t, h) && i < |t.kids|
    ensures t.kids[i].id < |nodes| && t.kids[i].id != t.id
    ensures nodes[t.id].children[i] == t.kids[i].id && HoldsInner(nodes[t.id], t)
    ensures if h == 1 then HoldsLeaf(nodes[t.kids[i].id], t.kids[i]) else HoldsInner(nodes[t.kids[i].id], t.kids[i])
  {
    ApartPair(t, i, i);
  }

  /** A new root above the old one. */
  lemma {:induction false} NewRoot(before: seq<Node>, nodes: seq<Node>, t: Tree, h: nat)
    requires Rep(before, t, h) && WellFormed(t, h, 1) && Full(t) && Chain(before, Leaves(t), None)
    requires |nodes| == |before| + 1 && nodes[..|before|] == before
    requires !nodes[|before|].isLeaf && nodes[|before|].nk == 0 && nodes[|before|].children[0] == t.id
    ensures var p := Inner(|before|, [], [t]);
            && Rep(nodes, p, h + 1) && Chain(nodes, Leaves(p), None) && Leaves(p) == Leaves(t)
            && WellFormed(p, h + 1, 0) && WellFormed(t, h, MIN_DEGREE - 1)
  {
    var p := Inner(|before|, [], [t]);
    LeavesOne(t);
    RepIds(before, t, h);
    RepFrame(before, nodes, {}, t, h);
    ChainFrame(before, nodes, {}, Leaves(t), None);
  }

  /** The nodes that `split_node` writes. */
  ghost predicate SplitWrites(before: seq<Node>, nodes: seq<Node>, t: Tree, i: nat)
    requires t.Inner? && |t.kids| == |t.keys| + 1 && i < |t.kids|
    requires Full(t.kids[i]) && (t.kids[i].Inner? ==> |t.kids[i].kids| == MAX_CHILDREN)
  {
    var kid, id := t.kids[i], |before|;
    && |nodes| == id + 1 && Frame(before, nodes, {t.id, kid.id}) && t.id < id && kid.id < id
    && nodes[t.id].next == before[t.id].next
    && HoldsInner(nodes[t.id], SplitChild(t, i, id))
    && if kid.Leaf? then
         && HoldsLeaf(nodes[kid.id], LeftHalf(kid)) && HoldsLeaf(nodes[id], RightHalf(kid, id))
         && nodes[id].next == before[kid.id].next && nodes[kid.id].next == Some(id)
       else
         && HoldsInner(nodes[kid.id], LeftHalf(kid)) && HoldsInner(nodes[id], RightHalf(kid, id))
         && nodes[kid.id].next == before[kid.id].next
  }

  /** What `split_node` leaves behind. */
  lemma {:induction false} SplitBecame(before: seq<Node>, nodes: seq<Node>, t: Tree, h: nat, i: nat, after: Option<nat>)
    requires h > 0 && Rep(before, t, h) && Chain(before, Leaves(t), after) && i < |t.kids|
    requires Full(t.kids[i]) && WellFormed(t.kids[i], h - 1, MIN_DEGREE - 1)
    requires SplitWrites(before, nodes, t, i)
    ensures Became(before, nodes, t, h, SplitChild(t, i, |before|), after)
  {
    assert t.Inner? && |t.kids| == |t.keys| + 1 && (t.kids[i].Inner? ==> |t.kids[i].kids| == MAX_CHILDREN);
    hide Ids, Leaves, Chain, WellFormed, LeftHalf, RightHalf, Rep, HoldsInner, HoldsLeaf, Separator;
    SplitRepAll(before, nodes, t, h, i);
    assert t.id in Ids(t) && t.kids[i].id in Ids(t) by { KidIds(t, i); }
    SplitChain(before, nodes, t, h, i, |before|, after);
    SplitFirst(t, h, i, |before|);
  }

  lemma {:induction false} SplitRepAll(before: seq<Node>, nodes: seq<Node>, t: Tree, h: nat, i: nat)
    requires h > 0 && Rep(before, t, h) && i < |t.kids|
    requires Full(t.kids[i]) && (t.kids[i].Inner? ==> |t.kids[i].kids| == MAX_CHILDREN)
    requires SplitWrites(before, nodes, t, i)
    ensures Rep(nodes, SplitChild(t, i, |before|), h) && Grown(t, SplitChild(t, i, |before|), |before|)
  {
    ApartPair(t, i, i);
    hide Ids, SplitChild, LeftHalf, RightHalf, HoldsInner, HoldsLeaf, Separator;
    HalvesRep(before, nodes, t.kids[i], h - 1, |before|);
    SplitRep(before, nodes, t, h, i, |before|);
  }
}
