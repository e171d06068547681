/** Trees laid out in numbered nodes, and what a change to some nodes leaves alone. */
module TreeNodes {
  import opened Options
  import opened TreeShape

  datatype RawNode = RawNode(isLeaf: bool, nk: nat, entries: seq<Entry>, children: seq<nat>, next: Option<nat>)

  /** `struct bplustree_node`: fixed arrays, of which the first `nk` entries are in use. */
  type Node = n: RawNode | |n.entries| == MAX_KEYS && |n.children| == MAX_CHILDREN
    witness RawNode(true, 0, seq(MAX_KEYS, _ => Entry(0, 0)), seq(MAX_CHILDREN, _ => 0), None)

  /** The numbers of a tree's nodes. */
  ghost function Ids(t: Tree): set<nat> {
    if t.Leaf? then {t.id} else {t.id} + set i, j | 0 <= i < |t.kids| && j in Ids(t.kids[i]) :: j
  }

  /** The nodes hold the tree: each node holds its keys and points to its children, and no node is used twice. */
  ghost predicate Rep(nodes: seq<Node>, t: Tree, h: nat)
    decreases h
  {
    && t.id < |nodes|
    && if h == 0 then HoldsLeaf(nodes[t.id], t)
       else
         && t.Inner? && HoldsInner(nodes[t.id], t) && Apart(t)
         && (forall i :: 0 <= i < |t.kids| ==> Rep(nodes, t.kids[i], h - 1))
  }

  predicate HoldsLeaf(n: Node, t: Tree) {
    t.Leaf? && n.isLeaf && n.nk == |t.es| <= MAX_KEYS && n.entries[..n.nk] == t.es
  }

  predicate HoldsInner(n: Node, t: Tree) {
    && t.Inner? && !n.isLeaf && n.nk == |t.keys| <= MAX_KEYS && |t.kids| == n.nk + 1
    && (forall i :: 0 <= i < |t.keys| ==> n.entries[i].key == t.keys[i])
    && (forall i :: 0 <= i < |t.kids| ==> n.children[i] == t.kids[i].id)
  }

  /** No node of a child is the node itself or a node of another child. */
  ghost predicate Apart(t: Tree)
    requires t.Inner?
  {
    && (forall i :: 0 <= i < |t.kids| ==> t.id !in Ids(t.kids[i]))
    && (forall i, j :: 0 <= i < j < |t.kids| ==> Ids(t.kids[i]) !! Ids(t.kids[j]))
  }

  /** Each leaf's `next` is the leaf after it, and the last one's is `after`. */
  predicate Chain(nodes: seq<Node>, ls: seq<Tree>, after: Option<nat>) {
    forall p :: 0 <= p < |ls| ==> Linked(nodes, ls[p], NextLeaf(ls, p, after))
  }

  predicate Linked(nodes: seq<Node>, l: Tree, next: Option<nat>) {
    l.id < |nodes| && nodes[l.id].next == next
  }

  function NextLeaf(ls: seq<Tree>, p: nat, after: Option<nat>): Option<nat> {
    if p + 1 < |ls| then Some(ls[p + 1].id) else after
  }

  /** Only nodes of `touched` may differ. */
  ghost predicate Frame(before: seq<Node>, nodes: seq<Node>, touched: set<nat>) {
    |before| <= |nodes| && forall j :: 0 <= j < |before| && j !in touched ==> nodes[j] == before[j]
  }

  /** The nodes of `u` are those of `t` or new. */
  ghost predicate Grown(t: Tree, u: Tree, size: nat) {
    forall j :: j in Ids(u) ==> j in Ids(t) || size <= j
  }

  lemma {:induction false} RepIds(nodes: seq<Node>, t: Tree, h: nat)
    requires Rep(nodes, t, h)
    ensures forall j :: j in Ids(t) ==> j < |nodes|
    decreases h
  {
    if h > 0 {
      forall i | 0 <= i < |t.kids| ensures forall j :: j in Ids(t.kids[i]) ==> j < |nodes| {
        RepIds(nodes, t.kids[i], h - 1);
      }
    }
  }

  lemma {:induction false} RootId(t: Tree)
    ensures t.id in Ids(t)
  {
  }

  lemma {:induction false} IdsCases(t: Tree, j: nat)
    requires t.Inner? && j in Ids(t)
    ensures j == t.id || exists i :: 0 <= i < |t.kids| && j in Ids(t.kids[i])
  {
  }

  lemma {:induction false} KidIds(t: Tree, i: nat)
    requires t.Inner? && i < |t.kids|
    ensures t.id in Ids(t) && t.kids[i].id in Ids(t.kids[i]) && Ids(t.kids[i]) <= Ids(t)
  {
  }

  lemma {:induction false} RepFrame(before: seq<Node>, nodes: seq<Node>, touched: set<nat>, t: Tree, h: nat)
    requires Rep(before, t, h) && Frame(before, nodes, touched) && Ids(t) !! touched
    ensures Rep(nodes, t, h)
    decreases h
  {
    hide Ids, HoldsLeaf, HoldsInner, Apart;
    RootId(t);
    if h > 0 {
      forall i | 0 <= i < |t.kids| ensures Rep(nodes, t.kids[i], h - 1) {
        KidIds(t, i);
        RepFrame(before, nodes, touched, t.kids[i], h - 1);
      }
    }
  }

  /** The leaves of a laid-out tree are laid out, and their nodes are among the tree's. */
  lemma {:induction false} LeavesRep(nodes: seq<Node>, t: Tree, h: nat)
    requires Rep(nodes, t, h)
    ensures Leaves(t) != []
    ensures forall p :: 0 <= p < |Leaves(t)| ==> Leaves(t)[p].id in Ids(t) && Rep(nodes, Leaves(t)[p], 0)
    decreases h
  {
    hide LeavesAll;
    if h > 0 {
      forall p | 0 <= p < |Leaves(t)| ensures Leaves(t)[p].id in Ids(t) && Rep(nodes, Leaves(t)[p], 0) {
        var i := LeafUnder(t.kids, Leaves(t)[p]);
        LeavesRep(nodes, t.kids[i], h - 1);
        KidIds(t, i);
      }
      LeavesRep(nodes, t.kids[0], h - 1);
      LeavesAround(t.kids, 0);
    }
  }

  lemma {:induction false} LeafUnder(kids: seq<Tree>, l: Tree) returns (i: nat)
    requires l in LeavesAll(kids)
    ensures i < |kids| && l in Leaves(kids[i])
  {
    if l in Leaves(kids[0]) {
      i := 0;
    } else {
      i := LeafUnder(kids[1..], l);
      i := i + 1;
    }
  }

  // Chains

  lemma {:induction false} ChainParts(nodes: seq<Node>, a: seq<Tree>, m: seq<Tree>, b: seq<Tree>, after: Option<nat>)
    requires Chain(nodes, a + m + b, after) && m != []
    ensures Chain(nodes, a, Some(m[0].id))
    ensures Chain(nodes, m, if b == [] then after else Some(b[0].id))
    ensures Chain(nodes, b, after)
  {
    var s := a + m + b;
    forall p | 0 <= p < |a| ensures Linked(nodes, a[p], NextLeaf(a, p, Some(m[0].id))) {
      assert Linked(nodes, s[p], NextLeaf(s, p, after));
    }
    forall p | 0 <= p < |m| ensures Linked(nodes, m[p], NextLeaf(m, p, if b == [] then after else Some(b[0].id))) {
      assert Linked(nodes, s[|a| + p], NextLeaf(s, |a| + p, after));
    }
    forall p | 0 <= p < |b| ensures Linked(nodes, b[p], NextLeaf(b, p, after)) {
      assert Linked(nodes, s[|a| + |m| + p], NextLeaf(s, |a| + |m| + p, after));
    }
  }

  lemma {:induction false} ChainJoin(nodes: seq<Node>, a: seq<Tree>, m: seq<Tree>, b: seq<Tree>, after: Option<nat>)
    requires m != [] && Chain(nodes, a, Some(m[0].id))
    requires Chain(nodes, m, if b == [] then after else Some(b[0].id)) && Chain(nodes, b, after)
    ensures Chain(nodes, a + m + b, after)
  {
    var s := a + m + b;
    forall p | 0 <= p < |s| ensures Linked(nodes, s[p], NextLeaf(s, p, after)) {
      if p < |a| {
        assert Linked(nodes, a[p], NextLeaf(a, p, Some(m[0].id)));
      } else if p < |a| + |m| {
        assert Linked(nodes, m[p - |a|], NextLeaf(m, p - |a|, if b == [] then after else Some(b[0].id)));
      } else {
        assert Linked(nodes, b[p - |a| - |m|], NextLeaf(b, p - |a| - |m|, after));
      }
    }
  }

  lemma {:induction false} ChainFrame(before: seq<Node>, nodes: seq<Node>, touched: set<nat>, ls: seq<Tree>,
                                      after: Option<nat>)
    requires Chain(before, ls, after) && |before| <= |nodes|
    requires forall j :: 0 <= j < |before| && j !in touched ==> nodes[j].next == before[j].next
    requires forall p :: 0 <= p < |ls| ==> ls[p].id !in touched
    ensures Chain(nodes, ls, after)
  {
  }

  // One child replaced

  lemma {:induction false} ReplacedRep(before: seq<Node>, nodes: seq<Node>, t: Tree, h: nat, i: nat, kid: Tree)
    requires h > 0 && Rep(before, t, h) && i < |t.kids|
    requires Frame(before, nodes, Ids(t.kids[i])) && Rep(nodes, kid, h - 1)
    requires kid.id == t.kids[i].id && Grown(t.kids[i], kid, |before|)
    ensures Rep(nodes, Replaced(t, i, kid), h)
    ensures Grown(t, Replaced(t, i, kid), |before|)
  {
    var u := Replaced(t, i, kid);
    assert HoldsInner(before[t.id], t) && HoldsInner(before[t.id], u);
    RepIds(before, t, h);
    ReplacedApart(t, i, kid, |before|);
    hide Ids, HoldsInner, HoldsLeaf, Grown;
    assert nodes[t.id] == before[t.id] by { ApartPair(t, i, i); }
    forall j | 0 <= j < |u.kids| ensures Rep(nodes, u.kids[j], h - 1) {
      if j != i {
        ApartPair(t, i, j);
        RepFrame(before, nodes, Ids(t.kids[i]), t.kids[j], h - 1);
      }
    }
  }

  lemma {:induction false} ApartPair(t: Tree, i: nat, j: nat)
    requires t.Inner? && Apart(t) && i < |t.kids| && j < |t.kids|
    ensures t.id !in Ids(t.kids[i]) && t.kids[i].id in Ids(t.kids[i])
    ensures i != j ==> Ids(t.kids[i]) !! Ids(t.kids[j])
  {
  }

  lemma {:induction false} ReplacedApart(t: Tree, i: nat, kid: Tree, size: nat)
    requires t.Inner? && i < |t.kids| && Apart(t) && Grown(t.kids[i], kid, size)
    requires forall j :: j in Ids(t) ==> j < size
    ensures Apart(Replaced(t, i, kid)) && Grown(t, Replaced(t, i, kid), size)
  {
    hide Ids;
    var u := Replaced(t, i, kid);
    forall j | 0 <= j < |t.kids| ensures t.id in Ids(t) && Ids(t.kids[j]) <= Ids(t) { KidIds(t, j); }
    forall j | j in Ids(u) ensures j in Ids(t) || size <= j {
      IdsCases(u, j);
      if j != u.id {
        var k :| 0 <= k < |u.kids| && j in Ids(u.kids[k]);
        assert k == i || u.kids[k] == t.kids[k];
      }
    }
  }

  /** The leaf chain after a child's own stretch of it was changed. */
  lemma {:induction false} ReplacedChain(before: seq<Node>, nodes: seq<Node>, t: Tree, h: nat, i: nat, kid: Tree,
                                         after: Option<nat>)
    requires h > 0 && Rep(before, t, h) && i < |t.kids| && Chain(before, Leaves(t), after)
    requires Frame(before, nodes, Ids(t.kids[i])) && Leaves(kid) != []
    requires Leaves(t.kids[i]) != [] && Leaves(kid)[0].id == Leaves(t.kids[i])[0].id
    requires Chain(nodes, Leaves(kid), AfterKid(t, i, after))
    ensures Chain(nodes, Leaves(Replaced(t, i, kid)), after)
  {
    var a, m, b := LeavesAll(t.kids[..i]), Leaves(t.kids[i]), LeavesAll(t.kids[i + 1..]);
    ReplacedLeaves(t, i, kid);
    ChainParts(before, a, m, b, after);
    OtherLeaves(before, t, h, i, t.kids[..i]);
    OtherLeaves(before, t, h, i, t.kids[i + 1..]);
    ChainFrame(before, nodes, Ids(t.kids[i]), a, Some(m[0].id));
    ChainFrame(before, nodes, Ids(t.kids[i]), b, after);
    ChainJoin(nodes, a, Leaves(kid), b, after);
  }

  /** The leaf after those of the `i`-th child. */
  function AfterKid(t: Tree, i: nat, after: Option<nat>): Option<nat>
    requires t.Inner? && i < |t.kids|
  {
    var b := LeavesAll(t.kids[i + 1..]);
    if b == [] then after else Some(b[0].id)
  }

  /** No leaf of other children is a node of the `i`-th child. */
  lemma {:induction false} OtherLeaves(nodes: seq<Node>, t: Tree, h: nat, i: nat, others: seq<Tree>)
    requires h > 0 && Rep(nodes, t, h) && i < |t.kids|
    requires others == t.kids[..i] || others == t.kids[i + 1..]
    ensures forall p :: 0 <= p < |LeavesAll(others)| ==> LeavesAll(others)[p].id !in Ids(t.kids[i])
  {
    hide Ids, LeavesAll;
    forall p | 0 <= p < |LeavesAll(others)| ensures LeavesAll(others)[p].id !in Ids(t.kids[i]) {
      var j := LeafUnder(others, LeavesAll(others)[p]);
      var k := if others == t.kids[..i] then j else i + 1 + j;
      assert others[j] == t.kids[k];
      LeavesRep(nodes, t.kids[k], h - 1);
      assert k < i ==> Ids(t.kids[k]) !! Ids(t.kids[i]);
      assert i < k ==> Ids(t.kids[i]) !! Ids(t.kids[k]);
    }
  }

  // A child split

  lemma {:induction false} HalvesIds(kid: Tree, id: nat)
    requires Full(kid) && (kid.Inner? ==> |kid.kids| == MAX_CHILDREN && Apart(kid))
    requires forall j :: j in Ids(kid) ==> j < id
    ensures Ids(LeftHalf(kid)) !! Ids(RightHalf(kid, id))
    ensures Grown(kid, LeftHalf(kid), id) && Grown(kid, RightHalf(kid, id), id)
    ensures kid.Inner? ==> Apart(LeftHalf(kid)) && Apart(RightHalf(kid, id))
  {
    var l, r := LeftHalf(kid), RightHalf(kid, id);
    if kid.Inner? {
      assert forall i :: 0 <= i < |r.kids| ==> r.kids[i] == kid.kids[i + MIN_DEGREE];
      hide Ids;
      forall i | 0 <= i < |kid.kids| ensures Ids(kid.kids[i]) <= Ids(kid) { KidIds(kid, i); }
      KidIds(kid, 0);
      forall j | j in Ids(l)
        ensures j in Ids(kid) && forall b :: MIN_DEGREE <= b < MAX_CHILDREN ==> j !in Ids(kid.kids[b])
      {
        IdsCases(l, j);
        assert forall i :: 0 <= i < |l.kids| ==> l.kids[i] == kid.kids[i];
      }
      forall j | j in Ids(r)
        ensures j == id || exists b :: MIN_DEGREE <= b < MAX_CHILDREN && j in Ids(kid.kids[b])
      {
        IdsCases(r, j);
        if j != id {
          var i :| 0 <= i < |r.kids| && j in Ids(r.kids[i]);
          assert r.kids[i] == kid.kids[i + MIN_DEGREE];
        }
      }
    } else {
      assert kid.id in Ids(kid);
    }
  }

  lemma {:induction false} HalvesRep(before: seq<Node>, nodes: seq<Node>, kid: Tree, h: nat, id: nat)
    requires Rep(before, kid, h) && Full(kid) && id == |before| < |nodes|
    requires forall j :: 0 <= j < |before| && j != kid.id && j in Ids(kid) ==> nodes[j] == before[j]
    requires if kid.Leaf? then HoldsLeaf(nodes[kid.id], LeftHalf(kid)) && HoldsLeaf(nodes[id], RightHalf(kid, id))
             else HoldsInner(nodes[kid.id], LeftHalf(kid)) && HoldsInner(nodes[id], RightHalf(kid, id))
    ensures Rep(nodes, LeftHalf(kid), h) && Rep(nodes, RightHalf(kid, id), h)
    ensures Ids(LeftHalf(kid)) !! Ids(RightHalf(kid, id))
    ensures Grown(kid, LeftHalf(kid), id) && Grown(kid, RightHalf(kid, id), id)
  {
    hide Ids, Grown;
    RepIds(before, kid, h);
    HalvesIds(kid, id);
    var l, r := LeftHalf(kid), RightHalf(kid, id);
    if h > 0 {
      hide HoldsInner, HoldsLeaf;
      forall i | 0 <= i < |kid.kids| ensures Rep(nodes, kid.kids[i], h - 1) {
        KidIds(kid, i);
        ApartPair(kid, i, i);
        var touched := set j | 0 <= j < |before| && j !in Ids(kid.kids[i]);
        RepFrame(before, nodes, touched, kid.kids[i], h - 1);
      }
      assert forall i :: 0 <= i < |r.kids| ==> r.kids[i] == kid.kids[i + MIN_DEGREE];
    }
  }

  lemma {:induction false} SplitRep(before: seq<Node>, nodes: seq<Node>, t: Tree, h: nat, i: nat, id: nat)
    requires h > 0 && Rep(before, t, h) && i < |t.kids| && id == |before| < |nodes|
    requires Full(t.kids[i]) && (t.kids[i].Inner? ==> |t.kids[i].kids| == MAX_CHILDREN)
    requires |nodes| == |before| + 1 && Frame(before, nodes, {t.id, t.kids[i].id})
    requires HoldsInner(nodes[t.id], SplitChild(t, i, id))
    requires Rep(nodes, LeftHalf(t.kids[i]), h - 1) && Rep(nodes, RightHalf(t.kids[i], id), h - 1)
    requires Ids(LeftHalf(t.kids[i])) !! Ids(RightHalf(t.kids[i], id))
    requires Grown(t.kids[i], LeftHalf(t.kids[i]), id) && Grown(t.kids[i], RightHalf(t.kids[i], id), id)
    ensures Rep(nodes, SplitChild(t, i, id), h)
    ensures Grown(t, SplitChild(t, i, id), id)
  {
    var u, l, r := SplitChild(t, i, id), LeftHalf(t.kids[i]), RightHalf(t.kids[i], id);
    RepIds(before, t, h);
    SplitApart(t, i, id);
    hide Ids, HoldsInner, HoldsLeaf, Grown, Full, LeftHalf, RightHalf, Separator;
    forall j | 0 <= j < |t.kids| && j != i ensures Rep(nodes, t.kids[j], h - 1) {
      ApartPair(t, i, j);
      ApartPair(t, j, i);
      RepFrame(before, nodes, {t.id, t.kids[i].id}, t.kids[j], h - 1);
    }
    forall j | 0 <= j < |u.kids| ensures Rep(nodes, u.kids[j], h - 1) {
      assert u.kids[j] == SplitKid(t, i, l, r, j);
    }
  }

  function SplitKid(t: Tree, i: nat, l: Tree, r: Tree, j: nat): Tree
    requires t.Inner? && i < |t.kids| && j <= |t.kids|
  {
    if j < i then t.kids[j] else if j == i then l else if j == i + 1 then r else t.kids[j - 1]
  }

  lemma {:induction false} SplitApart(t: Tree, i: nat, id: nat)
    requires t.Inner? && |t.kids| == |t.keys| + 1 && i < |t.kids| && Apart(t)
    requires Full(t.kids[i]) && (t.kids[i].Inner? ==> |t.kids[i].kids| == MAX_CHILDREN)
    requires forall j :: j in Ids(t) ==> j < id
    requires Ids(LeftHalf(t.kids[i])) !! Ids(RightHalf(t.kids[i], id))
    requires Grown(t.kids[i], LeftHalf(t.kids[i]), id) && Grown(t.kids[i], RightHalf(t.kids[i], id), id)
    ensures Apart(SplitChild(t, i, id)) && Grown(t, SplitChild(t, i, id), id)
  {
    hide Ids, Full, LeftHalf, RightHalf, Separator;
    var u, l, r := SplitChild(t, i, id), LeftHalf(t.kids[i]), RightHalf(t.kids[i], id);
    forall j | 0 <= j < |u.kids| ensures u.kids[j] == SplitKid(t, i, l, r, j) {}
    forall j | 0 <= j < |t.kids| ensures t.id in Ids(t) && Ids(t.kids[j]) <= Ids(t) { KidIds(t, j); }
    forall j, k | 0 <= j < k < |u.kids| ensures Ids(u.kids[j]) !! Ids(u.kids[k]) {
      assert u.kids[j] == SplitKid(t, i, l, r, j) && u.kids[k] == SplitKid(t, i, l, r, k);
    }
    forall j | j in Ids(u) ensures j in Ids(t) || id <= j {
      IdsCases(u, j);
      if j != u.id {
        var k :| 0 <= k < |u.kids| && j in Ids(u.kids[k]);
        assert u.kids[k] == SplitKid(t, i, l, r, k);
      }
    }
  }

  /** The leaf chain after a leaf was split and its right half linked in behind it. */
  lemma {:induction false} SplitLeafChain(before: seq<Node>, nodes: seq<Node>, a: seq<Tree>, l: Tree, r: Tree,
                                          b: seq<Tree>, after: Option<nat>)
    requires Chain(before, a + [l] + b, after) && l.id < |before| == r.id < |nodes|
    requires forall j :: 0 <= j < |before| && j != l.id ==> nodes[j].next == before[j].next
    requires forall p :: 0 <= p < |a| ==> a[p].id != l.id
    requires forall p :: 0 <= p < |b| ==> b[p].id != l.id
    requires nodes[r.id].next == before[l.id].next && nodes[l.id].next == Some(r.id)
    ensures Chain(nodes, a + [l, r] + b, after)
  {
    ChainParts(before, a, [l], b, after);
    ChainFrame(before, nodes, {l.id}, a, Some(l.id));
    ChainFrame(before, nodes, {l.id}, b, after);
    assert Chain(before, [l], if b == [] then after else Some(b[0].id));
    assert [l][0] == l;
    ChainJoin(nodes, a, [l, r], b, after);
  }

  lemma {:induction false} SplitChain(before: seq<Node>, nodes: seq<Node>, t: Tree, h: nat, i: nat, id: nat,
                                      after: Option<nat>)
    requires h > 0 && Rep(before, t, h) && i < |t.kids| && Chain(before, Leaves(t), after)
    requires WellFormed(t.kids[i], h - 1, MIN_DEGREE - 1) && Full(t.kids[i])
    requires |before| == id < |nodes|
    requires forall j :: 0 <= j < |before| && j != t.kids[i].id ==> nodes[j].next == before[j].next
    requires t.kids[i].id < |before|
    requires if t.kids[i].Leaf? then nodes[id].next == before[t.kids[i].id].next && nodes[t.kids[i].id].next == Some(id)
             else nodes[t.kids[i].id].next == before[t.kids[i].id].next
    ensures Chain(nodes, Leaves(SplitChild(t, i, id)), after)
  {
    hide Ids, LeavesAll, Entries, EntriesAll, Flat;
    var kid, a, b := t.kids[i], LeavesAll(t.kids[..i]), LeavesAll(t.kids[i + 1..]);
    SplitLeaves(t, i, id);
    LeavesAround(t.kids, i);
    HalvesOk(kid, h - 1, MIN_DEGREE - 1, id);
    if kid.Leaf? {
      var l, r := LeftHalf(kid), RightHalf(kid, id);
      OtherLeaves(before, t, h, i, t.kids[..i]);
      OtherLeaves(before, t, h, i, t.kids[i + 1..]);
      ApartPair(t, i, i);
      assert Leaves(l) + Leaves(r) == [l, r];
      SameIds(before, a, kid, l, b, after);
      SplitLeafChain(before, nodes, a, l, r, b, after);
    } else {
      ChainFrame(before, nodes, {}, Leaves(t), after);
    }
  }

  lemma {:induction false} SameIds(nodes: seq<Node>, a: seq<Tree>, k: Tree, l: Tree, b: seq<Tree>, after: Option<nat>)
    requires k.id == l.id && Chain(nodes, a + [k] + b, after)
    ensures Chain(nodes, a + [l] + b, after)
  {
    var s, r := a + [k] + b, a + [l] + b;
    forall p | 0 <= p < |r| ensures Linked(nodes, r[p], NextLeaf(r, p, after)) {
      assert Linked(nodes, s[p], NextLeaf(s, p, after));
    }
  }

  // Changes to a subtree

  /** What a change from `t` to `u` keeps: the root node, the place in the leaf chain and all nodes outside. */
  ghost predicate Became(before: seq<Node>, nodes: seq<Node>, t: Tree, h: nat, u: Tree, after: Option<nat>) {
    && Rep(nodes, u, h) && u.id == t.id
    && Grown(t, u, |before|) && Frame(before, nodes, Ids(t))
    && Chain(nodes, Leaves(u), after)
    && Leaves(t) != [] && Leaves(u) != [] && Leaves(u)[0].id == Leaves(t)[0].id
  }

  lemma {:induction false} LeafBecame(before: seq<Node>, nodes: seq<Node>, t: Tree, u: Tree, after: Option<nat>)
    requires t.Leaf? && u.Leaf? && u.id == t.id < |before| == |nodes|
    requires Chain(before, Leaves(t), after) && HoldsLeaf(nodes[t.id], u)
    requires nodes == before[t.id := nodes[t.id]] && nodes[t.id].next == before[t.id].next
    ensures Became(before, nodes, t, 0, u, after)
  {
    assert Linked(before, Leaves(t)[0], NextLeaf(Leaves(t), 0, after));
  }

  lemma {:induction false} KidBecame(before: seq<Node>, nodes: seq<Node>, t: Tree, h: nat, i: nat, kid: Tree,
                                     after: Option<nat>)
    requires h > 0 && Rep(before, t, h) && i < |t.kids| && Chain(before, Leaves(t), after)
    requires Became(before, nodes, t.kids[i], h - 1, kid, AfterKid(t, i, after))
    ensures Became(before, nodes, t, h, Replaced(t, i, kid), after)
  {
    hide Ids, LeavesAll, Chain, Grown;
    ReplacedRep(before, nodes, t, h, i, kid);
    ReplacedChain(before, nodes, t, h, i, kid, after);
    ReplacedLeaves(t, i, kid);
    KidIds(t, i);
  }

  /** A split keeps the first leaf. */
  lemma {:induction false} SplitFirst(t: Tree, h: nat, i: nat, id: nat)
    requires h > 0 && t.Inner? && |t.kids| == |t.keys| + 1
    requires i < |t.kids| && WellFormed(t.kids[i], h - 1, MIN_DEGREE - 1) && Full(t.kids[i])
    ensures var u := SplitChild(t, i, id);
            Leaves(t) != [] && Leaves(u) != [] && Leaves(u)[0].id == Leaves(t)[0].id
  {
    hide LeavesAll, Entries, EntriesAll, Flat;
    SplitLeaves(t, i, id);
    LeavesAround(t.kids, i);
    HalvesOk(t.kids[i], h - 1, MIN_DEGREE - 1, id);
    NotEmpty(LeftHalf(t.kids[i]), h - 1, MIN_DEGREE - 1);
  }

  lemma {:induction false} BecameTrans(a: seq<Node>, b: seq<Node>, c: seq<Node>, t: Tree, u: Tree, v: Tree, h: nat,
                                       after: Option<nat>)
    requires Became(a, b, t, h, u, after) && Became(b, c, u, h, v, after)
    ensures Became(a, c, t, h, v, after)
  {
    hide Ids, Leaves, Chain, Rep;
  }

  /** A child's stretch of the leaf chain. */
  lemma {:induction false} KidChain(nodes: seq<Node>, t: Tree, h: nat, i: nat, after: Option<nat>)
    requires h > 0 && Rep(nodes, t, h) && i < |t.kids| && Chain(nodes, Leaves(t), after)
    ensures Chain(nodes, Leaves(t.kids[i]), AfterKid(t, i, after))
  {
    hide LeavesAll;
    LeavesAround(t.kids, i);
    LeavesRep(nodes, t.kids[i], h - 1);
    ChainParts(nodes, LeavesAll(t.kids[..i]), Leaves(t.kids[i]), LeavesAll(t.kids[i + 1..]), after);
  }

  lemma {:induction false} HalvesHold(was: Node, c: Node, s: Node, kid: Tree, id: nat)
    requires Full(kid)
    requires if kid.Leaf? then
               && HoldsLeaf(was, kid) && c.isLeaf && s.isLeaf && c.nk == MIN_DEGREE - 1 && s.nk == MIN_DEGREE
               && c.entries == was.entries && s.entries[..MIN_DEGREE] == was.entries[MIN_DEGREE - 1..MAX_KEYS]
             else
               && HoldsInner(was, kid) && !c.isLeaf && !s.isLeaf && c.nk == s.nk == MIN_DEGREE - 1
               && c.entries == was.entries && c.children == was.children
               && s.entries[..MIN_DEGREE - 1] == was.entries[MIN_DEGREE..MAX_KEYS]
               && s.children[..MIN_DEGREE] == was.children[MIN_DEGREE..MAX_CHILDREN]
    ensures if kid.Leaf? then HoldsLeaf(c, LeftHalf(kid)) && HoldsLeaf(s, RightHalf(kid, id))
            else HoldsInner(c, LeftHalf(kid)) && HoldsInner(s, RightHalf(kid, id))
    ensures Separator(kid) == was.entries[MIN_DEGREE - 1].key
  {
    if kid.Leaf? {
      assert was.entries[..MAX_KEYS][MIN_DEGREE - 1..] == was.entries[MIN_DEGREE - 1..MAX_KEYS];
    } else {
      var r := RightHalf(kid, id);
      forall i | 0 <= i < |r.keys| ensures s.entries[i].key == r.keys[i] {
        assert s.entries[..MIN_DEGREE - 1][i] == was.entries[i + MIN_DEGREE];
      }
      forall i | 0 <= i < |r.kids| ensures s.children[i] == r.kids[i].id {
        assert s.children[..MIN_DEGREE][i] == was.children[i + MIN_DEGREE];
      }
    }
  }
}
