/**
 * The doubly linked list of active requests: the links in the slots and in the
 * two sentinels, and the sequence of slots they stand for.
 */
module ActiveList {
  import opened Messages
  import opened Sequences
  import opened Datapath

  const root: nat := kSessionReqWindow          // active_rpcs_root_sentinel_
  const tail: nat := kSessionReqWindow + 1      // active_rpcs_tail_sentinel_

  /** `next_` and `prev_` of every slot and sentinel. */
  datatype Links = Links(next: seq<nat>, prev: seq<nat>)

  /** The sentinels around the active slots. */
  function Ring(q: seq<nat>): seq<nat> { [root] + q + [tail] }

  /** Following `next` from the root sentinel gives exactly the slots of `q` and then the tail sentinel, and following
      `prev` leads back. */
  predicate Linked(l: Links, q: seq<nat>) {
    && |l.next| == |l.prev| == kSessionReqWindow + 2
    && Distinct(q) && (forall k | 0 <= k < |q| :: q[k] < kSessionReqWindow)
    && forall k | 0 <= k <= |q| :: l.next[Ring(q)[k]] == Ring(q)[k + 1] && l.prev[Ring(q)[k + 1]] == Ring(q)[k]
  }

  function Empty(): Links {
    var n := kSessionReqWindow + 2;
    Links(seq(n, _ => tail), seq(n, _ => root))
  }

  lemma {:induction false} EmptyLinked()
    ensures Linked(Empty(), [])
  {
  }

  /** `add_to_active_rpc_list` */
  function Added(l: Links, i: nat): Links
    requires |l.next| == |l.prev| == kSessionReqWindow + 2 && i < kSessionReqWindow && l.prev[tail] < |l.next|
  {
    var prevTail := l.prev[tail];
    Links(l.next[prevTail := i][i := tail], l.prev[i := prevTail][tail := i])
  }

  lemma {:induction false} AddLinks(l: Links, q: seq<nat>, i: nat)
    requires Linked(l, q) && i < kSessionReqWindow && i !in q
    ensures l.prev[tail] < |l.next| && Linked(Added(l, i), q + [i])
  {
    var r, n := Ring(q), |q|;
    assert l.prev[r[n + 1]] == r[n];
    var m, r' := Added(l, i), Ring(q + [i]);
    assert forall k | 0 <= k <= n :: r'[k] == r[k];
    forall k | 0 <= k <= n + 1 ensures m.next[r'[k]] == r'[k + 1] && m.prev[r'[k + 1]] == r'[k] {
      if k < n {
        Apart(q, k, n);
        assert l.next[r[k]] == r[k + 1] && l.prev[r[k + 1]] == r[k];
      }
    }
  }

  /** Members of the ring differ. */
  lemma {:induction false} Apart(q: seq<nat>, j: nat, k: nat)
    requires Distinct(q) && (forall x | 0 <= x < |q| :: q[x] < kSessionReqWindow) && j < k <= |q| + 1
    ensures Ring(q)[j] != Ring(q)[k]
  {
  }

  /** `delete_from_active_rpc_list` */
  function Deleted(l: Links, i: nat): Links
    requires |l.next| == |l.prev| && i < |l.next| && l.prev[i] < |l.next| && l.next[i] < |l.next|
  {
    Links(l.next[l.prev[i] := l.next[i]], l.prev[l.next[i] := l.prev[i]])
  }

  lemma {:induction false} DeleteLinks(l: Links, q: seq<nat>, i: nat)
    requires Linked(l, q) && i in q
    ensures i < |l.next| && l.prev[i] < |l.next| && l.next[i] < |l.next|
    ensures Linked(Deleted(l, i), Without(q, i)) && i !in Without(q, i)
  {
    hide Linked;
    var d :| 0 <= d < |q| && q[d] == i;
    LinksAt(l, q, d);
    LinksAt(l, q, d + 1);
    DeletedLinked(l, q, d);
    WithoutIs(q, d);
  }

  lemma {:induction false} DeletedLinked(l: Links, q: seq<nat>, d: nat)
    requires Linked(l, q) && d < |q| && q[d] < |l.next| && l.prev[q[d]] < |l.next| && l.next[q[d]] < |l.next|
    ensures Distinct(q) && Linked(Deleted(l, q[d]), q[..d] + q[d + 1..])
  {
    var p, m := q[..d] + q[d + 1..], Deleted(l, q[d]);
    Shorter(q, d);
    forall k | 0 <= k <= |p| ensures m.next[Ring(p)[k]] == Ring(p)[k + 1] && m.prev[Ring(p)[k + 1]] == Ring(p)[k] {
      DeletedAt(l, q, d, k);
    }
  }

  lemma {:induction false} Shorter(q: seq<nat>, d: nat)
    requires Distinct(q) && d < |q| && forall k | 0 <= k < |q| :: q[k] < kSessionReqWindow
    ensures var p := q[..d] + q[d + 1..];
            Distinct(p) && q[d] !in p && forall k | 0 <= k < |p| :: p[k] < kSessionReqWindow
  {
  }

  lemma {:induction false} LinksAt(l: Links, q: seq<nat>, k: nat)
    requires Linked(l, q) && k <= |q|
    ensures |l.next| == |l.prev| && Ring(q)[k] < |l.next| && Ring(q)[k + 1] < |l.next|
    ensures l.next[Ring(q)[k]] == Ring(q)[k + 1] && l.prev[Ring(q)[k + 1]] == Ring(q)[k]
    ensures k < |q| ==> Ring(q)[k + 1] == q[k]
  {
  }

  /** The slots that a walk along `next` visits before the tail sentinel, at most `n` of them. */
  function Walk(l: Links, i: nat, n: nat): seq<nat>
    decreases n
  {
    if n == 0 || i >= |l.next| || l.next[i] == tail then [] else [l.next[i]] + Walk(l, l.next[i], n - 1)
  }

  /** From the root sentinel it visits exactly the active slots, in order, however long it may go on. */
  lemma {:induction false} WalkVisits(l: Links, q: seq<nat>, n: nat)
    requires Linked(l, q) && |q| <= n
    ensures Walk(l, root, n) == q
  {
    WalkFrom(l, q, 0, n);
    assert q[0..] == q;
  }

  lemma {:induction false} WalkFrom(l: Links, q: seq<nat>, k: nat, n: nat)
    requires Linked(l, q) && k <= |q| <= k + n
    ensures Walk(l, Ring(q)[k], n) == q[k..]
    decreases |q| - k
  {
    hide Linked;
    LinksAt(l, q, k);
    if k < |q| {
      RingApart(l, q, k + 1, |q| + 1);
      WalkFrom(l, q, k + 1, n - 1);
    }
  }

  /** The ring at an active slot and at its end. */
  lemma {:induction false} OnActive(l: Links, q: seq<nat>, k: nat)
    requires Linked(l, q) && k <= |q| && Ring(q)[k + 1] != tail
    ensures k < |q| && Ring(q)[k + 1] == q[k] < kSessionReqWindow
    ensures q[k] < |l.next| && l.next[q[k]] == Ring(q)[k + 2]
  {
    if k < |q| { LinksAt(l, q, k + 1); }
  }

  lemma {:induction false} OnTail(l: Links, q: seq<nat>, k: nat)
    requires Linked(l, q) && k <= |q| && Ring(q)[k + 1] == tail
    ensures k == |q|
  {
    if k < |q| { LinksAt(l, q, k); }
  }

  lemma {:induction false} DeletedAt(l: Links, q: seq<nat>, d: nat, k: nat)
    requires Linked(l, q) && d < |q| && k < |q| && q[d] < |l.next|
    requires l.prev[q[d]] < |l.next| && l.next[q[d]] < |l.next|
    ensures var m, r := Deleted(l, q[d]), Ring(q[..d] + q[d + 1..]);
            r[k] < |m.next| && r[k + 1] < |m.prev| && m.next[r[k]] == r[k + 1] && m.prev[r[k + 1]] == r[k]
  {
    hide Linked;
    var r, r' := Ring(q), Ring(q[..d] + q[d + 1..]);
    RingAt(q, d, k);
    RingAt(q, d, k + 1);
    LinksAt(l, q, d);
    LinksAt(l, q, d + 1);
    LinksAt(l, q, k);
    LinksAt(l, q, k + 1);
    if k < d {
      RingApart(l, q, k, d);
      RingApart(l, q, k + 1, d + 2);
    } else if k > d {
      RingApart(l, q, d, k + 1);
      RingApart(l, q, d + 2, k + 2);
    }
  }

  lemma {:induction false} RingAt(q: seq<nat>, d: nat, k: nat)
    requires d < |q| && k <= |q|
    ensures Ring(q[..d] + q[d + 1..])[k] == if k <= d then Ring(q)[k] else Ring(q)[k + 1]
  {
  }

  lemma {:induction false} RingApart(l: Links, q: seq<nat>, j: nat, k: nat)
    requires Linked(l, q) && j < k <= |q| + 1
    ensures Ring(q)[j] != Ring(q)[k]
  {
    Apart(q, j, k);
  }

  lemma {:induction false} WithoutIs(q: seq<nat>, d: nat)
    requires Distinct(q) && d < |q|
    ensures Without(q, q[d]) == q[..d] + q[d + 1..] && q[d] !in Without(q, q[d])
    decreases |q|
  {
    if d > 0 {
      WithoutIs(q[1..], d - 1);
      assert q[1..][d - 1] == q[d] && q[0] != q[d];
      assert [q[0]] + (q[1..][..d - 1] + q[1..][d..]) == q[..d] + q[d + 1..];
    } else {
      assert q[..0] + q[1..] == q[1..];
    }
  }
}
