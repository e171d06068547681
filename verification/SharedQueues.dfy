/** The entries of one slot in a queue that all slots share. */
module SharedQueues {
  import opened Datapath
  import opened Sequences

  function Of<T>(q: seq<Tagged<T>>, i: nat): seq<T> {
    if q == [] then [] else (if q[0].slot == i then [q[0].item] else []) + Of(q[1..], i)
  }

  lemma {:induction false} OfConcat<T>(a: seq<Tagged<T>>, b: seq<Tagged<T>>, i: nat)
    ensures Of(a + b, i) == Of(a, i) + Of(b, i)
  {
    if a == [] {
      assert a + b == b;
    } else {
      OfConcat(a[1..], b, i);
      TailOfAppend(a, b);
      var head := if a[0].slot == i then [a[0].item] else [];
      assert Of(a, i) == head + Of(a[1..], i) && Of(a + b, i) == head + Of(a[1..] + b, i);
      AppendAssoc(head, Of(a[1..], i), Of(b, i));
    }
  }

  lemma {:induction false} OfAt<T>(i: nat, items: seq<T>, j: nat)
    ensures Of(At(i, items), j) == if i == j then items else []
    decreases |items|
  {
    if items != [] {
      OfAt(i, items[1..], j);
      assert At(i, items)[1..] == At(i, items[1..]);
    }
  }

  /** Appending entries of slot `i` shows only to slot `i`. */
  lemma {:induction false} OfAppend<T>(q: seq<Tagged<T>>, i: nat, items: seq<T>, j: nat)
    ensures Of(q + At(i, items), j) == if i == j then Of(q, j) + items else Of(q, j)
  {
    OfConcat(q, At(i, items), j);
    OfAt(i, items, j);
  }

  /** Where entry `k` of the queue is among the entries of its slot, and what its removal leaves. */
  lemma {:induction false} OfRemove<T>(q: seq<Tagged<T>>, k: nat, j: nat)
    requires k < |q|
    ensures var i, p := q[k].slot, |Of(q[..k], q[k].slot)|;
            var r := q[..k] + q[k + 1..];
            && p < |Of(q, i)| && Of(q, i)[p] == q[k].item
            && Of(r, j) == if i == j then Of(q, i)[..p] + Of(q, i)[p + 1..] else Of(q, j)
  {
    assert q == q[..k] + ([q[k]] + q[k + 1..]);
    var i := q[k].slot;
    OfConcat(q[..k], [q[k]] + q[k + 1..], i);
    OfConcat([q[k]], q[k + 1..], i);
    OfConcat(q[..k], q[k + 1..], j);
    OfConcat(q[..k], [q[k]] + q[k + 1..], j);
    OfConcat([q[k]], q[k + 1..], j);
    assert Of([q[k]], i) == [q[k].item];
    assert Of([q[k]], j) == if i == j then [q[k].item] else [];
  }

  /** Taking the head of the queue takes the head of its slot. */
  lemma {:induction false} OfTail<T>(q: seq<Tagged<T>>, j: nat)
    requires q != []
    ensures Of(q, q[0].slot) != [] && Of(q, q[0].slot)[0] == q[0].item
    ensures Of(q[1..], j) == if q[0].slot == j then Of(q, j)[1..] else Of(q, j)
    ensures |q| == 1 ==> Of(q[1..], j) == []
  {
  }

  /** Each entry of a slot stands somewhere in the queue. */
  lemma {:induction false} OfIn<T>(q: seq<Tagged<T>>, k: nat)
    requires k < |q|
    ensures q[k].item in Of(q, q[k].slot)
    decreases k
  {
    if k > 0 {
      OfIn(q[1..], k - 1);
    }
  }
}
