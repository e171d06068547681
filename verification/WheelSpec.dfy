/**
 * The timing wheel as a function of its slots in deadline order, and what holds
 * in every run of inserts, reaps and pops.
 */
module WheelSpec {
  import opened Arith
  import opened Messages

  type slotCount = n: nat | 2 <= n witness 2

  const kWheelNumWslots: slotCount       // One more than the slots that cover the horizon
  const wslotWidthTsc: pos
  const horizonTsc: nat

  /** `slots[j]` is the j-th slot from the current one, with deadline `tx + j * wslotWidthTsc`. */
  datatype Wheel<E> = Wheel(tx: nat, slots: seq<seq<E>>, ready: seq<E>)

  /** Move slots whose deadline has come to the ready queue. */
  function Reap<E>(s: Wheel<E>, t: nat): (r: Wheel<E>)
    requires |s.slots| == kWheelNumWslots
    ensures |r.slots| == kWheelNumWslots && r.tx > t && (s.tx <= t ==> r.tx <= t + wslotWidthTsc)
    decreases t + 1 - s.tx
  {
    if s.tx > t then s
    else Reap(Wheel(s.tx + wslotWidthTsc, s.slots[1..] + [[]], s.ready + s.slots[0]), t)
  }

  /** How many slots after the current one an entry goes. */
  function Delta(tx: nat, desired: nat): nat {
    if desired <= tx then 0 else 1 + (desired - tx) / wslotWidthTsc
  }

  function Insert<E>(s: Wheel<E>, e: E, ref: nat, desired: nat): Wheel<E>
    requires |s.slots| == kWheelNumWslots && Delta(Reap(s, ref).tx, desired) < kWheelNumWslots
  {
    var r := Reap(s, ref);
    var d := Delta(r.tx, desired);
    r.(slots := r.slots[d := r.slots[d] + [e]])
  }

  /** The deadline of the chosen slot is no earlier than asked for and at most one slot width later. */
  lemma {:induction false} DeltaTime(tx: nat, ref: nat, desired: nat)
    requires ref < tx <= ref + wslotWidthTsc && ref <= desired
    ensures var d := Delta(tx, desired);
            desired <= tx + d * wslotWidthTsc <= desired + wslotWidthTsc
  {
    if desired > tx {
      var q, x := (desired - tx) / wslotWidthTsc, desired - tx;
      assert x == q * wslotWidthTsc + x % wslotWidthTsc;
      assert (1 + q) * wslotWidthTsc == wslotWidthTsc + q * wslotWidthTsc;
    }
  }

  // Slot times

  /** Slots fall due at these times if the wheel was built at time `base`. */
  predicate OnGrid(base: int, t: int) {
    (t - base) % wslotWidthTsc == 0
  }

  /** The first such time after `t`. */
  function After(base: int, t: int): (h: int)
    ensures OnGrid(base, h) && t < h <= t + wslotWidthTsc
  {
    var w: int := wslotWidthTsc;
    var h := base + ((t - base) / w + 1) * w;
    assert t - base == (t - base) / w * w + (t - base) % w;
    DivModUnique(h - base, w, (t - base) / w + 1, 0);
    h
  }

  lemma {:induction false} AfterLeast(base: int, t: int, g: int)
    requires OnGrid(base, g) && t < g
    ensures After(base, t) <= g
  {
    var h := After(base, t);
    if g < h { DistinctRemainders(g - base, h - base, wslotWidthTsc); }
  }

  lemma {:induction false} AfterUnique(base: int, t: int, h: int)
    requires OnGrid(base, h) && t < h <= t + wslotWidthTsc
    ensures h == After(base, t)
  {
    AfterLeast(base, t, h);
    var a := After(base, t);
    if a < h { DistinctRemainders(a - base, h - base, wslotWidthTsc); }
  }

  lemma {:induction false} GridPlus(base: int, t: int, j: nat)
    requires OnGrid(base, t)
    ensures OnGrid(base, t + j * wslotWidthTsc)
  {
    var w: int := wslotWidthTsc;
    var q := (t - base) / w;
    assert t - base == w * q;
    assert w * (q + j) == w * q + j * w;
    DivModUnique(t + j * w - base, w, q + j, 0);
  }

  /** When an entry leaves that is inserted at `ref` for time `desired`: at the first slot time after it, except that
      one for the very time of the slot that is current at `ref` leaves on that time. */
  function Leaves(base: int, ref: int, desired: int): int {
    if desired == After(base, ref) then desired else After(base, desired)
  }

  /** The slot that `insert` picks has that time. */
  lemma {:induction false} DeltaLeaves(base: int, tx: nat, ref: nat, desired: nat)
    requires OnGrid(base, tx) && ref < tx <= ref + wslotWidthTsc && ref <= desired
    ensures tx + Delta(tx, desired) * wslotWidthTsc == Leaves(base, ref, desired)
  {
    AfterUnique(base, ref, tx);
    if desired < tx {
      AfterUnique(base, desired, tx);
    } else if desired > tx {
      var d, x := Delta(tx, desired), desired - tx;
      DeltaTime(tx, ref, desired);
      assert x == x / wslotWidthTsc * wslotWidthTsc + x % wslotWidthTsc;
      assert d * wslotWidthTsc == wslotWidthTsc + x / wslotWidthTsc * wslotWidthTsc;
      GridPlus(base, tx, d);
      AfterUnique(base, desired, tx + d * wslotWidthTsc);
    }
  }

  /** An entry for an earlier time leaves no later. */
  lemma {:induction false} EarlierLeaves(base: int, ref: int, desired: int, ref': int, desired': int)
    requires desired < desired'
    ensures Leaves(base, ref, desired) <= Leaves(base, ref', desired')
  {
    AfterLeast(base, desired, Leaves(base, ref', desired'));
  }

  /** Of two entries for the same time, the second leaves earlier exactly when that time is a slot's and this slot was
      still ahead at the first insert and the current one at the second. */
  predicate Swaps(base: int, ref: int, ref': int, desired: int) {
    OnGrid(base, desired) && ref < desired - wslotWidthTsc <= ref' < desired
  }

  lemma {:induction false} SwapsExactly(base: int, ref: int, ref': int, desired: int)
    requires ref <= ref' <= desired
    ensures Leaves(base, ref', desired) < Leaves(base, ref, desired) <==> Swaps(base, ref, ref', desired)
  {
    if OnGrid(base, desired) {
      if ref < desired <= ref + wslotWidthTsc { AfterUnique(base, ref, desired); }
      if ref' < desired <= ref' + wslotWidthTsc { AfterUnique(base, ref', desired); }
    }
  }

  // How far the slots reach

  /** All slots but one are sure to reach that far, whenever the wheel was last reaped. */
  lemma {:induction false} DeltaFits(tx: nat, ref: nat, desired: nat)
    requires ref < tx <= ref + wslotWidthTsc && ref <= desired <= ref + (kWheelNumWslots - 1) * wslotWidthTsc
    ensures Delta(tx, desired) < kWheelNumWslots
  {
    if desired > tx { QuotientBelow(desired - tx, wslotWidthTsc, kWheelNumWslots - 1); }
  }

  /** They reach no farther when the current slot falls due next. */
  lemma {:induction false} DeltaReach(tx: pos, desired: nat)
    requires tx - 1 + (kWheelNumWslots - 1) * wslotWidthTsc < desired
    ensures Delta(tx, desired) >= kWheelNumWslots
  {
    MulMono(1, kWheelNumWslots - 1, wslotWidthTsc);
    QuotientBelow(desired - tx, wslotWidthTsc, kWheelNumWslots - 1);
  }

  lemma {:induction false} QuotientBelow(x: nat, w: pos, k: nat)
    ensures x / w < k <==> x < k * w
  {
    var q := x / w;
    assert x == q * w + x % w;
    if q < k {
      MulMono(q + 1, k, w);
      assert (q + 1) * w == q * w + w;
    } else {
      MulMono(k, q, w);
    }
  }
}
