/** Every run of a timing wheel: nothing is lost, early, late or overtaken. */
module WheelRuns {
  import opened Arith
  import opened Messages
  import opened Sequences
  import opened WheelSpec

  /** An inserted entry: its number, by which session, at which time and for which time. */
  datatype Item = Item(idx: nat, session: nat, ref: nat, desired: nat)

  datatype State = State(
    base: nat,               // When the wheel was built
    wheel: Wheel<Item>,
    now: nat,                // The latest time the wheel was given
    inserted: seq<Item>,
    popped: seq<Item>)

  datatype Op =
    | Insert(session: nat, ref: nat, desired: nat)
    | Reap(t: nat)
    | Pop

  /** What the wheel's user must respect: times never go back, and the assertions of `insert`. */
  predicate Allowed(s: State, op: Op) {
    match op
    case Insert(_, ref, desired) => s.now <= ref <= desired <= ref + horizonTsc
    case Reap(t) => s.now <= t
    case Pop => s.wheel.ready != []
  }

  predicate Sized(s: State) {
    |s.wheel.slots| == kWheelNumWslots
  }

  /** What `insert` asserts of the slot it picks. */
  predicate SlotAssert(s: State, ref: nat, desired: nat) {
    Sized(s) && Delta(WheelSpec.Reap(s.wheel, ref).tx, desired) < kWheelNumWslots
  }

  function NewItem(s: State, op: Op): Item
    requires op.Insert?
  {
    Item(|s.inserted|, op.session, op.ref, op.desired)
  }

  function Next(s: State, op: Op): State
    requires Sized(s) && Allowed(s, op)
  {
    match op
    case Insert(_, ref, desired) =>
      if !SlotAssert(s, ref, desired) then s                                           // An assertion failure
      else s.(wheel := WheelSpec.Insert(s.wheel, NewItem(s, op), ref, desired), now := ref,
              inserted := s.inserted + [NewItem(s, op)])
    case Reap(t) => s.(wheel := WheelSpec.Reap(s.wheel, t), now := t)
    case Pop => s.(wheel := s.wheel.(ready := s.wheel.ready[1..]), popped := s.popped + [s.wheel.ready[0]])
  }

  /** The constructor, at time `base`. */
  function Init(base: nat): State {
    State(base, Wheel(base + wslotWidthTsc, seq(kWheelNumWslots, _ => []), []), base, [], [])
  }

  ghost predicate Run(s: State, ops: seq<Op>, e: State)
    decreases |ops|
  {
    if ops == [] then s == e
    else Sized(s) && Allowed(s, ops[0]) && Run(Next(s, ops[0]), ops[1..], e)
  }

  ghost predicate Reachable(s: State) {
    exists base: nat, ops: seq<Op> :: Run(Init(base), ops, s)
  }

  function Flat(slots: seq<seq<Item>>): seq<Item> {
    if slots == [] then [] else slots[0] + Flat(slots[1..])
  }

  /** All entries ever inserted, in the order they leave or will leave the wheel. */
  function Order(s: State): seq<Item> {
    s.popped + s.wheel.ready + Flat(s.wheel.slots)
  }

  // The invariant

  /** When an entry leaves the wheel, or will. */
  function Exit(base: nat, e: Item): int {
    Leaves(base, e.ref, e.desired)
  }

  /** An entry sits in a slot whose deadline is the one it asked for or up to one slot width later. */
  predicate Timed(base: nat, tx: nat, e: Item) {
    e.desired <= tx <= e.desired + wslotWidthTsc && Exit(base, e) == tx
  }

  ghost predicate SlotsTimed(base: nat, tx: nat, slots: seq<seq<Item>>) {
    forall j, k :: 0 <= j < |slots| && 0 <= k < |slots[j]| ==> Timed(base, tx + j * wslotWidthTsc, slots[j][k])
  }

  predicate Due(base: nat, o: seq<Item>, now: nat) {
    forall x :: 0 <= x < |o| ==> o[x].desired <= Exit(base, o[x]) <= now
  }

  /** `a` leaves before `b`: at an earlier slot, or from the same slot as the one inserted first. */
  predicate Before(base: nat, a: Item, b: Item) {
    Exit(base, a) < Exit(base, b) || (Exit(base, a) == Exit(base, b) && a.idx < b.idx)
  }

  predicate InTurn(base: nat, o: seq<Item>) {
    forall x, y :: 0 <= x < y < |o| ==> Before(base, o[x], o[y])
  }

  predicate Numbered(o: seq<Item>) {
    forall x :: 0 <= x < |o| ==> o[x].idx == x
  }

  /** Entries were inserted at times that never went back, for later times. */
  predicate Dated(o: seq<Item>, now: nat) {
    && (forall x :: 0 <= x < |o| ==> o[x].ref <= o[x].desired && o[x].ref <= now)
    && (forall x, y :: 0 <= x < y < |o| ==> o[x].ref <= o[y].ref)
  }

  ghost predicate Inv(s: State) {
    && Sized(s) && s.now < s.wheel.tx <= s.now + wslotWidthTsc && OnGrid(s.base, s.wheel.tx)
    && SlotsTimed(s.base, s.wheel.tx, s.wheel.slots)
    && Due(s.base, s.popped + s.wheel.ready, s.now)
    && Numbered(s.inserted) && Dated(s.inserted, s.now)
    && multiset(s.inserted) == multiset(Order(s))
    && InTurn(s.base, Order(s))
  }

  // Slots

  lemma {:induction false} FlatConcat(a: seq<seq<Item>>, b: seq<seq<Item>>)
    ensures Flat(a + b) == Flat(a) + Flat(b)
  {
    if a == [] {
      assert a + b == b;
    } else {
      FlatConcat(a[1..], b);
      TailOfAppend(a, b);
      assert Flat(a) == a[0] + Flat(a[1..]) && Flat(a + b) == a[0] + Flat(a[1..] + b);
      AppendAssoc(a[0], Flat(a[1..]), Flat(b));
    }
  }

  lemma {:induction false} FlatIn(slots: seq<seq<Item>>, x: nat) returns (j: nat, k: nat)
    requires x < |Flat(slots)|
    ensures j < |slots| && k < |slots[j]| && slots[j][k] == Flat(slots)[x]
  {
    if x < |slots[0]| {
      j, k := 0, x;
    } else {
      j, k := FlatIn(slots[1..], x - |slots[0]|);
      j := j + 1;
    }
  }

  lemma {:induction false} FlatEmpty(slots: seq<seq<Item>>)
    requires forall j :: 0 <= j < |slots| ==> slots[j] == []
    ensures Flat(slots) == []
  {
    if slots != [] { FlatEmpty(slots[1..]); }
  }

  /** Reaping keeps the order of entries and the timing of slots, and readies only entries that are due. */
  lemma {:induction false} ReapKeeps(base: nat, w: Wheel<Item>, t: nat)
    requires |w.slots| == kWheelNumWslots && SlotsTimed(base, w.tx, w.slots)
    ensures var r := WheelSpec.Reap(w, t);
            && r.ready + Flat(r.slots) == w.ready + Flat(w.slots)
            && SlotsTimed(base, r.tx, r.slots)
            && w.ready <= r.ready && Due(base, r.ready[|w.ready|..], t)
    decreases t + 1 - w.tx
  {
    hide Flat, SlotsTimed, Due;
    if w.tx <= t {
      var v := Wheel(w.tx + wslotWidthTsc, w.slots[1..] + [[]], w.ready + w.slots[0]);
      TurnedTimed(base, w.tx, w.slots);
      ReapKeeps(base, v, t);
      FlatTurned(w.slots);
      AppendAssoc(w.ready, w.slots[0], Flat(v.slots));
      var r := WheelSpec.Reap(w, t);
      assert r.ready[|w.ready|..] == w.slots[0] + r.ready[|v.ready|..];
      FirstDue(base, w.tx, w.slots, t);
      DueMore(base, w.slots[0], r.ready[|v.ready|..], t, t);
    } else {
      assert w.ready[|w.ready|..] == [];
      NoneDue(base, t);
    }
  }

  lemma {:induction false} NoneDue(base: nat, t: nat)
    ensures Due(base, [], t)
  {
  }

  lemma {:induction false} FlatTurned(slots: seq<seq<Item>>)
    requires slots != []
    ensures Flat(slots) == slots[0] + Flat(slots[1..] + [[]])
  {
    FlatConcat(slots[1..], [[]]);
    FlatOne([]);
  }

  lemma {:induction false} TurnedTimed(base: nat, tx: nat, slots: seq<seq<Item>>)
    requires slots != [] && SlotsTimed(base, tx, slots)
    ensures SlotsTimed(base, tx + wslotWidthTsc, slots[1..] + [[]])
  {
    hide Timed;
    var turned := slots[1..] + [[]];
    forall j, k | 0 <= j < |turned| && 0 <= k < |turned[j]|
      ensures Timed(base, tx + wslotWidthTsc + j * wslotWidthTsc, turned[j][k])
    {
      assert turned[j] == slots[j + 1];
      assert (j + 1) * wslotWidthTsc == j * wslotWidthTsc + wslotWidthTsc;
      assert Timed(base, tx + (j + 1) * wslotWidthTsc, slots[j + 1][k]);
    }
  }

  lemma {:induction false} FirstDue(base: nat, tx: nat, slots: seq<seq<Item>>, t: nat)
    requires slots != [] && SlotsTimed(base, tx, slots) && tx <= t
    ensures Due(base, slots[0], t)
  {
    hide Exit;
    forall k | 0 <= k < |slots[0]| ensures slots[0][k].desired <= Exit(base, slots[0][k]) <= t {
      assert Timed(base, tx + 0 * wslotWidthTsc, slots[0][k]);
    }
  }

  lemma {:induction false} ReapGrid(base: nat, w: Wheel<Item>, t: nat)
    requires |w.slots| == kWheelNumWslots && OnGrid(base, w.tx)
    ensures OnGrid(base, WheelSpec.Reap(w, t).tx)
    decreases t + 1 - w.tx
  {
    if w.tx <= t {
      GridPlus(base, w.tx, 1);
      ReapGrid(base, Wheel(w.tx + wslotWidthTsc, w.slots[1..] + [[]], w.ready + w.slots[0]), t);
    }
  }

  /** The entries at or before a slot, and those after it. */
  lemma {:induction false} FlatAround(slots: seq<seq<Item>>, d: nat, e: Item)
    requires d < |slots|
    ensures Flat(slots) == Flat(slots[..d + 1]) + Flat(slots[d + 1..])
    ensures Flat(slots[d := slots[d] + [e]]) == Flat(slots[..d + 1]) + [e] + Flat(slots[d + 1..])
  {
    var a, b, m := slots[..d], slots[d + 1..], slots[d];
    FlatConcat(slots[..d + 1], b);
    assert slots == slots[..d + 1] + b;
    assert slots[d := m + [e]] == a + [m + [e]] + b;
    FlatConcat(a + [m + [e]], b);
    FlatConcat(a, [m + [e]]);
    FlatConcat(a, [m]);
    assert slots[..d + 1] == a + [m];
    FlatOne(m);
    FlatOne(m + [e]);
    assert Flat(a) + (m + [e]) == (Flat(a) + m) + [e];
  }

  lemma {:induction false} FlatOne(m: seq<Item>)
    ensures Flat([m]) == m
  {
    assert [m][1..] == [];
  }

  /** Entries up to a slot leave by its time. */
  lemma {:induction false} UpToSlot(base: nat, tx: nat, slots: seq<seq<Item>>, d: nat, x: nat)
    requires d < |slots| && SlotsTimed(base, tx, slots) && x < |Flat(slots[..d + 1])|
    ensures Exit(base, Flat(slots[..d + 1])[x]) <= tx + d * wslotWidthTsc
  {
    hide Exit;
    var j, k := FlatIn(slots[..d + 1], x);
    assert Timed(base, tx + j * wslotWidthTsc, slots[j][k]);
    MulMono(j, d, wslotWidthTsc);
  }

  /** Entries in later slots leave after it. */
  lemma {:induction false} BeyondSlot(base: nat, tx: nat, slots: seq<seq<Item>>, d: nat, x: nat)
    requires d < |slots| && SlotsTimed(base, tx, slots) && x < |Flat(slots[d + 1..])|
    ensures tx + d * wslotWidthTsc < Exit(base, Flat(slots[d + 1..])[x])
  {
    hide Exit;
    var j, k := FlatIn(slots[d + 1..], x);
    var i := d + 1 + j;
    assert slots[d + 1..][j] == slots[i];
    assert Timed(base, tx + i * wslotWidthTsc, slots[i][k]);
    MulMono(d + 1, i, wslotWidthTsc);
    assert (d + 1) * wslotWidthTsc == d * wslotWidthTsc + wslotWidthTsc;
  }

  // Steps

  lemma {:induction false} InitOk(base: nat)
    ensures Inv(Init(base))
  {
    FlatEmpty(Init(base).wheel.slots);
    GridPlus(base, base, 1);
  }

  /** The state after the wheel was reaped up to `t`. */
  lemma {:induction false} ReapOk(s: State, t: nat)
    requires Inv(s) && s.now <= t
    ensures Inv(Next(s, Reap(t))) && Order(Next(s, Reap(t))) == Order(s)
  {
    hide Flat, SlotsTimed, InTurn, Numbered, Due, OnGrid;
    var r := Next(s, Reap(t));
    ReapKeeps(s.base, s.wheel, t);
    ReapGrid(s.base, s.wheel, t);
    var more := r.wheel.ready[|s.wheel.ready|..];
    assert r.wheel.ready == s.wheel.ready + more;
    AppendAssoc(s.popped, s.wheel.ready, more);
    AppendAssoc(s.popped, s.wheel.ready, Flat(s.wheel.slots));
    AppendAssoc(s.popped, r.wheel.ready, Flat(r.wheel.slots));
    DueMore(s.base, s.popped + s.wheel.ready, more, s.now, t);
  }

  lemma {:induction false} PopOk(s: State)
    requires Inv(s) && s.wheel.ready != []
    ensures Inv(Next(s, Pop)) && Order(Next(s, Pop)) == Order(s)
  {
    hide Flat, SlotsTimed, InTurn, Numbered, Due, Dated, OnGrid;
    var r := Next(s, Pop);
    assert s.wheel.ready == [s.wheel.ready[0]] + r.wheel.ready;
    assert r.popped + r.wheel.ready == s.popped + s.wheel.ready;
  }

  /** Entries released or up to a slot leave by its time. */
  lemma {:induction false} BeforePlace(s: State, d: nat, x: nat)
    requires Inv(s) && d < kWheelNumWslots && x < |s.popped + s.wheel.ready + Flat(s.wheel.slots[..d + 1])|
    ensures var a := s.popped + s.wheel.ready + Flat(s.wheel.slots[..d + 1]);
            Exit(s.base, a[x]) <= s.wheel.tx + d * wslotWidthTsc
  {
    hide Exit, Flat, InTurn, Order;
    MulMono(0, d, wslotWidthTsc);
    var n := |s.popped + s.wheel.ready|;
    if x >= n { UpToSlot(s.base, s.wheel.tx, s.wheel.slots, d, x - n); }
  }

  /** Putting a new entry at the end of the slot that `insert` picks. */
  lemma {:induction false} PlaceOk(s: State, d: nat, e: Item)
    requires Inv(s) && d < kWheelNumWslots && e.idx == |s.inserted| && e.ref == s.now <= e.desired
    requires Timed(s.base, s.wheel.tx + d * wslotWidthTsc, e)
    ensures var r := s.(wheel := s.wheel.(slots := s.wheel.slots[d := s.wheel.slots[d] + [e]]),
                        inserted := s.inserted + [e]);
            Inv(r)
  {
    hide Exit, OnGrid;
    var slots := s.wheel.slots;
    var r := s.(wheel := s.wheel.(slots := slots[d := slots[d] + [e]]), inserted := s.inserted + [e]);
    PlaceTimed(s.base, s.wheel.tx, slots, d, e);
    var a, b := s.popped + s.wheel.ready + Flat(slots[..d + 1]), Flat(slots[d + 1..]);
    forall x | 0 <= x < |a| ensures Exit(s.base, a[x]) <= Exit(s.base, e) { BeforePlace(s, d, x); }
    forall x | 0 <= x < |b| ensures Exit(s.base, e) < Exit(s.base, b[x]) {
      BeyondSlot(s.base, s.wheel.tx, slots, d, x);
    }
    assert Order(s) == a + b && Order(r) == a + [e] + b by {
      hide Flat;
      FlatAround(slots, d, e);
      Assoc(s.popped + s.wheel.ready, Flat(slots[..d + 1]), e, b);
    }
    hide Flat, SlotsTimed, Timed, InTurn, Order;
    PlaceOrder(s.base, a, b, e, s.inserted);
  }

  lemma {:induction false} DueMore(base: nat, a: seq<Item>, b: seq<Item>, now: nat, t: nat)
    requires Due(base, a, now) && Due(base, b, t) && now <= t
    ensures Due(base, a + b, t)
  {
  }

  lemma {:induction false} Assoc(p: seq<Item>, x: seq<Item>, e: Item, b: seq<Item>)
    ensures p + (x + b) == (p + x) + b && p + (x + [e] + b) == (p + x) + [e] + b
  {
  }

  lemma {:induction false} PlaceTimed(base: nat, tx: nat, slots: seq<seq<Item>>, d: nat, e: Item)
    requires SlotsTimed(base, tx, slots) && d < |slots| && Timed(base, tx + d * wslotWidthTsc, e)
    ensures SlotsTimed(base, tx, slots[d := slots[d] + [e]])
  {
    hide Timed;
    var r := slots[d := slots[d] + [e]];
    forall j, k | 0 <= j < |r| && 0 <= k < |r[j]| ensures Timed(base, tx + j * wslotWidthTsc, r[j][k]) {
      if j != d || k < |slots[d]| { assert r[j][k] == slots[j][k]; }
    }
  }

  lemma {:induction false} PlaceOrder(base: nat, a: seq<Item>, b: seq<Item>, e: Item, inserted: seq<Item>)
    requires InTurn(base, a + b) && multiset(inserted) == multiset(a + b) && Numbered(inserted)
    requires e.idx == |inserted|
    requires forall x :: 0 <= x < |a| ==> Exit(base, a[x]) <= Exit(base, e)
    requires forall x :: 0 <= x < |b| ==> Exit(base, e) < Exit(base, b[x])
    ensures InTurn(base, a + [e] + b) && multiset(inserted + [e]) == multiset(a + [e] + b)
  {
    hide Exit;
    var o, r := a + b, a + [e] + b;
    Earlier(o, inserted, e);
    forall x, y | 0 <= x < y < |r| ensures Before(base, r[x], r[y]) {
      if x != |a| && y != |a| {
        var x', y' := if x < |a| then x else x - 1, if y < |a| then y else y - 1;
        assert r[x] == o[x'] && r[y] == o[y'];
      } else if y == |a| {
        assert r[x] == o[x] == a[x];
      } else {
        assert r[y] == b[y - |a| - 1];
      }
    }
  }

  lemma {:induction false} Earlier(o: seq<Item>, inserted: seq<Item>, e: Item)
    requires multiset(inserted) == multiset(o) && Numbered(inserted) && e.idx == |inserted|
    ensures forall x :: 0 <= x < |o| ==> o[x].idx < e.idx
  {
    forall x | 0 <= x < |o| ensures o[x].idx < e.idx {
      assert o[x] in multiset(o);
      assert o[x] in inserted;
    }
  }

  lemma {:induction false} InsertOk(s: State, op: Op)
    requires Inv(s) && op.Insert? && Allowed(s, op) && SlotAssert(s, op.ref, op.desired)
    ensures Inv(Next(s, op)) && Next(s, op).inserted == s.inserted + [NewItem(s, op)]
  {
    var r := Next(s, Reap(op.ref));
    ReapOk(s, op.ref);
    DeltaTime(r.wheel.tx, op.ref, op.desired);
    DeltaLeaves(s.base, r.wheel.tx, op.ref, op.desired);
    PlaceOk(r, Delta(r.wheel.tx, op.desired), NewItem(s, op));
  }

  lemma {:induction false} StepOk(s: State, op: Op)
    requires Inv(s) && Allowed(s, op)
    ensures Inv(Next(s, op))
  {
    match op
    case Insert(_, ref, desired) => if SlotAssert(s, ref, desired) { InsertOk(s, op); }
    case Reap(t) => ReapOk(s, t);
    case Pop => PopOk(s);
  }

  lemma {:induction false} RunOk(s: State, ops: seq<Op>, e: State)
    requires Inv(s) && Run(s, ops, e)
    ensures Inv(e)
    decreases |ops|
  {
    if ops != [] {
      StepOk(s, ops[0]);
      RunOk(Next(s, ops[0]), ops[1..], e);
    }
  }

  lemma {:induction false} ReachableOk(s: State)
    requires Reachable(s)
    ensures Inv(s)
  {
    var base: nat, ops: seq<Op> :| Run(Init(base), ops, s);
    InitOk(base);
    RunOk(Init(base), ops, s);
  }

  // Theorems

  /** In every run, the entries inserted are exactly those popped, ready or in the wheel, each as often. */
  lemma {:induction false} NothingLost(s: State)
    requires Reachable(s)
    ensures multiset(s.inserted) == multiset(s.popped) + multiset(s.wheel.ready) + multiset(Flat(s.wheel.slots))
  {
    ReachableOk(s);
  }

  /** In every run, an entry has been released exactly when the wheel was given its exit time, which is no earlier than
      asked for and at most one slot width later. */
  lemma {:induction false} OnTime(s: State, e: Item)
    requires Reachable(s) && e in s.inserted
    ensures e in s.popped + s.wheel.ready <==> Exit(s.base, e) <= s.now
    ensures e.desired <= Exit(s.base, e) <= e.desired + wslotWidthTsc
  {
    hide Flat, InTurn, Numbered, Run;
    ReachableOk(s);
    assert e in multiset(Order(s));
    assert e in Order(s);
    if e !in s.popped + s.wheel.ready { StillInWheel(s.base, s.wheel, e); }
  }

  lemma {:induction false} StillInWheel(base: nat, w: Wheel<Item>, e: Item)
    requires SlotsTimed(base, w.tx, w.slots) && e in Flat(w.slots)
    ensures w.tx <= Exit(base, e)
  {
    var x :| 0 <= x < |Flat(w.slots)| && Flat(w.slots)[x] == e;
    var j, k := FlatIn(w.slots, x);
    assert Timed(base, w.tx + j * wslotWidthTsc, w.slots[j][k]);
    MulMono(0, j, wslotWidthTsc);
  }

  ghost predicate Ahead(o: seq<Item>, a: Item, b: Item) {
    exists x, y :: 0 <= x < y < |o| && o[x] == a && o[y] == b
  }

  /** In every run, of two entries the one inserted first leaves last exactly when its exit time is later. For an
      earlier time that never is so, and for the same time exactly when `Swaps` says. */
  lemma {:induction false} LeavesFirst(s: State, i: nat, j: nat)
    requires Reachable(s) && i < j < |s.inserted|
    ensures var a, b := s.inserted[i], s.inserted[j];
            && (Ahead(Order(s), b, a) <==> Exit(s.base, b) < Exit(s.base, a))
            && (Ahead(Order(s), a, b) <==> !Ahead(Order(s), b, a))
            && (a.desired < b.desired ==> Ahead(Order(s), a, b))
            && (a.desired == b.desired ==> (Ahead(Order(s), b, a) <==> Swaps(s.base, a.ref, b.ref, a.desired)))
  {
    hide Run, Order, Ahead, Swaps;
    ReachableOk(s);
    TurnAhead(s.base, s.inserted, Order(s), i, j);
    ExitOrder(s.base, s.inserted[i], s.inserted[j]);
  }

  /** Of two entries, the order of leaving has that first which is to leave before the other. */
  lemma {:induction false} TurnAhead(base: nat, ins: seq<Item>, o: seq<Item>, i: nat, j: nat)
    requires InTurn(base, o) && multiset(ins) == multiset(o) && Numbered(ins) && i < j < |ins|
    ensures Ahead(o, ins[j], ins[i]) <==> Exit(base, ins[j]) < Exit(base, ins[i])
    ensures Ahead(o, ins[i], ins[j]) <==> Exit(base, ins[i]) <= Exit(base, ins[j])
  {
    hide Exit;
    var a, b := ins[i], ins[j];
    assert a in multiset(o) && b in multiset(o);
    var x :| 0 <= x < |o| && o[x] == a;
    var y :| 0 <= y < |o| && o[y] == b;
    assert Ahead(o, if x < y then a else b, if x < y then b else a);
  }

  /** The exit times of two entries, the first inserted first. */
  lemma {:induction false} ExitOrder(base: nat, a: Item, b: Item)
    requires a.ref <= b.ref <= b.desired
    ensures a.desired < b.desired ==> Exit(base, a) <= Exit(base, b)
    ensures a.desired == b.desired ==>
              (Exit(base, b) < Exit(base, a) <==> Swaps(base, a.ref, b.ref, a.desired))
  {
    if a.desired < b.desired { EarlierLeaves(base, a.ref, a.desired, b.ref, b.desired); }
    if a.desired == b.desired { SwapsExactly(base, a.ref, b.ref, a.desired); }
  }

  predicate NonDecreasing(o: seq<Item>) {
    forall i, j :: 0 <= i < j < |o| ==> o[i].desired <= o[j].desired
  }

  predicate NoneSwap(base: nat, o: seq<Item>) {
    forall i, j :: 0 <= i < j < |o| && o[i].desired == o[j].desired ==>
      !Swaps(base, o[i].ref, o[j].ref, o[i].desired)
  }

  predicate ExitsInOrder(base: nat, o: seq<Item>) {
    forall i, j :: 0 <= i < j < |o| ==> Exit(base, o[i]) <= Exit(base, o[j])
  }

  /** In every run, entries leave in insertion order exactly when their exit times are in that order. For desired times
      that never go back this is so exactly when no two entries for the same time swap. */
  lemma {:induction false} InOrder(s: State)
    requires Reachable(s)
    ensures Order(s) == s.inserted <==> ExitsInOrder(s.base, s.inserted)
    ensures NonDecreasing(s.inserted) ==> (Order(s) == s.inserted <==> NoneSwap(s.base, s.inserted))
  {
    hide Order, Exit, Run;
    ReachableOk(s);
    var ins, o := s.inserted, Order(s);
    if ExitsInOrder(s.base, ins) {
      assert InTurn(s.base, ins);
      TurnUnique(s.base, o, ins);
    }
    if o == ins {
      forall i, j | 0 <= i < j < |ins| ensures Exit(s.base, ins[i]) <= Exit(s.base, ins[j]) {
        assert Before(s.base, ins[i], ins[j]);
      }
    }
    if NonDecreasing(ins) { SwapsOnly(s.base, ins, s.now); }
  }

  lemma {:induction false} SwapsOnly(base: nat, ins: seq<Item>, now: nat)
    requires NonDecreasing(ins) && Dated(ins, now)
    ensures ExitsInOrder(base, ins) <==> NoneSwap(base, ins)
  {
    hide Exit, Swaps;
    forall i, j | 0 <= i < j < |ins|
      ensures ins[i].desired < ins[j].desired ==> Exit(base, ins[i]) <= Exit(base, ins[j])
      ensures ins[i].desired == ins[j].desired ==>
                (Exit(base, ins[j]) < Exit(base, ins[i]) <==> Swaps(base, ins[i].ref, ins[j].ref, ins[i].desired))
    {
      ExitOrder(base, ins[i], ins[j]);
    }
  }

  /** The order of leaving is unique. */
  lemma {:induction false} TurnUnique(base: nat, o: seq<Item>, p: seq<Item>)
    requires InTurn(base, o) && InTurn(base, p) && multiset(o) == multiset(p)
    ensures o == p
  {
    hide InTurn;
    assert |o| == |multiset(o)| == |p|;
    if o != [] {
      assert o[0] in multiset(p);
      assert p[0] in multiset(o);
      FirstUnique(base, o, p);
      SameTails(o, p);
      TailInTurn(base, o);
      TailInTurn(base, p);
      TurnUnique(base, o[1..], p[1..]);
    }
  }

  lemma {:induction false} SameTails(o: seq<Item>, p: seq<Item>)
    requires o != [] && p != [] && o[0] == p[0] && multiset(o) == multiset(p)
    ensures multiset(o[1..]) == multiset(p[1..])
  {
    assert o == [o[0]] + o[1..] && p == [p[0]] + p[1..];
    assert multiset(o[1..]) == multiset(o) - multiset{o[0]};
  }

  lemma {:induction false} TailInTurn(base: nat, o: seq<Item>)
    requires InTurn(base, o) && o != []
    ensures InTurn(base, o[1..])
  {
    hide Before;
  }

  lemma {:induction false} FirstUnique(base: nat, o: seq<Item>, p: seq<Item>)
    requires InTurn(base, o) && InTurn(base, p) && o != [] && p != [] && o[0] in p && p[0] in multiset(o)
    ensures o[0] == p[0]
  {
    hide Exit;
    var x :| 0 <= x < |p| && p[x] == o[0];
    var y :| 0 <= y < |o| && o[y] == p[0];
    assert x > 0 ==> Before(base, p[0], p[x]);
    assert y > 0 ==> Before(base, o[0], o[y]);
  }

  /** That happens: an entry for a slot's very deadline goes one slot later when the slot is still ahead than when it is
      the current one, so a second entry for that time can leave first. */
  lemma {:induction false} EqualTimesCanSwap()
    requires kWheelNumWslots >= 3 && wslotWidthTsc + 1 <= horizonTsc
    ensures exists s :: Reachable(s) && |s.inserted| == 2 && s.inserted[0].desired == s.inserted[1].desired
                        && s.wheel.ready == [s.inserted[1]]
  {
    var w: nat := wslotWidthTsc;
    var s0 := Init(0);
    var first, second := Insert(0, w - 1, 2 * w), Insert(0, w, 2 * w);
    assert Delta(w, 2 * w) == 2 by { assert w / w == 1; }
    var s1 := Next(s0, first);
    assert s1.wheel.slots[0] == [] && s1.wheel.slots[1] == [] && s1.wheel.slots[2] == [Item(0, 0, w - 1, 2 * w)];
    var s2 := Next(s1, second);
    ReapOnce(s1.wheel, w);
    assert s2.wheel.slots[0] == [Item(1, 0, w, 2 * w)] && s2.wheel.ready == [];
    var s3 := Next(s2, Reap(2 * w));
    ReapOnce(s2.wheel, 2 * w);
    assert s3.wheel.ready == [Item(1, 0, w, 2 * w)];
    assert Run(s3, [], s3);
    assert Run(s2, [Reap(2 * w)], s3) by { assert [Reap(2 * w)][1..] == []; }
    assert Run(s1, [second, Reap(2 * w)], s3) by { assert [second, Reap(2 * w)][1..] == [Reap(2 * w)]; }
    assert Run(s0, [first, second, Reap(2 * w)], s3) by {
      assert [first, second, Reap(2 * w)][1..] == [second, Reap(2 * w)];
    }
    assert Reachable(s3);
  }

  lemma {:induction false} ReapOnce(w: Wheel<Item>, t: nat)
    requires |w.slots| == kWheelNumWslots && w.tx == t
    ensures WheelSpec.Reap(w, t) == Wheel(t + wslotWidthTsc, w.slots[1..] + [[]], w.ready + w.slots[0])
  {
  }

  // When the horizon fits the wheel

  /** The slot assertion of `insert` holds for every insert that meets its other assertions, in every run. */
  ghost predicate SlotAssertHolds() {
    forall s: State, k: nat, ref: nat, desired: nat ::
      Reachable(s) && Allowed(s, Insert(k, ref, desired)) ==> SlotAssert(s, ref, desired)
  }

  /** It does so exactly when the horizon is covered by all slots but one. */
  lemma {:induction false} HorizonFits()
    ensures SlotAssertHolds() <==> horizonTsc <= (kWheelNumWslots - 1) * wslotWidthTsc
  {
    if horizonTsc <= (kWheelNumWslots - 1) * wslotWidthTsc {
      forall s: State, k: nat, ref: nat, desired: nat | Reachable(s) && Allowed(s, Insert(k, ref, desired))
        ensures SlotAssert(s, ref, desired)
      {
        ReachableOk(s);
        ReapOk(s, ref);
        DeltaFits(WheelSpec.Reap(s.wheel, ref).tx, ref, desired);
      }
    } else {
      HorizonOverflows(0);
      assert !SlotAssert(Init(0), wslotWidthTsc - 1, wslotWidthTsc - 1 + horizonTsc);
    }
  }

  /** Otherwise the first insert into a new wheel can fail it. */
  lemma {:induction false} HorizonOverflows(base: nat)
    requires horizonTsc > (kWheelNumWslots - 1) * wslotWidthTsc
    ensures var s, ref := Init(base), base + wslotWidthTsc - 1;
            Reachable(s) && Allowed(s, Insert(0, ref, ref + horizonTsc)) && !SlotAssert(s, ref, ref + horizonTsc)
  {
    var s := Init(base);
    assert Run(s, [], s);
    DeltaReach(s.wheel.tx, base + wslotWidthTsc - 1 + horizonTsc);
  }
}
