/** The allocator's size classes, and the fast and the slow way to find one. */
module SizeClasses {
  const MIN_CLASS_SIZE: nat := 64
  const NUM_CLASSES: nat := 18
  const MAX_CLASS_SIZE: nat := 8388608

  function Pow2(c: nat): (r: nat)
    ensures r >= 1
  {
    if c == 0 then 1 else 2 * Pow2(c - 1)
  }

  /** `class_max_size` */
  function ClassMaxSize(c: nat): nat { MIN_CLASS_SIZE * Pow2(c) }

  lemma {:induction false} MaxClass()
    ensures ClassMaxSize(NUM_CLASSES - 1) == MAX_CLASS_SIZE
  {
    assert Pow2(5) == 32;
    assert Pow2(10) == 1024 by { assert Pow2(8) == 256; }
    assert Pow2(17) == 131072 by { assert Pow2(13) == 8192; assert Pow2(15) == 32768; }
  }

  lemma {:induction false} Pow2Mono(a: nat, b: nat)
    requires a <= b
    ensures Pow2(a) <= Pow2(b)
    decreases b
  {
    if a < b { Pow2Mono(a, b - 1); }
  }

  lemma {:induction false} Pow2Less(a: nat, b: nat)
    requires a < b
    ensures Pow2(a) < Pow2(b)
  {
    Pow2Mono(a, b - 1);
  }

  /** `msb_index`: the index of the most significant bit, counted from 1; 0 for 0. */
  function MsbIndex(x: nat): nat {
    if x == 0 then 0 else 1 + MsbIndex(x / 2)
  }

  lemma {:induction false} MsbBounds(x: nat)
    ensures x < Pow2(MsbIndex(x))
    ensures x > 0 ==> MsbIndex(x) >= 1 && Pow2(MsbIndex(x) - 1) <= x
  {
    if x > 1 { MsbBounds(x / 2); }
  }

  /** `get_class` */
  function GetClass(size: nat): nat
    requires size >= 1
  {
    MsbIndex((size - 1) / MIN_CLASS_SIZE)
  }

  /** Class `c` is the smallest that holds `size` bytes. */
  predicate Smallest(size: nat, c: nat) {
    size <= ClassMaxSize(c) && (c > 0 ==> ClassMaxSize(c - 1) < size)
  }

  lemma {:induction false} SmallestUnique(size: nat, a: nat, b: nat)
    requires Smallest(size, a) && Smallest(size, b)
    ensures a == b
  {
    if a < b { Pow2Mono(a, b - 1); } else if b < a { Pow2Mono(b, a - 1); }
  }

  /** The fast form finds the smallest class. */
  lemma {:induction false} GetClassIsSmallest(size: nat)
    requires size >= 1
    ensures Smallest(size, GetClass(size))
    ensures size <= MAX_CLASS_SIZE ==> GetClass(size) < NUM_CLASSES
  {
    var x := (size - 1) / MIN_CLASS_SIZE;
    MsbBounds(x);
    if size <= MAX_CLASS_SIZE && GetClass(size) >= NUM_CLASSES {
      MaxClass();
      Pow2Mono(NUM_CLASSES - 1, GetClass(size) - 1);
    }
  }

  lemma {:induction false} ClassOfMax(c: nat)
    ensures ClassMaxSize(c) >= 1 && GetClass(ClassMaxSize(c)) == c
  {
    GetClassIsSmallest(ClassMaxSize(c));
    if c > 0 { Pow2Less(c - 1, c); }
    SmallestUnique(ClassMaxSize(c), c, GetClass(ClassMaxSize(c)));
  }

  /** `get_class_slow`: the loop over class limits finds the class that `get_class` computes. */
  method GetClassSlow(size: nat) returns (sizeClass: nat)
    requires size >= 1
    ensures sizeClass == GetClass(size) && Smallest(size, sizeClass)
  {
    sizeClass := 0;
    var classLim := MIN_CLASS_SIZE;
    while size > classLim
      invariant classLim == ClassMaxSize(sizeClass)
      invariant sizeClass > 0 ==> ClassMaxSize(sizeClass - 1) < size
      decreases size - classLim
    {
      sizeClass := sizeClass + 1;
      classLim := classLim * 2;
    }
    GetClassIsSmallest(size);
    SmallestUnique(size, sizeClass, GetClass(size));
  }
}
