/** A log in persistent memory whose appends and truncations are atomic across a crash. */
module PmemLog {

  /** What a restart finds: the entries below the persistent tail. */
  datatype Pmem<T> = Pmem(numEntries: nat, cells: seq<T>)

  function Recovered<T>(p: Pmem<T>): seq<T>
    requires p.numEntries <= |p.cells|
  {
    p.cells[..p.numEntries]
  }

  class Log<T(0)> {
    var numEntries: nat                  // Volatile copy of the tail
    var p: Pmem<T>
    ghost var exposed: seq<seq<T>>       // What a crash after each persistent write would have left

    ghost predicate Valid()
      reads this
    {
      numEntries == p.numEntries <= |p.cells|
    }

    ghost function Contents(): seq<T>
      requires Valid()
      reads this
    {
      Recovered(p)
    }

    /** One persistent write. */
    method Persist(q: Pmem<T>)
      requires q.numEntries <= |q.cells|
      modifies this`p, this`exposed
      ensures p == q && exposed == old(exposed) + [Recovered(q)]
    {
      p := q;
      exposed := exposed + [Recovered(q)];
    }

    /** The constructor resets the tail and appends an entry that is never read, since Raft counts from 1. */
    constructor (mapped: seq<T>, garbage: T)
      requires |mapped| >= 1
      ensures Valid() && Contents() == [garbage] && |p.cells| == |mapped|
    {
      numEntries := 0;
      p := Pmem(0, mapped);
      exposed := [];
      new;
      Append(garbage, mapped[0]);
    }

    /** `append`; while the entry is being written, its place holds something else. */
    method Append(entry: T, torn: T)
      requires Valid() && numEntries < |p.cells|
      modifies this
      ensures Valid() && Contents() == old(Contents()) + [entry] && |p.cells| == old(|p.cells|)
      ensures OldOrNew(old(exposed), exposed, old(Contents()), Contents())
    {
      Persist(p.(cells := p.cells[numEntries := torn]));
      assert Recovered(p) == old(Contents());
      Persist(p.(cells := p.cells[numEntries := entry]));
      assert Recovered(p) == old(Contents());
      numEntries := numEntries + 1;
      Persist(p.(numEntries := numEntries));
      assert Recovered(p) == old(Contents()) + [entry];
    }

    /** `truncate` */
    method Truncate(n: nat)
      requires Valid() && n <= numEntries
      modifies this
      ensures Valid() && Contents() == old(Contents())[..n] && |p.cells| == old(|p.cells|)
      ensures OldOrNew(old(exposed), exposed, old(Contents()), Contents())
    {
      numEntries := n;
      Persist(p.(numEntries := n));
      assert Recovered(p) == old(Contents())[..n];
    }

    /** `pop` */
    method Pop()
      requires Valid() && numEntries >= 1
      modifies this
      ensures Valid() && Contents() == old(Contents())[..|old(Contents())| - 1] && |p.cells| == old(|p.cells|)
      ensures OldOrNew(old(exposed), exposed, old(Contents()), Contents())
    {
      Truncate(numEntries - 1);
    }
  }

  /** Every log that a crash could have exposed since is the old one or the new one. */
  ghost predicate OldOrNew<T>(before: seq<seq<T>>, after: seq<seq<T>>, was: seq<T>, now: seq<T>) {
    before <= after && forall i :: |before| <= i < |after| ==> after[i] == was || after[i] == now
  }

  /** Every log that a crash could have exposed since lies between a shorter and a longer one. */
  ghost predicate PrefixesOnly<T>(before: seq<seq<T>>, after: seq<seq<T>>, longest: seq<T>, shortest: seq<T>) {
    before <= after && forall i :: |before| <= i < |after| ==> shortest <= after[i] <= longest
  }
}
