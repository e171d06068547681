/**
 * The Raft log: a growable ring of entries with a base index, mirrored entry by
 * entry in persistent memory.
 */
module RaftLog {
  import opened Arith
  import opened Options
  import PmemLog

  /** The ring index `k` places after `front`. */
  function Wrap(front: nat, k: nat, size: nat): nat {
    if front + k < size then front + k else if front + k >= size + size then 0 else front + k - size
  }

  lemma {:induction false} WrapIsMod(front: nat, k: nat, size: nat)
    requires front < size && k <= size
    ensures (front + k) % size == Wrap(front, k, size)
  {
    if front + k >= size + size { DivModUnique(front + k, size, 2, 0); }
    else if front + k >= size { DivModUnique(front + k, size, 1, front + k - size); }
    else { DivModUnique(front + k, size, 0, front + k); }
  }

  class Log<E(0)> {
    var size: nat
    var count: nat
    var front: nat
    var back: nat
    var base: nat
    var entries: array<E>

    ghost predicate Valid()
      reads this
    {
      && entries.Length == size >= 1
      && front < size && count <= size
      && back == Wrap(front, count, size)
    }

    /** The live entries in order; the first has index `base + 1`. */
    ghost function Contents(): seq<E>
      requires Valid()
      reads this, entries
    {
      seq(count, k requires 0 <= k < count && Valid() reads this, entries => entries[Wrap(front, k, size)])
    }

    /** `log_alloc` */
    constructor (initialSize: nat)
      requires initialSize >= 1
      ensures Valid() && fresh(entries) && Contents() == [] && base == 0
    {
      size, count, front, back, base := initialSize, 0, 0, 0, 0;
      entries := new E[initialSize];
    }

    /** `__ensurecapacity`; false when memory for a larger ring is refused. */
    method EnsureCapacity(memOk: bool) returns (ok: bool)
      requires Valid()
      modifies this`size, this`entries, this`front, this`back
      ensures Valid() && Contents() == old(Contents()) && (entries == old(entries) || fresh(entries))
      ensures ok == (old(count < size) || memOk) && (ok ==> count < size)
    {
      if count < size { return true; }
      if !memOk { return false; }
      var temp := new E[size * 2];
      var i, j := 0, front;
      while i < count
        invariant i <= count && j <= size && temp.Length == size * 2
        invariant i < count ==> (if j == size then 0 else j) == Wrap(front, i, size)
        invariant forall k :: 0 <= k < i ==> temp[k] == entries[Wrap(front, k, size)]
        modifies temp
      {
        if j == size { j := 0; }
        temp[i] := entries[j];
        i, j := i + 1, j + 1;
      }
      size := size * 2;
      entries := temp;
      front := 0;
      back := count;
      return true;
    }

    /** Write an entry behind the live ones. */
    method Place(e: E)
      requires Valid() && count < size
      modifies entries
      ensures Valid() && Contents() == old(Contents()) && entries[back] == e
    {
      WrapApart(front, count, size);
      entries[back] := e;
    }

    /** Take the entry behind the live ones into the log. */
    method Advance()
      requires Valid() && count < size
      modifies this`count, this`back
      ensures Valid() && count == old(count) + 1 && Contents() == old(Contents()) + [old(entries[back])]
    {
      WrapIsMod(back, 1, size);
      WrapNext(front, count, size);
      ghost var before, e := Contents(), entries[back];
      count := count + 1;
      back := (back + 1) % size;
      assert Contents() == before + [e];
    }

    /** `log_append_entry` without callbacks. */
    method AppendEntry(e: E, memOk: bool) returns (ok: bool)
      requires Valid()
      modifies this, entries
      ensures Valid() && (entries == old(entries) || fresh(entries)) && base == old(base)
      ensures ok == (old(count < size) || memOk)
      ensures Contents() == if ok then old(Contents()) + [e] else old(Contents())
    {
      ok := EnsureCapacity(memOk);
      if !ok { return; }
      Place(e);
      Advance();
    }

    /** `log_get_at_idx` */
    method GetAtIdx(idx: nat) returns (r: Option<E>)
      requires Valid()
      ensures r == if base < idx <= base + count then Some(Contents()[idx - base - 1]) else None
    {
      if idx == 0 { return None; }
      if base + count < idx || idx <= base { return None; }
      WrapIsMod(front, idx - 1 - base, size);
      return Some(entries[(front + (idx - 1) - base) % size]);
    }

    /** `log_get_from_idx`: where the entry with an index is, and how many live entries follow it in the array. */
    method GetFromIdx(idx: nat) returns (r: Option<nat>, nEtys: nat)
      requires Valid() && idx >= 1
      ensures r.Some? <==> base < idx <= base + count
      ensures r.None? ==> nEtys == 0
      ensures r.Some? ==>
        && 1 <= nEtys <= base + count - idx + 1
        && r.value + nEtys <= entries.Length
        && entries[r.value..r.value + nEtys] == Contents()[idx - base - 1..idx - base - 1 + nEtys]
        && (nEtys < base + count - idx + 1 ==> r.value + nEtys == entries.Length)
    {
      if base + count < idx || idx <= base { return None, 0; }
      var k := idx - 1 - base;
      WrapIsMod(front, k, size);
      var i := (front + k) % size;
      nEtys := if i < back then back - i else size - i;
      RunLength(front, count, back, size, k);
      return Some(i), nEtys;
    }

    /** `log_peektail` */
    method PeekTail() returns (r: Option<E>)
      requires Valid()
      ensures r == if count == 0 then None else Some(Contents()[count - 1])
    {
      if count == 0 { return None; }
      WrapBack(front, count, size);
      if back == 0 { return Some(entries[size - 1]); }
      return Some(entries[back - 1]);
    }

    /** `log_poll` */
    method Poll() returns (r: Option<E>)
      requires Valid()
      modifies this`front, this`count, this`base
      ensures Valid()
      ensures if old(count) == 0 then r == None && Contents() == old(Contents()) && base == old(base)
              else r == Some(old(Contents())[0]) && Contents() == old(Contents())[1..] && base == old(base) + 1
    {
      if count == 0 { return None; }
      r := Some(entries[front]);
      WrapIsMod(front, 1, size);
      WrapShift(front, count, size);
      ghost var before := Contents();
      front := (front + 1) % size;
      count := count - 1;
      base := base + 1;
      assert Contents() == before[1..];
    }

    /** One turn of the loop of `log_delete`, without callbacks. */
    method PopBack()
      requires Valid() && count >= 1
      modifies this`back, this`count
      ensures Valid() && count == old(count) - 1
      ensures Contents() == old(Contents())[..old(count) - 1]
    {
      WrapBack(front, count, size);
      back := if back == 0 then size - 1 else back - 1;        // mod(back - 1, size)
      count := count - 1;
    }

    /** `log_delete` without callbacks: exactly the entries with an index below `idx` stay. The last one that stays has
        index `base + count`. */
    method Delete(idx: nat) returns (ok: bool)
      requires Valid()
      modifies this`back, this`count
      ensures Valid() && ok == (idx != 0)
      ensures !ok ==> Contents() == old(Contents())
      ensures ok ==> Contents() <= old(Contents())
      ensures ok ==> (count > 0 ==> base + count < idx) && (count < old(count) ==> idx <= base + count + 1)
    {
      if idx == 0 { return false; }
      var from := if idx < base then base else idx;
      while from <= base + count && count > 0
        invariant Valid() && count <= old(count) && Contents() == old(Contents())[..count]
        invariant count < old(count) ==> idx <= base + count + 1
        decreases count
      {
        PopBack();
      }
      return true;
    }
  }

  /** The ring and its persistent mirror, coupled by the log callbacks of the replicated state machine. */
  class Mirrored<E(0)> {
    const log: Log<E>
    const pmem: PmemLog.Log<E>

    /** The persistent log is one unused entry and then the ring's entries. */
    ghost predicate Valid()
      reads this, log, log.entries, pmem
    {
      && log.Valid() && pmem.Valid() && log.base == 0
      && |pmem.Contents()| >= 1 && pmem.Contents()[1..] == log.Contents()
    }

    constructor (initialSize: nat, mapped: seq<E>, garbage: E)
      requires initialSize >= 1 && |mapped| >= 1
      ensures Valid() && log.Contents() == [] && fresh(log) && fresh(log.entries) && fresh(pmem)
    {
      log := new Log(initialSize);
      pmem := new PmemLog.Log(mapped, garbage);
    }

    /** `log_append_entry` with `smr_raft_log_offer_cb`, whose check of the entry's index never fails. */
    method AppendEntry(e: E, memOk: bool, torn: E) returns (ok: bool, idxChecked: bool)
      requires Valid() && pmem.numEntries < |pmem.p.cells|
      modifies log, log.entries, pmem
      ensures Valid() && (log.entries == old(log.entries) || fresh(log.entries))
      ensures log.Contents() == if ok then old(log.Contents()) + [e] else old(log.Contents())
      ensures ok == (old(log.count < log.size) || memOk) && (ok ==> idxChecked)
      ensures PmemLog.OldOrNew(old(pmem.exposed), pmem.exposed, old(pmem.Contents()), pmem.Contents())
    {
      var idx := log.base + log.count + 1;
      ok := log.EnsureCapacity(memOk);
      idxChecked := false;
      if !ok { return; }
      log.Place(e);
      idxChecked := idx == pmem.numEntries;
      ghost var mirror := pmem.Contents();
      pmem.Append(e, torn);
      log.Advance();
      assert (mirror + [e])[1..] == mirror[1..] + [e];
    }

    /** `log_delete` with `smr_raft_log_pop_cb`: both logs lose the entries from `idx` on. */
    method Delete(idx: nat) returns (ok: bool)
      requires Valid()
      modifies log, pmem
      ensures Valid() && ok == (idx != 0)
      ensures log.Contents() == if idx == 0 || idx > old(log.count) then old(log.Contents())
                                else old(log.Contents())[..idx - 1]
      ensures PmemLog.PrefixesOnly(old(pmem.exposed), pmem.exposed, old(pmem.Contents()), pmem.Contents())
    {
      if idx == 0 { return false; }
      while idx <= log.base + log.count && log.count > 0
        invariant Valid() && log.entries == old(log.entries) && log.count <= old(log.count)
        invariant log.count == old(log.count) || idx <= log.count + 1
        invariant log.Contents() == old(log.Contents())[..log.count]
        invariant pmem.Contents() <= old(pmem.Contents())
        invariant PmemLog.PrefixesOnly(old(pmem.exposed), pmem.exposed, old(pmem.Contents()), pmem.Contents())
        decreases log.count
      {
        PopBoth();
      }
      return true;
    }

    /** One entry leaves both logs. */
    method PopBoth()
      requires Valid() && log.count >= 1
      modifies log`back, log`count, pmem
      ensures Valid() && log.count == old(log.count) - 1
      ensures log.Contents() == old(log.Contents())[..log.count]
      ensures pmem.Contents() <= old(pmem.Contents())
      ensures PmemLog.OldOrNew(old(pmem.exposed), pmem.exposed, old(pmem.Contents()), pmem.Contents())
    {
      ghost var mirror := pmem.Contents();
      assert |mirror[1..]| == |log.Contents()|;
      pmem.Pop();
      log.PopBack();
      assert mirror[..|mirror| - 1][1..] == mirror[1..][..|mirror| - 2];
    }
  }

  // Ring arithmetic

  lemma {:induction false} WrapApart(front: nat, count: nat, size: nat)
    requires front < size && count < size
    ensures Wrap(front, count, size) < size
    ensures forall k :: 0 <= k < count ==> Wrap(front, k, size) != Wrap(front, count, size)
  {
  }

  lemma {:induction false} WrapNext(front: nat, k: nat, size: nat)
    requires front < size && k < size
    ensures Wrap(Wrap(front, k, size), 1, size) == Wrap(front, k + 1, size)
  {
  }

  lemma {:induction false} WrapShift(front: nat, count: nat, size: nat)
    requires front < size && 1 <= count <= size
    ensures Wrap(front, 1, size) < size
    ensures forall k :: 0 <= k <= count - 1 ==> Wrap(Wrap(front, 1, size), k, size) == Wrap(front, k + 1, size)
  {
  }

  lemma {:induction false} WrapBack(front: nat, count: nat, size: nat)
    requires front < size && 1 <= count <= size
    ensures var back := Wrap(front, count, size);
            (if back == 0 then size - 1 else back - 1) == Wrap(front, count - 1, size)
  {
  }

  /** The run from ring place `k` to the end of the live entries or of the array, as `log_get_from_idx` computes it. */
  lemma {:induction false} RunLength(front: nat, count: nat, back: nat, size: nat, k: nat)
    requires front < size && k < count <= size && back == Wrap(front, count, size)
    ensures var i := Wrap(front, k, size);
            var n := if i < back then back - i else size - i;
            && 1 <= n <= count - k && i + n <= size
            && (n < count - k ==> i + n == size)
            && forall m :: k <= m < k + n ==> Wrap(front, m, size) == i + m - k
  {
  }
}
