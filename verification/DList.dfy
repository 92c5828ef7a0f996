/** Growing tables with empty slots: file descriptors and inodes are indices into one. */
module DLists {
  import opened Wrappers

  const DEFAULT_BLOCKSIZE: nat := 8

  /** The first empty slot, or the length. */
  function Lowest<T>(slots: seq<Option<T>>): (i: nat)
    ensures i <= |slots| && forall j | 0 <= j < i :: slots[j].Some?
    ensures i < |slots| ==> slots[i].None?
  {
    if slots == [] || slots[0].None? then 0 else 1 + Lowest(slots[1..])
  }

  lemma {:induction false} LowestIs<T>(slots: seq<Option<T>>, i: nat)
    requires i <= |slots| && (i < |slots| ==> slots[i].None?) && forall j | 0 <= j < i :: slots[j].Some?
    ensures Lowest(slots) == i
  {
    if i > 0 {
      LowestIs(slots[1..], i - 1);
    }
  }

  function Empty<T>(n: nat): seq<Option<T>> {
    seq(n, _ => None)
  }

  /** Adding grows the table by a block when only its last slot is left. */
  function Added<T>(slots: seq<Option<T>>, block: nat, data: T): (after: seq<Option<T>>)
    requires block > 0
    ensures Lowest(slots) < |after| && |slots| <= |after|
  {
    var i := Lowest(slots);
    (if i + 1 >= |slots| then slots + Empty(block) else slots)[i := Some(data)]
  }

  function Removed<T>(slots: seq<Option<T>>, index: int): seq<Option<T>> {
    if 0 <= index < |slots| then slots[index := None] else slots
  }

  function Looked<T>(slots: seq<Option<T>>, index: int): Option<T> {
    if 0 <= index < |slots| then slots[index] else None
  }

  /** The last slot is empty. */
  predicate Spare<T>(slots: seq<Option<T>>) {
    |slots| > 0 && slots[|slots| - 1].None?
  }

  /** The new entry takes the lowest empty index, no other index changes its answer, and the last slot stays empty. */
  lemma AddTakesLowest<T>(slots: seq<Option<T>>, block: nat, data: T)
    requires block > 0 && Spare(slots)
    ensures var after, i := Added(slots, block, data), Lowest(slots);
      && Looked(slots, i).None? && (forall j | 0 <= j < i :: Looked(slots, j).Some?)
      && Looked(after, i) == Some(data) && (forall j: int | j != i :: Looked(after, j) == Looked(slots, j))
      && Spare(after) && |after| == |slots| + if i + 1 >= |slots| then block else 0
  {
  }

  lemma RemoveEmpties<T>(slots: seq<Option<T>>, index: int)
    requires Spare(slots)
    ensures forall j: int :: Looked(Removed(slots, index), j) == if j == index then None else Looked(slots, j)
    ensures Spare(Removed(slots, index))
  {
  }

  /** An index given back is the next one handed out when no lower one is empty. */
  lemma RemoveThenAdd<T>(slots: seq<Option<T>>, block: nat, index: nat, data: T)
    requires block > 0 && Spare(slots) && index < Lowest(slots)
    ensures Spare(Removed(slots, index)) && Lowest(Removed(slots, index)) == index
    ensures Added(Removed(slots, index), block, data) == slots[index := Some(data)]
  {
    LowestIs(Removed(slots, index), index);
  }

  function Count<T>(slots: seq<Option<T>>): nat {
    if slots == [] then 0 else (if slots[0].Some? then 1 else 0) + Count(slots[1..])
  }

  lemma {:induction false} CountConcat<T>(a: seq<Option<T>>, b: seq<Option<T>>)
    ensures Count(a + b) == Count(a) + Count(b)
  {
    if a == [] {
      assert a + b == b;
    } else {
      assert (a + b)[1..] == a[1..] + b;
      CountConcat(a[1..], b);
    }
  }

  lemma {:induction false} CountEmpty<T>(n: nat)
    ensures Count(Empty<T>(n)) == 0
  {
    if n > 0 {
      assert Empty<T>(n)[1..] == Empty<T>(n - 1);
      CountEmpty<T>(n - 1);
    }
  }

  lemma CountUpdate<T>(slots: seq<Option<T>>, i: nat, o: Option<T>)
    requires i < |slots|
    ensures Count(slots[i := o]) + (if slots[i].Some? then 1 else 0) == Count(slots) + if o.Some? then 1 else 0
  {
    var a, b := slots[..i], slots[i + 1..];
    assert slots == a + ([slots[i]] + b) && slots[i := o] == a + ([o] + b);
    CountConcat(a, [slots[i]] + b);
    CountConcat(a, [o] + b);
    CountConcat([slots[i]], b);
    CountConcat([o], b);
  }

  class DList<T(0)> {
    var entries: array<Option<T>>
    var used: nat
    var alloced: nat
    var blocks: nat
    const blockSize: nat

    ghost predicate Valid()
      reads this, entries
    {
      && blockSize > 0 && alloced == entries.Length == blocks * blockSize
      && Spare(entries[..]) && used == Count(entries[..])
    }

    ghost function Slots(): seq<Option<T>>
      reads this, entries
    {
      entries[..]
    }

    /** dlist_create */
    constructor (blockSize: nat, prealloc: nat)
      ensures Valid() && fresh(entries)
      ensures this.blockSize == (if blockSize > 0 then blockSize else DEFAULT_BLOCKSIZE)
      ensures Slots() == Empty((if prealloc > 0 then prealloc else 1) * this.blockSize)
    {
      var size, n := if blockSize > 0 then blockSize else DEFAULT_BLOCKSIZE, if prealloc > 0 then prealloc else 1;
      this.blockSize, blocks, used := size, n, 0;
      alloced := n * size;
      entries := new Option<T>[n * size](_ => None);
      new;
      assert entries[..] == Empty(n * size);
      CountEmpty<T>(n * size);
      assert n * size >= 1;
    }

    /** dlist_add */
    method Add(data: T) returns (i: nat)
      requires Valid()
      modifies this, entries
      ensures Valid() && (entries == old(entries) || fresh(entries))
      ensures i == old(Lowest(Slots())) && Slots() == Added(old(Slots()), blockSize, data)
    {
      ghost var before := entries[..];
      i := 0;
      while i < alloced && entries[i].Some?
        invariant i <= alloced && forall j | 0 <= j < i :: entries[j].Some?
      {
        i := i + 1;
      }
      LowestIs(before, i);
      CountUpdate(before, i, Some(data));
      if i >= alloced - 1 {
        var old' := entries;
        entries := new Option<T>[(blocks + 1) * blockSize](j requires 0 <= j reads old' => if j < old'.Length then old'[j] else None);
        assert (blocks + 1) * blockSize == blocks * blockSize + blockSize;
        alloced := alloced + blockSize;
        blocks := blocks + 1;
        var j := i;
        while j < alloced
          invariant i <= j <= alloced == entries.Length && fresh(entries)
          invariant entries[..] == before + Empty(blockSize) && used == old(used) && blocks == old(blocks) + 1
          invariant entries.Length == blocks * blockSize
        {
          entries[j] := None;
          j := j + 1;
        }
        CountConcat(before, Empty<T>(blockSize));
        CountEmpty<T>(blockSize);
        CountUpdate(before + Empty(blockSize), i, Some(data));
      }
      ghost var grown := entries[..];
      entries[i] := Some(data);
      assert entries[..] == grown[i := Some(data)];
      used := used + 1;
    }

    /** dlist_remove */
    method Remove(index: int) returns (ret: int)
      requires Valid()
      modifies this, entries
      ensures Valid() && entries == old(entries) && ret == 0
      ensures Slots() == Removed(old(Slots()), index)
    {
      ret := 0;
      // A negative index is compared as a large unsigned number.
      if 0 <= index < alloced && entries[index].Some? {
        CountUpdate(entries[..], index, None);
        ghost var before := entries[..];
        entries[index] := None;
        assert entries[..] == before[index := None];
        used := used - 1;
      }
    }

    /** dlist_get */
    method Get(index: int) returns (ret: Option<T>)
      requires Valid()
      ensures ret == Looked(Slots(), index)
    {
      ret := None;
      if 0 <= index < alloced && entries[index].Some? {
        ret := entries[index];
      }
    }
  }
}
