/** The headers that slabs keep in the first bytes of their pages, and the lists they are chained in. */
module SlabMemory {
  datatype Status = FREE | PARTIAL | FULL

  /** slab_t. `last` points away from the list head, `next` towards it; 0 is NULL. */
  datatype Slab = Slab(last: nat, next: nat, cache: nat, bits: seq<bv8>, bitsFree: int, status: Status)

  /** What a page starts with: a slab header with its magic number, or the length word of a large block. */
  datatype Head = SlabHead(slab: Slab) | SizeWord(size: nat)

  type Heads = map<nat, Head>

  /** The memory the kernel reaches by casting page addresses. */
  class Memory {
    var heads: Heads

    constructor ()
      ensures heads == map[]
    {
      heads := map[];
    }
  }

  ghost predicate IsSlab(heads: Heads, p: nat) {
    p != 0 && p in heads && heads[p].SlabHead?
  }

  function SetLast(heads: Heads, p: nat, last: nat): (after: Heads)
    requires p in heads && heads[p].SlabHead?
    ensures after.Keys == heads.Keys
  {
    heads[p := SlabHead(heads[p].slab.(last := last))]
  }

  function SetNext(heads: Heads, p: nat, next: nat): (after: Heads)
    requires p in heads && heads[p].SlabHead?
    ensures after.Keys == heads.Keys
  {
    heads[p := SlabHead(heads[p].slab.(next := next))]
  }

  // ---------- Lists ----------

  function First(list: seq<nat>): nat {
    if list == [] then 0 else list[0]
  }

  ghost predicate Distinct(list: seq<nat>) {
    forall i, j | 0 <= i < j < |list| :: list[i] != list[j]
  }

  /** The slab at position i of a list points to its neighbours. */
  ghost predicate LinkedAt(heads: Heads, list: seq<nat>, i: nat)
    requires i < |list|
  {
    && IsSlab(heads, list[i])
    && heads[list[i]].slab.last == (if i + 1 < |list| then list[i + 1] else 0)
    && heads[list[i]].slab.next == (if i > 0 then list[i - 1] else 0)
  }

  /** An acyclic, well-linked list. */
  ghost predicate Linked(heads: Heads, list: seq<nat>) {
    && Distinct(list)
    && forall i | 0 <= i < |list| :: LinkedAt(heads, list, i)
  }

  function Without(list: seq<nat>, k: nat): seq<nat>
    requires k < |list|
  {
    list[..k] + list[k + 1..]
  }

  /** The same but for the links. */
  ghost predicate SameBody(a: Head, b: Head) {
    || a == b
    || (a.SlabHead? && b.SlabHead? && a.slab.(last := 0, next := 0) == b.slab.(last := 0, next := 0))
  }

  /** Only links are written, and only on the given pages. */
  ghost predicate Relinked(before: Heads, after: Heads, pages: set<nat>) {
    && after.Keys == before.Keys
    && (forall p | p in before && p !in pages :: after[p] == before[p])
    && forall p | p in before :: SameBody(before[p], after[p])
  }

  ghost function Elements(list: seq<nat>): set<nat> {
    set p | p in list
  }

  /** The neighbours of list[k] are joined. */
  ghost function Unlinked(heads: Heads, list: seq<nat>, k: nat): Heads
    requires Linked(heads, list) && k < |list|
  {
    assert LinkedAt(heads, list, k);
    assert k > 0 ==> LinkedAt(heads, list, k - 1);
    assert k + 1 < |list| ==> LinkedAt(heads, list, k + 1);
    var bypassed := if k + 1 < |list| then SetNext(heads, list[k + 1], heads[list[k]].slab.next) else heads;
    if k > 0 then SetLast(bypassed, list[k - 1], heads[list[k]].slab.last) else bypassed
  }

  lemma Unlink(heads: Heads, list: seq<nat>, k: nat)
    requires Linked(heads, list) && k < |list|
    ensures Linked(Unlinked(heads, list, k), Without(list, k))
    ensures Relinked(heads, Unlinked(heads, list, k), Elements(list) - {list[k]})
    ensures First(Without(list, k)) == if k > 0 then list[0] else if |list| > 1 then list[1] else 0
  {
    var rest, after := Without(list, k), Unlinked(heads, list, k);
    assert LinkedAt(heads, list, k);
    assert k > 0 ==> LinkedAt(heads, list, k - 1);
    assert k + 1 < |list| ==> LinkedAt(heads, list, k + 1);
    forall i | 0 <= i < |rest|
      ensures LinkedAt(after, rest, i)
    {
      assert LinkedAt(heads, list, if i < k then i else i + 1);
    }
  }

  /** The slab becomes the head of the list. */
  ghost function Pushed(heads: Heads, list: seq<nat>, p: nat): Heads
    requires Linked(heads, list) && IsSlab(heads, p)
  {
    assert list != [] ==> LinkedAt(heads, list, 0);
    var placed := SetLast(SetNext(heads, p, 0), p, First(list));
    if list != [] then SetNext(placed, list[0], p) else placed
  }

  lemma Push(heads: Heads, list: seq<nat>, p: nat)
    requires Linked(heads, list) && IsSlab(heads, p) && p !in list
    ensures Linked(Pushed(heads, list, p), [p] + list)
    ensures Relinked(heads, Pushed(heads, list, p), Elements(list) + {p})
  {
    var grown, after := [p] + list, Pushed(heads, list, p);
    assert list != [] ==> LinkedAt(heads, list, 0);
    forall i | 0 <= i < |grown|
      ensures LinkedAt(after, grown, i)
    {
      if i > 0 {
        assert LinkedAt(heads, list, i - 1);
      }
    }
  }

  /** A list none of whose slabs is touched stays linked. */
  lemma StaysLinked(before: Heads, after: Heads, pages: set<nat>, list: seq<nat>)
    requires Relinked(before, after, pages) && Linked(before, list)
    requires forall p | p in list :: p !in pages
    ensures Linked(after, list)
  {
    forall i | 0 <= i < |list|
      ensures LinkedAt(after, list, i)
    {
      assert LinkedAt(before, list, i) && list[i] in list;
    }
  }

  /** slab_cache_push_block; the head pointer is passed in and the new one returned. */
  method PushBlock(mem: Memory, head: nat, slab: nat, ghost list: seq<nat>) returns (head': nat)
    requires Linked(mem.heads, list) && head == First(list)
    requires IsSlab(mem.heads, slab) && slab !in list
    modifies mem
    ensures head' == First([slab] + list) && Linked(mem.heads, [slab] + list)
    ensures Relinked(old(mem.heads), mem.heads, Elements(list) + {slab})
  {
    Push(mem.heads, list, slab);
    assert list != [] ==> LinkedAt(mem.heads, list, 0);
    mem.heads := SetLast(mem.heads, slab, head);
    if head != 0 {
      mem.heads := SetNext(mem.heads, head, slab);
    }
    mem.heads := SetNext(mem.heads, slab, 0);
    head' := slab;
    assert mem.heads == Pushed(old(mem.heads), list, slab);
  }

  /** The first half of slab_cache_move_block: the neighbours are joined, the head pointer follows. */
  method UnlinkBlock(mem: Memory, from: nat, slab: nat, ghost source: seq<nat>, ghost k: nat) returns (from': nat)
    requires Linked(mem.heads, source) && from == First(source) && k < |source| && slab == source[k]
    modifies mem
    ensures from' == First(Without(source, k)) && Linked(mem.heads, Without(source, k))
    ensures Relinked(old(mem.heads), mem.heads, Elements(source) - {slab})
  {
    Unlink(mem.heads, source, k);
    assert LinkedAt(mem.heads, source, k);
    assert k + 1 < |source| ==> LinkedAt(mem.heads, source, k + 1);
    assert k > 0 ==> LinkedAt(mem.heads, source, k - 1);
    from' := from;
    var last, next := mem.heads[slab].slab.last, mem.heads[slab].slab.next;
    if last != 0 {
      mem.heads := SetNext(mem.heads, last, next);
    }
    if next != 0 {
      mem.heads := SetLast(mem.heads, next, last);
    } else {
      from' := last;
    }
    assert mem.heads == Unlinked(old(mem.heads), source, k);
  }

  lemma RelinkedTwice(a: Heads, b: Heads, c: Heads, first: set<nat>, second: set<nat>)
    requires Relinked(a, b, first) && Relinked(b, c, second)
    ensures Relinked(a, c, first + second)
  {
  }

  /** slab_cache_move_block; the two head pointers are passed in and the new ones returned. */
  method MoveBlock(mem: Memory, from: nat, to: nat, slab: nat, ghost source: seq<nat>, ghost k: nat, ghost target: seq<nat>)
    returns (from': nat, to': nat)
    requires Linked(mem.heads, source) && from == First(source) && k < |source| && slab == source[k]
    requires Linked(mem.heads, target) && to == First(target)
    requires Elements(source) !! Elements(target)
    modifies mem
    ensures from' == First(Without(source, k)) && Linked(mem.heads, Without(source, k))
    ensures to' == First([slab] + target) && Linked(mem.heads, [slab] + target)
    ensures Relinked(old(mem.heads), mem.heads, Elements(source) + Elements(target))
  {
    assert slab in Elements(source) && slab !in target;
    assert LinkedAt(mem.heads, source, k);
    from' := UnlinkBlock(mem, from, slab, source, k);
    ghost var unlinked := mem.heads;
    StaysLinked(old(mem.heads), unlinked, Elements(source) - {slab}, target);
    to' := PushBlock(mem, to, slab, target);
    RelinkedTwice(old(mem.heads), unlinked, mem.heads, Elements(source) - {slab}, Elements(target) + {slab});
    StaysLinked(unlinked, mem.heads, Elements(target) + {slab}, Without(source, k));
  }
}
