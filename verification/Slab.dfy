/** The slab allocator: caches of equal blocks, cut from pages kept in three lists. */
module Slabs {
  import opened Bits
  import opened Paging
  import opened Regions
  import opened SlabMemory
  import opened SlabGeometry

  const BLOCK_SIZE: nat := 4
  const MAX_FREE_PAGES: nat := 8

  // ---------- One slab ----------

  /** A header agrees with its map: the count of free bits, and the list its status names. */
  ghost predicate HeaderOk(s: Slab, cache: nat, mapBits: nat, status: Status) {
    && s.cache == cache && s.status == status
    && |s.bits| == 8
    && 0 in Ones(s.bits) && (forall k | k in Ones(s.bits) :: k < mapBits)
    && s.bitsFree == mapBits - |Ones(s.bits)|
    && (status == FREE <==> Ones(s.bits) == {0})
    && (status == FULL <==> s.bitsFree == 0)
  }

  function Use(s: Slab, k: nat): Slab
    requires |s.bits| == 8 && k < 64
  {
    s.(bits := Set(s.bits, k), bitsFree := s.bitsFree - 1)
  }

  function Release(s: Slab, k: nat): Slab
    requires |s.bits| == 8 && k < 64
  {
    s.(bits := Unset(s.bits, k), bitsFree := s.bitsFree + 1)
  }

  lemma ClearBitBelow(s: Slab, cache: nat, mapBits: nat, status: Status)
    requires HeaderOk(s, cache, mapBits, status) && status != FULL
    ensures exists k :: 0 < k < mapBits && k !in Ones(s.bits)
    ensures status == FREE ==> mapBits > 1
  {
    var below := Interval(0, mapBits);
    assert Ones(s.bits) <= below;
    SubsetSize(Ones(s.bits), below);
    assert |Ones(s.bits)| < mapBits;
    assert Ones(s.bits) != below;
    var k :| k in below && k !in Ones(s.bits);
    assert 0 < k < mapBits;
  }

  /** Taking a block from a partial slab leaves it partial, or full when that was its last block. */
  lemma UsePartial(s: Slab, cache: nat, mapBits: nat, k: nat)
    requires HeaderOk(s, cache, mapBits, PARTIAL) && k !in Ones(s.bits) && k < mapBits <= 64
    ensures var after := Use(s, k);
      HeaderOk(after.(status := if after.bitsFree == 0 then FULL else PARTIAL), cache, mapBits, if after.bitsFree == 0 then FULL else PARTIAL)
  {
    var after := Use(s, k);
    assert 0 in Ones(after.bits) && k in Ones(after.bits);
  }

  /** Taking the first block of a free slab marks it partial, which is right unless the slab has two blocks in all. */
  lemma UseFree(s: Slab, cache: nat, mapBits: nat)
    requires HeaderOk(s, cache, mapBits, FREE) && 2 <= mapBits <= 64
    ensures HeaderOk(Use(s, 1).(status := PARTIAL), cache, mapBits, PARTIAL) <==> mapBits != 2
  {
    var after := Use(s, 1);
    assert Ones(after.bits) == {0, 1};
    assert |Ones(after.bits)| == 2;
  }

  /** Giving a block back to a full or partial slab makes it partial, or free when no block is left in use. */
  lemma ReleaseBlock(s: Slab, cache: nat, mapBits: nat, k: nat)
    requires HeaderOk(s, cache, mapBits, s.status) && k in Ones(s.bits) && 0 < k && 4 <= mapBits <= 64
    ensures s.status != FREE
    ensures var after := Release(s, k);
      var status := if s.status == PARTIAL && after.bitsFree == mapBits - 1 then FREE else PARTIAL;
      HeaderOk(after.(status := status), cache, mapBits, status)
  {
    var after := Release(s, k);
    assert k in Ones(s.bits) && k != 0;
    assert 0 in Ones(after.bits);
    SubsetSize({0}, Ones(after.bits));
    SubsetSize(Ones(s.bits), Interval(0, mapBits));
    if Ones(after.bits) == {0} {
      assert Ones(s.bits) == {0, k};
    }
  }

  /** The first clear bit of a map, and how far the search pointer has moved. */
  method FindClear(s: Slab, mapBits: nat, blockSize: nat, start: nat) returns (b: nat, move: nat)
    requires |s.bits| == 8 && mapBits <= 64
    requires 0 in Ones(s.bits) && exists k :: 0 < k < mapBits && k !in Ones(s.bits)
    ensures 0 < b < mapBits && b !in Ones(s.bits) && forall k | 0 <= k < b :: k in Ones(s.bits)
    ensures move == start + b * blockSize
  {
    b, move := 0, start;
    while Get(s.bits, b)
      invariant b < mapBits && move == start + b * blockSize
      invariant forall k | 0 <= k < b :: k in Ones(s.bits)
      decreases 64 - b
    {
      assert b in Ones(s.bits);
      b, move := b + 1, move + blockSize;
    }
    assert b !in Ones(s.bits);
  }

  // ---------- The three lists ----------

  datatype Lists = Lists(free: seq<nat>, partial: seq<nat>, full: seq<nat>) {
    function At(status: Status): seq<nat> {
      match status
      case FREE => free
      case PARTIAL => partial
      case FULL => full
    }

    function With(status: Status, list: seq<nat>): Lists {
      match status
      case FREE => this.(free := list)
      case PARTIAL => this.(partial := list)
      case FULL => this.(full := list)
    }

    /** The slab at position k of one list becomes the head of another. */
    function Moved(from: Status, k: nat, to: Status): Lists
      requires k < |At(from)|
    {
      var p := At(from)[k];
      With(from, Without(At(from), k)).With(to, [p] + At(to))
    }

    ghost function Pages(): set<nat> {
      Elements(free) + Elements(partial) + Elements(full)
    }

    function Count(): nat {
      |free| + |partial| + |full|
    }
  }

  ghost predicate SlabOk(heads: Heads, p: nat, cache: nat, mapBits: nat, status: Status) {
    IsSlab(heads, p) && HeaderOk(heads[p].slab, cache, mapBits, status)
  }

  ghost predicate ListOk(heads: Heads, list: seq<nat>, cache: nat, mapBits: nat, status: Status) {
    && Linked(heads, list)
    && forall p | p in list :: SlabOk(heads, p, cache, mapBits, status)
  }

  /** Each list is linked and holds the slabs of its status; no slab is in two lists. */
  ghost predicate ListsOk(heads: Heads, lists: Lists, cache: nat, mapBits: nat) {
    && (forall s: Status :: ListOk(heads, lists.At(s), cache, mapBits, s))
    && forall s: Status, t: Status | s != t :: Elements(lists.At(s)) !! Elements(lists.At(t))
  }

  /** The blocks in use on a page, by bit number. */
  ghost function UsedOn(heads: Heads, p: nat): set<nat> {
    if IsSlab(heads, p) then Ones(heads[p].slab.bits) - {0} else {}
  }

  ghost function Slots(heads: Heads, pages: set<nat>): set<(nat, nat)> {
    set p, k | p in pages && k in UsedOn(heads, p) :: (p, k)
  }

  /** Only page p's use of blocks changes, and only headers of the given pages are written. */
  ghost predicate Changed(before: Heads, after: Heads, pages: set<nat>, p: nat, used: set<nat>) {
    && after.Keys == before.Keys
    && (forall q | q in before && q !in pages :: after[q] == before[q])
    && (forall q | q != p :: UsedOn(after, q) == UsedOn(before, q))
    && UsedOn(after, p) == used
  }

  // ---------- Rewriting a header and moving its slab ----------

  /** The header of p is replaced but for its links. */
  ghost predicate Rewritten(before: Heads, after: Heads, p: nat, slab: Slab) {
    && IsSlab(before, p)
    && after == before[p := SlabHead(slab)]
    && slab.last == before[p].slab.last
    && slab.next == before[p].slab.next
  }

  lemma RewrittenStaysLinked(before: Heads, after: Heads, p: nat, slab: Slab, list: seq<nat>)
    requires Rewritten(before, after, p, slab) && Linked(before, list)
    ensures Linked(after, list)
  {
    forall i | 0 <= i < |list|
      ensures LinkedAt(after, list, i)
    {
      assert LinkedAt(before, list, i);
    }
  }

  /** The slabs other than p keep their headers, links aside. */
  lemma OthersStayOk(before: Heads, rewritten: Heads, after: Heads, p: nat, slab: Slab, pages: set<nat>,
      q: nat, cache: nat, mapBits: nat, status: Status)
    requires Rewritten(before, rewritten, p, slab) && Relinked(rewritten, after, pages) && q != p
    ensures SlabOk(before, q, cache, mapBits, status) ==> SlabOk(after, q, cache, mapBits, status)
    ensures UsedOn(after, q) == UsedOn(before, q)
  {
    assert q in before <==> q in rewritten;
  }

  lemma WithoutElements(heads: Heads, list: seq<nat>, k: nat)
    requires Linked(heads, list) && k < |list|
    ensures Elements(Without(list, k)) == Elements(list) - {list[k]}
  {
    var rest := Without(list, k);
    forall q | q in list && q != list[k]
      ensures q in rest
    {
      var i :| 0 <= i < |list| && list[i] == q;
      assert q == rest[if i < k then i else i - 1];
    }
  }

  /** Moving a slab whose rewritten header suits its new list leaves all three lists in order. */
  lemma MovedListsOk(before: Heads, rewritten: Heads, after: Heads, lists: Lists, cache: nat, mapBits: nat,
      from: Status, k: nat, to: Status, slab: Slab)
    requires ListsOk(before, lists, cache, mapBits) && from != to && k < |lists.At(from)|
    requires var p := lists.At(from)[k];
      && Rewritten(before, rewritten, p, slab) && HeaderOk(slab, cache, mapBits, to)
      && Relinked(rewritten, after, Elements(lists.At(from)) + Elements(lists.At(to)))
    requires Linked(after, Without(lists.At(from), k)) && Linked(after, [lists.At(from)[k]] + lists.At(to))
    ensures ListsOk(after, lists.Moved(from, k, to), cache, mapBits)
    ensures lists.Moved(from, k, to).Pages() == lists.Pages()
    ensures Changed(before, after, lists.Pages(), lists.At(from)[k], Ones(slab.bits) - {0})
  {
    hide Linked, HeaderOk, Ones, Relinked, Rewritten, UsedOn;
    var p, moved := lists.At(from)[k], lists.Moved(from, k, to);
    var pages := Elements(lists.At(from)) + Elements(lists.At(to));
    assert ListOk(before, lists.At(from), cache, mapBits, from);
    WithoutElements(before, lists.At(from), k);
    assert Elements([p] + lists.At(to)) == Elements(lists.At(to)) + {p};
    assert p in Elements(lists.At(from));
    RewrittenUse(before, rewritten, after, p, slab, pages);
    forall s: Status, t: Status | s != t
      ensures Elements(moved.At(s)) !! Elements(moved.At(t))
    {
      assert Elements(lists.At(s)) !! Elements(lists.At(t));
      assert Elements(lists.At(from)) !! Elements(lists.At(t)) || t == from;
      assert Elements(lists.At(s)) !! Elements(lists.At(from)) || s == from;
    }
    forall s: Status
      ensures ListOk(after, moved.At(s), cache, mapBits, s)
    {
      assert ListOk(before, lists.At(s), cache, mapBits, s);
      if s != from && s != to {
        RewrittenStaysLinked(before, rewritten, p, slab, lists.At(s));
        assert forall q | q in lists.At(s) :: q in Elements(lists.At(s));
        StaysLinked(rewritten, after, pages, lists.At(s));
      }
      forall q | q in moved.At(s)
        ensures SlabOk(after, q, cache, mapBits, s)
      {
        assert q in Elements(moved.At(s));
        if q == p {
          MovedHeader(before, rewritten, after, p, slab, pages, cache, mapBits, to);
        } else {
          assert q in Elements(lists.At(s));
          OthersStayOk(before, rewritten, after, p, slab, pages, q, cache, mapBits, s);
        }
      }
    }
  }

  /** The moved slab has its new header, links aside. */
  lemma MovedHeader(before: Heads, rewritten: Heads, after: Heads, p: nat, slab: Slab, pages: set<nat>,
      cache: nat, mapBits: nat, status: Status)
    requires Rewritten(before, rewritten, p, slab) && Relinked(rewritten, after, pages)
    requires HeaderOk(slab, cache, mapBits, status)
    ensures SlabOk(after, p, cache, mapBits, status)
  {
  }

  lemma RewrittenUse(before: Heads, rewritten: Heads, after: Heads, p: nat, slab: Slab, pages: set<nat>)
    requires Rewritten(before, rewritten, p, slab) && Relinked(rewritten, after, pages) && p in pages
    ensures Changed(before, after, pages, p, Ones(slab.bits) - {0})
  {
    forall q | q != p
      ensures UsedOn(after, q) == UsedOn(before, q)
    {
      OthersStayOk(before, rewritten, after, p, slab, pages, q, 0, 0, FREE);
    }
  }

  /** Rewriting a header in place keeps the lists in order when its status stays right. */
  lemma RewrittenListsOk(before: Heads, after: Heads, lists: Lists, cache: nat, mapBits: nat, status: Status, k: nat, slab: Slab)
    requires ListsOk(before, lists, cache, mapBits) && k < |lists.At(status)|
    requires Rewritten(before, after, lists.At(status)[k], slab) && HeaderOk(slab, cache, mapBits, status)
    ensures ListsOk(after, lists, cache, mapBits)
    ensures Changed(before, after, lists.Pages(), lists.At(status)[k], Ones(slab.bits) - {0})
  {
    hide HeaderOk, Ones, Rewritten, UsedOn;
    var p := lists.At(status)[k];
    assert p in Elements(lists.At(status));
    assert Relinked(after, after, lists.Pages());
    RewrittenUse(before, after, after, p, slab, lists.Pages());
    forall s: Status
      ensures ListOk(after, lists.At(s), cache, mapBits, s)
    {
      assert ListOk(before, lists.At(s), cache, mapBits, s);
      RewrittenStaysLinked(before, after, p, slab, lists.At(s));
      forall q | q in lists.At(s)
        ensures SlabOk(after, q, cache, mapBits, s)
      {
        assert q in Elements(lists.At(s));
        assert Elements(lists.At(s)) !! Elements(lists.At(status)) || s == status;
        if q == p {
          MovedHeader(before, after, after, p, slab, lists.Pages(), cache, mapBits, status);
        } else {
          OthersStayOk(before, after, after, p, slab, lists.Pages(), q, cache, mapBits, s);
        }
      }
    }
  }

  /** Taking a block: a partial slab moves on when it fills, else a free slab becomes partial. */
  function AfterTake(lists: Lists, fills: bool): Lists
    requires lists.partial != [] || lists.free != []
  {
    if lists.partial == [] then lists.Moved(FREE, 0, PARTIAL)
    else if fills then lists.Moved(PARTIAL, 0, FULL)
    else lists
  }

  /** The slab that the next block is taken from; 0 when there is none. */
  function Source(lists: Lists): nat {
    if lists.partial != [] then lists.partial[0] else First(lists.free)
  }

  /** Giving back a block of the slab at position k of its list. */
  function AfterRelease(lists: Lists, status: Status, k: nat, empties: bool): Lists
    requires k < |lists.At(status)| && status != FREE
  {
    if status == FULL then lists.Moved(FULL, k, PARTIAL)
    else if empties then lists.Moved(PARTIAL, k, FREE)
    else lists
  }

  /** One idle page too many: the newest is given up. */
  function Trimmed(lists: Lists, maxFree: nat): Lists {
    if |lists.free| > maxFree then lists.(free := lists.free[1..]) else lists
  }

  /** Headers off the given pages stay as they are. */
  ghost predicate OffPages(before: Heads, after: Heads, pages: set<nat>) {
    forall q | q !in pages :: (q in after <==> q in before) && (q in before ==> after[q] == before[q])
  }

  /** `slab->map = 1` */
  const MAP_ONE: seq<bv8> := [1, 0, 0, 0, 0, 0, 0, 0]

  lemma FreshHeaderOk(cache: nat, mapBits: nat)
    requires 2 <= mapBits <= 64
    ensures HeaderOk(Slab(0, 0, cache, MAP_ONE, mapBits - 1, FREE), cache, mapBits, FREE)
  {
    forall i: nat | i < 64
      ensures Get(MAP_ONE, i) <==> i == 0
    {
      if i / 8 == 0 {
        MasksDisjoint(0, i);
      }
    }
    assert Ones(MAP_ONE) == {0};
  }

  lemma SameBodyOk(before: Heads, after: Heads, q: nat, cache: nat, mapBits: nat, status: Status)
    requires q in before && q in after && SameBody(before[q], after[q])
    ensures SlabOk(before, q, cache, mapBits, status) ==> SlabOk(after, q, cache, mapBits, status)
    ensures UsedOn(after, q) == UsedOn(before, q)
  {
  }

  lemma PlacedStaysLinked(before: Heads, after: Heads, p: nat, head: Head, list: seq<nat>)
    requires Linked(before, list) && p !in list && after == before[p := head]
    ensures Linked(after, list)
  {
    forall i | 0 <= i < |list|
      ensures LinkedAt(after, list, i)
    {
      assert LinkedAt(before, list, i);
    }
  }

  /** A new page, not in any list, joins the free slabs. */
  lemma AddedListsOk(before: Heads, placed: Heads, after: Heads, lists: Lists, cache: nat, mapBits: nat, p: nat, slab: Slab)
    requires ListsOk(before, lists, cache, mapBits) && p !in lists.Pages() && p != 0
    requires placed == before[p := SlabHead(slab)] && HeaderOk(slab, cache, mapBits, FREE)
    requires Relinked(placed, after, Elements(lists.free) + {p}) && Linked(after, [p] + lists.free)
    ensures var grown := lists.(free := [p] + lists.free);
      ListsOk(after, grown, cache, mapBits) && grown.Pages() == lists.Pages() + {p}
    ensures OffPages(before, after, lists.Pages() + {p})
    ensures forall q | q in lists.Pages() :: UsedOn(after, q) == UsedOn(before, q)
    ensures UsedOn(after, p) == {}
  {
    hide Linked, Ones, UsedOn, HeaderOk, SameBody;
    var grown := lists.(free := [p] + lists.free);
    assert Elements([p] + lists.free) == Elements(lists.free) + {p};
    forall s: Status, q | q in lists.At(s)
      ensures q != p && SlabOk(after, q, cache, mapBits, s) && UsedOn(after, q) == UsedOn(before, q)
    {
      assert ListOk(before, lists.At(s), cache, mapBits, s) && q in Elements(lists.At(s));
      SameBodyOk(before, after, q, cache, mapBits, s);
    }
    FreshPage(placed, after, p, slab, cache, mapBits);
    forall s: Status, t: Status | s != t
      ensures Elements(grown.At(s)) !! Elements(grown.At(t))
    {
      assert Elements(lists.At(s)) !! Elements(lists.At(t));
      assert Elements(lists.At(s)) <= lists.Pages() && Elements(lists.At(t)) <= lists.Pages();
    }
    forall s: Status
      ensures ListOk(after, grown.At(s), cache, mapBits, s)
    {
      assert ListOk(before, lists.At(s), cache, mapBits, s);
      if s != FREE {
        assert Elements(lists.At(s)) !! Elements(lists.At(FREE));
        assert forall q | q in lists.At(s) :: q in Elements(lists.At(s));
        PlacedStaysLinked(before, placed, p, SlabHead(slab), lists.At(s));
        StaysLinked(placed, after, Elements(lists.free) + {p}, lists.At(s));
      }
    }
    forall q | q in lists.Pages()
      ensures UsedOn(after, q) == UsedOn(before, q)
    {
      assert q in lists.At(FREE) || q in lists.At(PARTIAL) || q in lists.At(FULL);
    }
  }

  lemma FreshPage(placed: Heads, after: Heads, p: nat, slab: Slab, cache: nat, mapBits: nat)
    requires p != 0 && p in placed && placed[p] == SlabHead(slab) && HeaderOk(slab, cache, mapBits, FREE)
    requires p in after && SameBody(placed[p], after[p])
    ensures SlabOk(after, p, cache, mapBits, FREE) && UsedOn(after, p) == {}
  {
  }

  /** The head of the free list is dropped, and its page's header with it. */
  lemma TrimmedListsOk(before: Heads, after: Heads, lists: Lists, cache: nat, mapBits: nat)
    requires ListsOk(before, lists, cache, mapBits) && lists.free != []
    requires Relinked(before, after, Elements(lists.free)) && Linked(after, lists.free[1..])
    ensures var p, trimmed := lists.free[0], lists.(free := lists.free[1..]);
      && ListsOk(after - {p}, trimmed, cache, mapBits)
      && trimmed.Pages() == lists.Pages() - {p}
      && OffPages(before, after - {p}, lists.Pages())
      && UsedOn(before, p) == {}
      && forall q | q in trimmed.Pages() :: UsedOn(after - {p}, q) == UsedOn(before, q)
  {
    hide Linked, Ones, HeaderOk, SameBody;
    var p, trimmed, rest := lists.free[0], lists.(free := lists.free[1..]), after - {lists.free[0]};
    assert ListOk(before, lists.At(FREE), cache, mapBits, FREE);
    WithoutElements(before, lists.free, 0);
    assert Without(lists.free, 0) == lists.free[1..];
    assert p in Elements(lists.free);
    IdleSlab(before, p, cache, mapBits);
    forall s: Status, q | q in trimmed.At(s)
      ensures q != p && SlabOk(rest, q, cache, mapBits, s) && UsedOn(rest, q) == UsedOn(before, q)
    {
      assert q in Elements(trimmed.At(s)) && q in Elements(lists.At(s));
      assert Elements(lists.At(s)) !! Elements(lists.At(FREE)) || s == FREE;
      assert ListOk(before, lists.At(s), cache, mapBits, s);
      SameBodyOk(before, rest, q, cache, mapBits, s);
    }
    forall s: Status, t: Status | s != t
      ensures Elements(trimmed.At(s)) !! Elements(trimmed.At(t))
    {
      assert Elements(lists.At(s)) !! Elements(lists.At(t));
    }
    forall s: Status
      ensures ListOk(rest, trimmed.At(s), cache, mapBits, s)
    {
      assert ListOk(before, lists.At(s), cache, mapBits, s);
      if s != FREE {
        assert Elements(lists.At(s)) !! Elements(lists.At(FREE));
        assert forall q | q in lists.At(s) :: q in Elements(lists.At(s));
        StaysLinked(before, after, Elements(lists.free), lists.At(s));
      }
      DroppedStaysLinked(after, p, trimmed.At(s));
    }
    assert trimmed.Pages() == lists.Pages() - {p} by {
      assert Elements(lists.At(PARTIAL)) !! Elements(lists.At(FREE)) && Elements(lists.At(FULL)) !! Elements(lists.At(FREE));
    }
    forall q | q in trimmed.Pages()
      ensures UsedOn(rest, q) == UsedOn(before, q)
    {
      assert q in trimmed.At(FREE) || q in trimmed.At(PARTIAL) || q in trimmed.At(FULL);
    }
  }

  lemma IdleSlab(heads: Heads, p: nat, cache: nat, mapBits: nat)
    requires SlabOk(heads, p, cache, mapBits, FREE)
    ensures UsedOn(heads, p) == {}
  {
  }

  lemma DroppedStaysLinked(heads: Heads, p: nat, list: seq<nat>)
    requires Linked(heads, list) && p !in list
    ensures Linked(heads - {p}, list)
  {
    forall i | 0 <= i < |list|
      ensures LinkedAt(heads - {p}, list, i)
    {
      assert LinkedAt(heads, list, i);
    }
  }

  /** The free list after n pages from first on were pushed one by one. */
  ghost function RunList(first: nat, n: nat): seq<nat> {
    if n == 0 then [] else [first + (n - 1) * PAGE_SIZE] + RunList(first, n - 1)
  }

  lemma {:induction false} RunListElements(first: nat, n: nat)
    ensures Elements(RunList(first, n)) == RunAddrs(first, n)
    ensures |RunList(first, n)| == n
  {
    if n > 0 {
      RunListElements(first, n - 1);
      RunGrows(first, n - 1);
      assert Elements(RunList(first, n)) == Elements(RunList(first, n - 1)) + {first + (n - 1) * PAGE_SIZE};
    } else {
      assert RunAddrs(first, 0) == {};
    }
  }

  lemma RunGrows(first: nat, n: nat)
    ensures RunAddrs(first, n + 1) == RunAddrs(first, n) + {first + n * PAGE_SIZE}
    ensures first + n * PAGE_SIZE !in RunAddrs(first, n)
  {
    assert (n * PAGE_SIZE) / PAGE_SIZE == n;
    forall a: nat
      ensures a in RunAddrs(first, n + 1) <==> a in RunAddrs(first, n) || a == first + n * PAGE_SIZE
    {
      if first <= a {
        assert StartsPage(Interval(0, n + 1), first, a) <==> (a - first) % PAGE_SIZE == 0 && (a - first) / PAGE_SIZE < n + 1;
        assert StartsPage(Interval(0, n), first, a) <==> (a - first) % PAGE_SIZE == 0 && (a - first) / PAGE_SIZE < n;
      }
    }
  }

  lemma RunListGrows(first: nat, n: nat, rest: seq<nat>)
    ensures [first + n * PAGE_SIZE] + (RunList(first, n) + rest) == RunList(first, n + 1) + rest
  {
    assert [first + n * PAGE_SIZE] + (RunList(first, n) + rest) == [first + n * PAGE_SIZE] + RunList(first, n) + rest;
  }

  lemma InRun(first: nat, n: nat, i: nat)
    requires i < n
    ensures first + i * PAGE_SIZE in RunAddrs(first, n)
  {
    assert (i * PAGE_SIZE) / PAGE_SIZE == i && (i * PAGE_SIZE) % PAGE_SIZE == 0;
    assert StartsPage(Interval(0, n), first, first + i * PAGE_SIZE);
  }

  /** Pages were added, none of them handed out before, and no block's use changed. */
  ghost predicate Extended(before: Heads, after: Heads, pages: set<nat>, more: set<nat>, held: set<nat>, heldAfter: set<nat>) {
    && pages <= more
    && heldAfter == held + more
    && OffPages(before, after, more)
    && (forall q | q in pages :: UsedOn(after, q) == UsedOn(before, q))
    && (forall q | q in more - pages :: q !in held && UsedOn(after, q) == {})
  }

  lemma GrownExtended(before: Heads, after: Heads, pages: set<nat>, run: set<nat>, more: set<nat>, held: set<nat>)
    requires pages <= held && run !! held && more == pages + run
    requires OffPages(before, after, more)
    requires forall q | q in run :: UsedOn(after, q) == {}
    requires forall q | q in pages :: UsedOn(after, q) == UsedOn(before, q)
    ensures Extended(before, after, pages, more, held, held + run)
  {
  }

  lemma NothingExtended(heads: Heads, pages: set<nat>, held: set<nat>)
    requires pages <= held
    ensures Extended(heads, heads, pages, pages, held, held)
  {
  }

  lemma ExtendedSlots(before: Heads, after: Heads, pages: set<nat>, more: set<nat>, held: set<nat>, heldAfter: set<nat>)
    requires Extended(before, after, pages, more, held, heldAfter)
    ensures Slots(after, more) == Slots(before, pages)
  {
  }

  /** Block b of page p is handed out, the first one not in use there. */
  ghost predicate Allocated(before: Heads, after: Heads, pages: set<nat>, held: set<nat>, heldAfter: set<nat>,
      ready: Lists, lists: Lists, p: nat, b: nat, mapBits: nat)
  {
    && (ready.partial != [] || ready.free != []) && p == Source(ready)
    && lists == AfterTake(ready, |UsedOn(after, p)| == mapBits - 1)
    && lists.Pages() == ready.Pages() && p in lists.Pages()
    && 0 < b < mapBits
    && (p, b) !in Slots(before, pages) && (forall k | 0 < k < b :: (p, k) in Slots(before, pages))
    && Slots(after, lists.Pages()) == Slots(before, pages) + {(p, b)}
    && lists.Pages() - pages !! held && heldAfter == held + lists.Pages()
    && OffPages(before, after, lists.Pages())
  }

  lemma TakenAllocated(before: Heads, after: Heads, held: set<nat>, ready: Lists, lists: Lists, p: nat, b: nat, mapBits: nat)
    requires ready.partial != [] || ready.free != []
    requires p == Source(ready) && p in ready.Pages() && ready.Pages() <= held && 0 < b < mapBits
    requires b !in UsedOn(before, p) && forall k | 0 < k < b :: k in UsedOn(before, p)
    requires Changed(before, after, ready.Pages(), p, UsedOn(before, p) + {b})
    requires lists == AfterTake(ready, |UsedOn(before, p) + {b}| == mapBits - 1) && lists.Pages() == ready.Pages()
    ensures Allocated(before, after, ready.Pages(), held, held, ready, lists, p, b, mapBits)
  {
    hide UsedOn, AfterTake;
    TakenSlots(before, after, ready.Pages(), p, b);
  }

  lemma TakenSlots(before: Heads, after: Heads, pages: set<nat>, p: nat, b: nat)
    requires p in pages && b !in UsedOn(before, p)
    requires Changed(before, after, pages, p, UsedOn(before, p) + {b})
    ensures (p, b) !in Slots(before, pages)
    ensures Slots(after, pages) == Slots(before, pages) + {(p, b)}
    ensures UsedOn(after, p) == UsedOn(before, p) + {b}
    ensures forall k | k in UsedOn(before, p) :: (p, k) in Slots(before, pages)
    ensures OffPages(before, after, pages)
  {
    hide UsedOn;
  }

  lemma ExtendedTwice(first: Heads, before: Heads, after: Heads, pages: set<nat>, more: set<nat>, most: set<nat>,
      held: set<nat>, heldMore: set<nat>, heldMost: set<nat>)
    requires Extended(first, before, pages, more, held, heldMore)
    requires Extended(before, after, more, most, heldMore, heldMost)
    ensures Extended(first, after, pages, most, held, heldMost)
  {
    hide UsedOn;
  }

  lemma ExtendedAllocated(first: Heads, before: Heads, after: Heads, pages: set<nat>, held: set<nat>, heldAfter: set<nat>,
      ready: Lists, lists: Lists, p: nat, b: nat, mapBits: nat)
    requires Extended(first, before, pages, ready.Pages(), held, heldAfter)
    requires Allocated(before, after, ready.Pages(), heldAfter, heldAfter, ready, lists, p, b, mapBits)
    ensures Allocated(first, after, pages, held, heldAfter, ready, lists, p, b, mapBits)
  {
    hide UsedOn, Slots;
    ExtendedSlots(first, before, pages, ready.Pages(), held, heldAfter);
  }

  /** Block b of page p is given back; pages that were given up held no block in use. */
  ghost predicate Freed(before: Heads, after: Heads, lists: Lists, after': Lists, held: set<nat>, heldAfter: set<nat>, p: nat, b: nat) {
    && Slots(after, after'.Pages()) == Slots(before, lists.Pages()) - {(p, b)}
    && after'.Pages() <= lists.Pages()
    && heldAfter == held - (lists.Pages() - after'.Pages())
    && OffPages(before, after, lists.Pages())
  }

  lemma ReleasedSlots(before: Heads, after: Heads, pages: set<nat>, p: nat, b: nat)
    requires p in pages && Changed(before, after, pages, p, UsedOn(before, p) - {b})
    ensures Slots(after, pages) == Slots(before, pages) - {(p, b)}
    ensures OffPages(before, after, pages)
  {
    hide UsedOn;
  }

  /** Giving up a page with no block in use leaves the blocks in use as they are. */
  lemma TrimmedSlots(before: Heads, after: Heads, pages: set<nat>, fewer: set<nat>, idle: nat)
    requires fewer == pages - {idle} && UsedOn(before, idle) == {}
    requires forall q | q in fewer :: UsedOn(after, q) == UsedOn(before, q)
    ensures Slots(after, fewer) == Slots(before, pages)
  {
    hide UsedOn;
  }

  lemma OffPagesTwice(a: Heads, b: Heads, c: Heads, pages: set<nat>, fewer: set<nat>)
    requires OffPages(a, b, pages) && OffPages(b, c, fewer) && fewer <= pages
    ensures OffPages(a, c, pages)
  {
  }

  /** An idle page is given up exactly if it is one too many, and then it is the one that has just become idle. */
  lemma GivenUp(heads: Heads, lists: Lists, cache: nat, mapBits: nat, status: Status, k: nat, empties: bool, maxFree: nat)
    requires ListsOk(heads, lists, cache, mapBits) && status != FREE && k < |lists.At(status)| && |lists.free| <= maxFree
    ensures |AfterRelease(lists, status, k, empties).free| <= maxFree + 1
    ensures Trimmed(AfterRelease(lists, status, k, empties), maxFree).Pages()
      == lists.Pages() - if status == PARTIAL && empties && |lists.free| == maxFree then {lists.At(status)[k]} else {}
  {
    hide ListsOk, HeaderOk, Linked, SlabOk;
    var p, list := lists.At(status)[k], lists.At(status);
    ListsApart(heads, lists, cache, mapBits);
    ListIsOk(heads, lists, cache, mapBits, status);
    WithoutElements(heads, list, k);
    assert p in Elements(list);
    assert Elements([p] + lists.free) == Elements(lists.free) + {p};
    assert Elements([p] + lists.partial) == Elements(lists.partial) + {p};
    assert ([p] + lists.free)[1..] == lists.free;
  }

  lemma ListsApart(heads: Heads, lists: Lists, cache: nat, mapBits: nat)
    requires ListsOk(heads, lists, cache, mapBits)
    ensures Elements(lists.free) !! Elements(lists.partial) && Elements(lists.free) !! Elements(lists.full)
    ensures Elements(lists.partial) !! Elements(lists.full)
  {
    assert Elements(lists.At(FREE)) !! Elements(lists.At(PARTIAL)) && Elements(lists.At(FREE)) !! Elements(lists.At(FULL));
    assert Elements(lists.At(PARTIAL)) !! Elements(lists.At(FULL));
  }

  /** A slab's status names the list it is in. */
  lemma StatusNamesList(heads: Heads, lists: Lists, cache: nat, mapBits: nat, p: nat) returns (k: nat)
    requires ListsOk(heads, lists, cache, mapBits) && p in lists.Pages()
    ensures IsSlab(heads, p)
    ensures var status := heads[p].slab.status;
      HeaderOk(heads[p].slab, cache, mapBits, status) && k < |lists.At(status)| && lists.At(status)[k] == p
  {
    hide Ones, Linked;
    var s: Status :| p in lists.At(s);
    assert ListOk(heads, lists.At(s), cache, mapBits, s);
    assert SlabOk(heads, p, cache, mapBits, s);
    k :| 0 <= k < |lists.At(s)| && lists.At(s)[k] == p;
  }

  lemma ListIsOk(heads: Heads, lists: Lists, cache: nat, mapBits: nat, status: Status)
    requires ListsOk(heads, lists, cache, mapBits)
    ensures ListOk(heads, lists.At(status), cache, mapBits, status)
  {
  }

  // ---------- The cache ----------

  class SlabCache {
    const id: nat
    const mem: Memory
    const region: Region
    const objSize: nat
    const mapBits: nat
    const blockSize: nat
    const maxFree: nat
    var free: nat
    var partial: nat
    var full: nat
    var freePages: int
    var pagesAlloced: int
    ghost var lists: Lists

    ghost predicate Geometry() {
      && 1 <= objSize <= 1024
      && Units(PAGE_SIZE, 64, objSize) > 0
      && mapBits == MapBits(PAGE_SIZE, 64, objSize)
      && 4 <= mapBits <= 64
      && blockSize == PAGE_SIZE / mapBits
      && maxFree == MAX_FREE_PAGES
    }

    /** The fields agree with the three lists. */
    ghost predicate Fields()
      reads this
    {
      && Geometry()
      && free == First(lists.free) && partial == First(lists.partial) && full == First(lists.full)
      && freePages == |lists.free|
      && pagesAlloced == lists.Count()
    }

    /** The lists are in order and the counters agree with them. */
    ghost predicate Ordered()
      reads this, mem
    {
      Fields() && ListsOk(mem.heads, lists, id, mapBits)
    }

    /** Every page of the cache is one the region has handed out, and few of them lie idle. */
    ghost predicate Valid()
      reads this, mem, region, region.data, region.pager, region.pager.bitmap, region.pager.dir
    {
      && Ordered()
      && region.Valid() && region.addr > 0
      && lists.Pages() <= region.HeldAddrs()
      && |lists.free| <= maxFree
    }

    /** What Valid means for the page at a position of one of the lists. */
    lemma PageState(status: Status, k: nat)
      requires Valid() && k < |lists.At(status)|
      ensures var p := lists.At(status)[k];
        && p in region.HeldAddrs() && IsSlab(mem.heads, p) && LinkedAt(mem.heads, lists.At(status), k)
        && (forall other: Status, j | 0 <= j < |lists.At(other)| && (other, j) != (status, k) :: lists.At(other)[j] != p)
        && var slab := mem.heads[p].slab;
        && slab.status == status && slab.cache == id
        && 0 in Ones(slab.bits) && (forall i | i in Ones(slab.bits) :: i < mapBits)
        && slab.bitsFree == mapBits - |Ones(slab.bits)|
        && (status == FREE <==> Ones(slab.bits) == {0}) && (status == FULL <==> slab.bitsFree == 0)
      ensures freePages == |lists.free| <= maxFree && pagesAlloced == |lists.free| + |lists.partial| + |lists.full|
    {
      hide Ones;
      var list := lists.At(status);
      assert ListOk(mem.heads, list, id, mapBits, status) && SlabOk(mem.heads, list[k], id, mapBits, status);
      assert list[k] in lists.Pages();
      forall other: Status, j | 0 <= j < |lists.At(other)| && (other, j) != (status, k)
        ensures lists.At(other)[j] != list[k]
      {
        if other != status {
          assert lists.At(other)[j] in Elements(lists.At(other)) && list[k] in Elements(list);
        }
      }
    }

    /** The fields that new_slab_cache_at_addr sets before it adds pages. */
    constructor (id: nat, mem: Memory, region: Region, size: nat)
      requires 1 <= size <= 1024
      ensures Ordered() && lists == Lists([], [], [])
      ensures this.id == id && this.mem == mem && this.region == region && objSize == size
    {
      UnitsPositive(PAGE_SIZE, 64, size);
      FourBlocks(size);
      this.id, this.mem, this.region := id, mem, region;
      objSize, maxFree := size, MAX_FREE_PAGES;
      mapBits := MapBits(PAGE_SIZE, 64, size);
      blockSize := PAGE_SIZE / MapBits(PAGE_SIZE, 64, size);
      free, partial, full := 0, 0, 0;
      freePages, pagesAlloced := 0, 0;
      lists := Lists([], [], []);
    }

    /** The list head that C code names by its address. */
    function Head(s: Status): nat
      reads this
    {
      match s
      case FREE => free
      case PARTIAL => partial
      case FULL => full
    }

    method SetHead(s: Status, p: nat)
      modifies this
      ensures Head(s) == p && forall t: Status | t != s :: Head(t) == old(Head(t))
      ensures lists == old(lists) && freePages == old(freePages) && pagesAlloced == old(pagesAlloced)
    {
      match s
      case FREE => free := p;
      case PARTIAL => partial := p;
      case FULL => full := p;
    }

    /** Writes a slab's new header, whose status is that of another list, and moves it there. */
    method Move(from: Status, p: nat, slab: Slab, ghost k: nat)
      requires Fields() && ListsOk(mem.heads, lists, id, mapBits)
      requires from != slab.status && k < |lists.At(from)| && p == lists.At(from)[k]
      requires IsSlab(mem.heads, p) && slab.last == mem.heads[p].slab.last && slab.next == mem.heads[p].slab.next
      requires HeaderOk(slab, id, mapBits, slab.status)
      modifies this, mem
      ensures lists == old(lists).Moved(from, k, slab.status) && lists.Pages() == old(lists).Pages()
      ensures free == First(lists.free) && partial == First(lists.partial) && full == First(lists.full)
      ensures ListsOk(mem.heads, lists, id, mapBits)
      ensures Changed(old(mem.heads), mem.heads, lists.Pages(), p, Ones(slab.bits) - {0})
      ensures lists.Count() == old(lists).Count()
      ensures |lists.free| == |old(lists).free| + (if slab.status == FREE then 1 else 0) - (if from == FREE then 1 else 0)
      ensures freePages == old(freePages) && pagesAlloced == old(pagesAlloced)
    {
      hide HeaderOk, Ones, Linked, Relinked, UsedOn, Changed, SlabOk;
      ghost var before, to := mem.heads, slab.status;
      mem.heads := mem.heads[p := SlabHead(slab)];
      ghost var rewritten := mem.heads;
      assert ListOk(before, lists.At(from), id, mapBits, from) && ListOk(before, lists.At(to), id, mapBits, to);
      RewrittenStaysLinked(before, rewritten, p, slab, lists.At(from));
      RewrittenStaysLinked(before, rewritten, p, slab, lists.At(to));
      var from', to' := MoveBlock(mem, Head(from), Head(slab.status), p, lists.At(from), k, lists.At(to));
      MovedListsOk(before, rewritten, mem.heads, lists, id, mapBits, from, k, to, slab);
      SetHead(from, from');
      SetHead(slab.status, to');
      forall s: Status
        ensures Head(s) == First(old(lists).Moved(from, k, to).At(s))
      {
        assert old(Head(s)) == First(old(lists).At(s));
      }
      lists := lists.Moved(from, k, to);
      assert Head(FREE) == First(lists.At(FREE)) && Head(PARTIAL) == First(lists.At(PARTIAL)) && Head(FULL) == First(lists.At(FULL));
    }

    /** Takes the first clear bit of a partial slab's map and updates its count and status. */
    method UseFirst(slab: Slab, start: nat) returns (after: Slab, ret: nat, b: nat)
      requires HeaderOk(slab, id, mapBits, PARTIAL) && mapBits <= 64
      ensures 0 < b < mapBits && ret == start + b * blockSize
      ensures b !in Ones(slab.bits) && forall k | 0 < k < b :: k in Ones(slab.bits)
      ensures HeaderOk(after, id, mapBits, after.status)
      ensures after.last == slab.last && after.next == slab.next
      ensures Ones(after.bits) - {0} == Ones(slab.bits) - {0} + {b}
      ensures after.status == if |Ones(after.bits) - {0}| == mapBits - 1 then FULL else PARTIAL
    {
      ClearBitBelow(slab, id, mapBits, PARTIAL);
      b, ret := FindClear(slab, mapBits, blockSize, start);
      UsePartial(slab, id, mapBits, b);
      after := Use(slab, b);
      assert 0 in Ones(after.bits);
      if after.bitsFree == 0 {
        after := after.(status := FULL);
      }
    }

    /** The branch of slab_alloc for a partial slab. */
    method TakeFromPartial() returns (ret: nat, ghost b: nat)
      requires Ordered() && lists.partial != []
      modifies this, mem
      ensures var p := old(lists).partial[0];
        && 0 < b < mapBits && ret == p + b * blockSize && p != 0
        && b !in UsedOn(old(mem.heads), p) && (forall k | 0 < k < b :: k in UsedOn(old(mem.heads), p))
        && Changed(old(mem.heads), mem.heads, lists.Pages(), p, UsedOn(old(mem.heads), p) + {b})
        && lists == AfterTake(old(lists), |UsedOn(old(mem.heads), p) + {b}| == mapBits - 1)
      ensures Ordered() && lists.Pages() == old(lists).Pages()
    {
      hide Linked, Changed, HeaderOk, Ones;
      var p := partial;
      assert ListOk(mem.heads, lists.At(PARTIAL), id, mapBits, PARTIAL);
      assert SlabOk(mem.heads, p, id, mapBits, PARTIAL);
      var slab: Slab, found: nat;
      slab, ret, found := UseFirst(mem.heads[p].slab, p);
      b := found;
      if slab.status == FULL {
        Move(PARTIAL, p, slab, 0);
      } else {
        RewrittenListsOk(mem.heads, mem.heads[p := SlabHead(slab)], lists, id, mapBits, PARTIAL, 0, slab);
        mem.heads := mem.heads[p := SlabHead(slab)];
      }
    }

    /** The branch of slab_alloc for a free slab: its first block is taken. */
    method TakeFromFree() returns (ret: nat)
      requires Ordered() && lists.partial == [] && lists.free != []
      modifies this, mem
      ensures var p := old(lists).free[0];
        && ret == p + blockSize && p != 0
        && UsedOn(old(mem.heads), p) == {}
        && Changed(old(mem.heads), mem.heads, lists.Pages(), p, {1})
        && lists == AfterTake(old(lists), false)
      ensures Ordered() && lists.Pages() == old(lists).Pages()
    {
      hide Linked, Changed, HeaderOk, Ones;
      var p := free;
      assert ListOk(mem.heads, lists.At(FREE), id, mapBits, FREE);
      assert SlabOk(mem.heads, p, id, mapBits, FREE);
      var slab := OpenSlab(mem.heads[p].slab);
      ret := p + blockSize;
      Move(FREE, p, slab, 0);
      freePages := freePages - 1;
    }

    /** The first block of a free slab is taken. */
    method OpenSlab(slab: Slab) returns (after: Slab)
      requires HeaderOk(slab, id, mapBits, FREE) && 4 <= mapBits <= 64
      ensures HeaderOk(after, id, mapBits, PARTIAL) && after.status == PARTIAL
      ensures after.last == slab.last && after.next == slab.next
      ensures Ones(slab.bits) - {0} == {} && Ones(after.bits) - {0} == {1}
    {
      UseFree(slab, id, mapBits);
      after := Use(slab, 1).(status := PARTIAL);
    }

    /** slab_cache_add_page */
    method AddPage(page: nat)
      requires Ordered() && page != 0 && page !in lists.Pages()
      modifies this, mem
      ensures Ordered() && lists == old(lists).(free := [page] + old(lists).free)
      ensures lists.Pages() == old(lists).Pages() + {page}
      ensures OffPages(old(mem.heads), mem.heads, lists.Pages())
      ensures UsedOn(mem.heads, page) == {}
      ensures forall q | q in old(lists).Pages() :: UsedOn(mem.heads, q) == UsedOn(old(mem.heads), q)
    {
      hide Linked, Ones, UsedOn, HeaderOk, SameBody;
      var slab := Slab(0, 0, id, MAP_ONE, mapBits - 1, FREE);
      FreshHeaderOk(id, mapBits);
      ghost var before := mem.heads;
      mem.heads := mem.heads[page := SlabHead(slab)];
      ghost var placed := mem.heads;
      freePages := freePages + 1;
      pagesAlloced := pagesAlloced + 1;
      assert ListOk(before, lists.At(FREE), id, mapBits, FREE);
      assert page !in lists.free by {
        assert page !in Elements(lists.free);
      }
      PlacedStaysLinked(before, placed, page, SlabHead(slab), lists.free);
      free := PushBlock(mem, free, page, lists.free);
      AddedListsOk(before, placed, mem.heads, lists, id, mapBits, page, slab);
      lists := lists.(free := [page] + lists.free);
    }

    /** slab_cache_add_pages */
    method AddPages(pages: nat, n: nat)
      requires Ordered() && pages != 0 && RunAddrs(pages, n) !! lists.Pages()
      modifies this, mem
      ensures Ordered() && lists == old(lists).(free := RunList(pages, n) + old(lists).free)
      ensures lists.Pages() == old(lists).Pages() + RunAddrs(pages, n)
      ensures OffPages(old(mem.heads), mem.heads, lists.Pages())
      ensures forall q | q in RunAddrs(pages, n) :: UsedOn(mem.heads, q) == {}
      ensures forall q | q in old(lists).Pages() :: UsedOn(mem.heads, q) == UsedOn(old(mem.heads), q)
    {
      hide ListsOk, Ones, UsedOn, RunAddrs, RunList;
      var curpage, i := pages, 0;
      RunListElements(pages, 0);
      assert RunList(pages, 0) + lists.free == lists.free;
      while i < n
        invariant i <= n && curpage == pages + i * PAGE_SIZE
        invariant Ordered() && lists == old(lists).(free := RunList(pages, i) + old(lists).free)
        invariant lists.Pages() == old(lists).Pages() + RunAddrs(pages, i)
        invariant OffPages(old(mem.heads), mem.heads, lists.Pages())
        invariant forall q | q in RunAddrs(pages, i) :: UsedOn(mem.heads, q) == {}
        invariant forall q | q in old(lists).Pages() :: UsedOn(mem.heads, q) == UsedOn(old(mem.heads), q)
      {
        InRun(pages, n, i);
        RunGrows(pages, i);
        RunListGrows(pages, i, old(lists).free);
        AddPage(curpage);
        curpage, i := curpage + PAGE_SIZE, i + 1;
      }
    }

    /** The region has a run of BLOCK_SIZE pages to give, and the frames to map it. */
    ghost predicate CanGrow()
      reads region, region.data, region.pager.bitmap
    {
      region.Supply().Gives(BLOCK_SIZE)
    }

    /** The address of the run that the region gives next. */
    ghost function NextRun(): nat
      requires region.Valid() && CanGrow()
      reads region, region.data, region.pager, region.pager.bitmap, region.pager.dir
    {
      region.addr + FindRun(region.Held(), region.data.Length, BLOCK_SIZE, region.hint).value * PAGE_SIZE
    }

    /** slab_cache_add_page_block */
    method AddPageBlock() returns (r: AllocResult)
      requires Ordered() && region.Valid() && region.addr > 0 && lists.Pages() <= region.HeldAddrs()
      modifies this, mem, region, region.data, region.pager, region.pager.bitmap, region.pager.dir
      ensures r.Null? <==> region.pages == 0
      ensures r.Null? ==> Ordered() && lists == old(lists) && mem.heads == old(mem.heads)
      ensures r.Null? ==> region.Valid() && region.HeldAddrs() == old(region.HeldAddrs())
      ensures r.At? <==> old(CanGrow())
      ensures r.At? ==> r.ptr == old(NextRun()) && region.Supply() == old(region.Supply()).After(BLOCK_SIZE)
      ensures r.At? ==> Ordered() && region.Valid()
      ensures r.At? ==> lists == old(lists).(free := RunList(r.ptr, BLOCK_SIZE) + old(lists).free)
      ensures r.At? ==> lists.Pages() == old(lists).Pages() + RunAddrs(r.ptr, BLOCK_SIZE)
      ensures r.At? ==> RunAddrs(r.ptr, BLOCK_SIZE) !! old(region.HeldAddrs())
      ensures r.At? ==> region.HeldAddrs() == old(region.HeldAddrs()) + RunAddrs(r.ptr, BLOCK_SIZE)
      ensures r.At? ==> OffPages(old(mem.heads), mem.heads, lists.Pages())
      ensures r.At? ==> forall q | q in RunAddrs(r.ptr, BLOCK_SIZE) :: UsedOn(mem.heads, q) == {}
      ensures r.At? ==> forall q | q in old(lists).Pages() :: UsedOn(mem.heads, q) == UsedOn(old(mem.heads), q)
    {
      hide ListsOk, Ones, UsedOn, Addrs, RunAddrs, OffPages, Coherent, HintExact, OwnFrames, Walk, MappedRun, FindRun, Stop, RunList;
      r := region.AllocPage(BLOCK_SIZE);
      if r.At? {
        AddPages(r.ptr, BLOCK_SIZE);
      }
    }

    /** The blocks in use, as pairs of a page and a bit number. */
    ghost function Live(): set<(nat, nat)>
      reads this, mem
    {
      Slots(mem.heads, lists.Pages())
    }

    /** The if and else-if of slab_alloc's loop; 0 when neither list has a slab. */
    method TakeBlock() returns (ret: nat, ghost b: nat)
      requires Ordered()
      modifies this, mem
      ensures Ordered() && lists.Pages() == old(lists).Pages()
      ensures ret == 0 <==> Source(old(lists)) == 0
      ensures ret == 0 ==> lists == old(lists) && mem.heads == old(mem.heads)
      ensures ret != 0 ==> var p := Source(old(lists));
        && 0 < b < mapBits && ret == p + b * blockSize && p in lists.Pages()
        && b !in UsedOn(old(mem.heads), p) && (forall k | 0 < k < b :: k in UsedOn(old(mem.heads), p))
        && Changed(old(mem.heads), mem.heads, lists.Pages(), p, UsedOn(old(mem.heads), p) + {b})
        && (old(lists).partial != [] || old(lists).free != [])
        && lists == AfterTake(old(lists), |UsedOn(old(mem.heads), p) + {b}| == mapBits - 1)
    {
      hide ListsOk, Ones, UsedOn, Changed;
      HeadNull();
      ret, b := 0, 0;
      if partial != 0 {
        assert lists.partial[0] in Elements(lists.partial);
        ret, b := TakeFromPartial();
      } else if free != 0 {
        assert lists.free[0] in Elements(lists.free);
        ret := TakeFromFree();
        b := 1;
      }
    }

    /** The lists that the next block is taken from: fresh pages are added when no slab has room. */
    ghost function Ready(): Lists
      requires region.Valid()
      reads this, region, region.data, region.pager, region.pager.bitmap, region.pager.dir
    {
      if Source(lists) == 0 && CanGrow() then lists.(free := RunList(NextRun(), BLOCK_SIZE) + lists.free) else lists
    }

    /** A cache has a block to give, now or after it has grown. */
    ghost predicate CanAlloc()
      reads this, region, region.data, region.pager.bitmap
    {
      partial != 0 || free != 0 || CanGrow()
    }

    lemma ReadySource()
      requires Valid()
      ensures Source(Ready()) != 0 <==> CanAlloc()
    {
      HeadNull();
      assert lists.free != [] ==> lists.free[0] == free != 0;
      RunListElements(if CanGrow() then NextRun() else 0, BLOCK_SIZE);
    }

    /** Which page that is: the first partial slab's, or else the first free one's, or else the last of the new run. */
    lemma SourcePage()
      requires Valid()
      ensures lists.partial != [] ==> Source(Ready()) == Source(lists) == lists.partial[0] != 0
      ensures lists.partial == [] && lists.free != [] ==> Source(Ready()) == Source(lists) == lists.free[0] != 0
      ensures lists.partial == lists.free == [] ==>
        Source(Ready()) == if CanGrow() then NextRun() + (BLOCK_SIZE - 1) * PAGE_SIZE else 0
    {
      HeadNull();
    }

    /** The body of slab_alloc's loop: a block, or else more pages to find one in. */
    method Attempt() returns (r: AllocResult, ghost b: nat)
      requires Valid()
      modifies this, mem, region, region.data, region.pager, region.pager.bitmap, region.pager.dir
      ensures !r.Fault? ==> Valid()
      ensures r.At? <==> Source(old(lists)) != 0
      ensures r.At? ==> r.ptr == Source(old(lists)) + b * blockSize
      ensures r.At? ==> Allocated(old(mem.heads), mem.heads, old(lists).Pages(), old(region.HeldAddrs()), region.HeldAddrs(),
        old(lists), lists, Source(old(lists)), b, mapBits)
      ensures r.At? ==> region.HeldAddrs() == old(region.HeldAddrs())
      ensures r.Fault? <==> Source(old(lists)) == 0 && region.pages > 0 && !old(CanGrow())
      ensures r.Null? ==> lists == old(Ready()) && (Source(lists) == 0 <==> region.pages == 0)
      ensures r.Null? ==> Extended(old(mem.heads), mem.heads, old(lists).Pages(), lists.Pages(), old(region.HeldAddrs()), region.HeldAddrs())
    {
      hide ListsOk, Ones, UsedOn, Changed, Slots, OffPages, Extended, Allocated, RunAddrs, Addrs, Coherent, HintExact, OwnFrames, Walk;
      ghost var heads0, pages0, held0 := mem.heads, lists.Pages(), region.HeldAddrs();
      HeadNull();
      ghost var taken: nat;
      var ret: nat;
      ret, taken := TakeBlock();
      if ret != 0 {
        TakenAllocated(heads0, mem.heads, held0, old(lists), lists, Source(old(lists)), taken, mapBits);
        return At(ret), taken;
      }
      r := AddPageBlock();
      b := 0;
      if r.At? {
        GrownExtended(heads0, mem.heads, pages0, RunAddrs(r.ptr, BLOCK_SIZE), lists.Pages(), held0);
        RunListElements(r.ptr, BLOCK_SIZE);
        HeadNull();
        r := Null;
      } else if r.Null? {
        NothingExtended(heads0, pages0, held0);
      }
    }

    /** slab_alloc */
    method Alloc() returns (r: AllocResult, ghost b: nat)
      requires Valid()
      modifies this, mem, region, region.data, region.pager, region.pager.bitmap, region.pager.dir
      ensures !r.Fault? ==> Valid()
      ensures r.At? <==> Source(old(Ready())) != 0
      ensures r.Fault? <==> Source(old(Ready())) == 0 && region.pages > 0
      ensures r.Null? ==> Extended(old(mem.heads), mem.heads, old(lists).Pages(), lists.Pages(), old(region.HeldAddrs()), region.HeldAddrs())
      ensures r.At? ==> r.ptr == Source(old(Ready())) + b * blockSize
      ensures r.At? ==> Allocated(old(mem.heads), mem.heads, old(lists).Pages(), old(region.HeldAddrs()), region.HeldAddrs(),
        old(Ready()), lists, Source(old(Ready())), b, mapBits)
      ensures r.At? && old(lists).partial != [] ==> r.ptr == old(lists).partial[0] + b * blockSize
      ensures r.At? && old(lists).partial == [] && old(lists).free != [] ==> r.ptr == old(lists).free[0] + b * blockSize
      ensures r.At? && old(lists).partial == old(lists).free == [] ==>
        old(CanGrow()) && r.ptr == old(NextRun()) + (BLOCK_SIZE - 1) * PAGE_SIZE + b * blockSize
      ensures r.At? && (old(lists).partial != [] || old(lists).free != []) ==> region.HeldAddrs() == old(region.HeldAddrs())
    {
      hide ListsOk, Ones, UsedOn, Changed, Slots, OffPages, Extended, Allocated, RunAddrs, RunList, Addrs;
      SourcePage();
      ghost var heads0, pages0, held0, ready := mem.heads, lists.Pages(), region.HeldAddrs(), Ready();
      NothingExtended(heads0, pages0, held0);
      r, b := Null, 0;
      var i := 0;
      while r.Null? && i < 2
        invariant !r.Fault? && i <= 2 && Valid()
        invariant r.Null? ==> Extended(heads0, mem.heads, pages0, lists.Pages(), held0, region.HeldAddrs())
        invariant r.Null? && i == 0 ==> Ready() == ready && lists == old(lists) && CanGrow() == old(CanGrow())
        invariant r.Null? && i > 0 ==> lists == ready && (Source(lists) == 0 <==> region.pages == 0)
        invariant r.Null? && i > 1 ==> region.pages == 0
        invariant i == 0 || (r.At? && Source(old(lists)) != 0) ==> region.HeldAddrs() == held0
        invariant i > 0 && Source(old(lists)) != 0 ==> r.At?
        invariant r.At? ==> Source(ready) != 0 && r.ptr == Source(ready) + b * blockSize
        invariant r.At? ==> Allocated(heads0, mem.heads, pages0, held0, region.HeldAddrs(), ready, lists, Source(ready), b, mapBits)
      {
        ghost var heads1, pages1, held1 := mem.heads, lists.Pages(), region.HeldAddrs();
        r, b := Attempt();
        if r.At? {
          ExtendedAllocated(heads0, heads1, mem.heads, pages0, held0, held1, ready, lists, Source(ready), b, mapBits);
        } else if r.Null? {
          ExtendedTwice(heads0, heads1, mem.heads, pages0, pages1, lists.Pages(), held0, held1, region.HeldAddrs());
        } else {
          return;
        }
        i := i + 1;
      }
    }

    /** The first half of free_one_cache_page: the newest idle slab leaves its list. */
    method DropIdle() returns (tmp: nat)
      requires Ordered() && lists.free != []
      modifies this, mem
      ensures Ordered() && tmp == old(lists).free[0]
      ensures lists == old(lists).(free := old(lists).free[1..])
      ensures lists.Pages() == old(lists).Pages() - {tmp}
      ensures OffPages(old(mem.heads), mem.heads, old(lists).Pages())
      ensures UsedOn(old(mem.heads), tmp) == {}
      ensures forall q | q in lists.Pages() :: UsedOn(mem.heads, q) == UsedOn(old(mem.heads), q)
    {
      hide Linked, Distinct, Ones, UsedOn, HeaderOk, SameBody, OffPages, Relinked, ListsOk, ListOk, IsSlab;
      tmp := free;
      ghost var before := mem.heads;
      ListIsOk(before, lists, id, mapBits, FREE);
      pagesAlloced := pagesAlloced - 1;
      freePages := freePages - 1;
      free := UnlinkBlock(mem, free, tmp, lists.free, 0);
      assert Without(lists.free, 0) == lists.free[1..];
      RelinkedMore(before, mem.heads, Elements(lists.free) - {tmp}, Elements(lists.free));
      TrimmedListsOk(before, mem.heads, lists, id, mapBits);
      mem.heads := mem.heads - {tmp};
      lists := lists.(free := lists.free[1..]);
    }

    /** free_one_cache_page */
    method FreeOnePage()
      requires Ordered() && lists.Pages() <= region.HeldAddrs() && region.Valid() && region.addr > 0
      modifies this, mem, region, region.data, region.pager, region.pager.bitmap, region.pager.dir
      ensures Ordered() && region.Valid() && lists.Pages() <= region.HeldAddrs()
      ensures old(lists).free == [] ==> lists == old(lists) && mem.heads == old(mem.heads) && region.HeldAddrs() == old(region.HeldAddrs())
      ensures old(lists).free != [] ==>
        && lists == old(lists).(free := old(lists).free[1..])
        && lists.Pages() == old(lists).Pages() - {old(lists).free[0]}
        && region.HeldAddrs() == old(region.HeldAddrs()) - {old(lists).free[0]}
        && UsedOn(old(mem.heads), old(lists).free[0]) == {}
      ensures OffPages(old(mem.heads), mem.heads, old(lists).Pages())
      ensures forall q | q in lists.Pages() :: UsedOn(mem.heads, q) == UsedOn(old(mem.heads), q)
    {
      hide ListsOk, Ones, UsedOn, Addrs, Coherent, HintExact, OwnFrames, Walk;
      HeadNull();
      if free != 0 {
        assert free in Elements(lists.free);
        PageOfAddr(region.Held(), region.addr, 8 * region.data.Length, free);
        var tmp := DropIdle();
        region.FreePage(tmp);
      }
    }

    /** slab_free's update of a header: the bit is cleared, and the status follows the count. */
    method CloseBlock(slab: Slab, bits: nat) returns (after: Slab)
      requires HeaderOk(slab, id, mapBits, slab.status) && 4 <= mapBits <= 64
      requires bits in Ones(slab.bits) && bits != 0
      ensures slab.status != FREE && HeaderOk(after, id, mapBits, after.status)
      ensures after.last == slab.last && after.next == slab.next
      ensures Ones(after.bits) - {0} == Ones(slab.bits) - {0} - {bits}
      ensures after.status == if slab.status == PARTIAL && Ones(slab.bits) == {0, bits} then FREE else PARTIAL
    {
      ReleaseBlock(slab, id, mapBits, bits);
      assert bits < mapBits;
      after := Release(slab, bits);
      assert 0 in Ones(after.bits);
      assert after.bitsFree == mapBits - |Ones(after.bits)|;
      OnlyZero(Ones(after.bits));
      if slab.status == FULL && after.bitsFree >= 1 {
        after := after.(status := PARTIAL);
      } else if slab.status == PARTIAL && after.bitsFree == mapBits - 1 {
        after := after.(status := FREE);
      }
    }

    /** slab_free up to the trimming: the block is marked free and its slab moves to the list it now belongs in. */
    method ReleaseSlot(page: nat, bits: nat) returns (ghost status: Status, ghost k: nat, ghost empties: bool)
      requires Ordered() && page in lists.Pages() && bits in UsedOn(mem.heads, page)
      modifies this, mem
      ensures Ordered() && lists.Pages() == old(lists).Pages()
      ensures Changed(old(mem.heads), mem.heads, lists.Pages(), page, UsedOn(old(mem.heads), page) - {bits})
      ensures status != FREE && k < |old(lists).At(status)| && old(lists).At(status)[k] == page
      ensures empties <==> UsedOn(old(mem.heads), page) == {bits}
      ensures lists == AfterRelease(old(lists), status, k, empties)
    {
      hide ListsOk, HeaderOk, Ones, Changed;
      k := StatusNamesList(mem.heads, lists, id, mapBits, page);
      var before := mem.heads[page].slab;
      status, empties := before.status, UsedOn(mem.heads, page) == {bits};
      UsedZero(before, id, mapBits, bits);
      var slab := CloseBlock(before, bits);
      if slab.status != before.status {
        Move(before.status, page, slab, k);
        if slab.status == FREE {
          freePages := freePages + 1;
        }
      } else {
        RewrittenListsOk(mem.heads, mem.heads[page := SlabHead(slab)], lists, id, mapBits, PARTIAL, k, slab);
        mem.heads := mem.heads[page := SlabHead(slab)];
      }
    }

    /** The page that slab_free masks out of a pointer. */
    static function PageOf(ptr: nat): nat {
      ptr - ptr % PAGE_SIZE
    }

    /** The block number that slab_free divides out of a pointer. */
    function BlockOf(ptr: nat): nat
      requires blockSize > 0
    {
      (ptr - PageOf(ptr)) / blockSize
    }

    /** The end of slab_free. */
    method Trim()
      requires Ordered() && lists.Pages() <= region.HeldAddrs() && region.Valid() && region.addr > 0
      requires |lists.free| <= maxFree + 1
      modifies this, mem, region, region.data, region.pager, region.pager.bitmap, region.pager.dir
      ensures Valid()
      ensures lists == Trimmed(old(lists), maxFree) && lists.Pages() <= old(lists).Pages()
      ensures |old(lists).free| <= maxFree ==> mem.heads == old(mem.heads)
      ensures Slots(mem.heads, lists.Pages()) == Slots(old(mem.heads), old(lists).Pages())
      ensures region.HeldAddrs() == old(region.HeldAddrs()) - (old(lists).Pages() - lists.Pages())
      ensures OffPages(old(mem.heads), mem.heads, old(lists).Pages())
    {
      hide ListsOk, Ones, UsedOn, Slots, Addrs, Coherent, HintExact, OwnFrames, Walk;
      if freePages > maxFree {
        ghost var heads1, pages1, idle := mem.heads, lists.Pages(), First(lists.free);
        assert idle in Elements(lists.free);
        FreeOnePage();
        TrimmedSlots(heads1, mem.heads, pages1, lists.Pages(), idle);
      }
    }

    /** slab_free: ptr is inside a block in use, or on a page without a slab's magic number. */
    method Free(ptr: nat) returns (ghost status: Status, ghost k: nat, ghost empties: bool)
      requires Valid() && blockSize > 0
      requires IsSlab(mem.heads, PageOf(ptr)) ==> (PageOf(ptr), BlockOf(ptr)) in Live()
      modifies this, mem, region, region.data, region.pager, region.pager.bitmap, region.pager.dir
      ensures Valid()
      ensures !IsSlab(old(mem.heads), PageOf(ptr)) ==>
        lists == old(lists) && mem.heads == old(mem.heads) && region.HeldAddrs() == old(region.HeldAddrs())
      ensures IsSlab(old(mem.heads), PageOf(ptr)) ==>
        && status != FREE && k < |old(lists).At(status)| && old(lists).At(status)[k] == PageOf(ptr)
        && (empties <==> UsedOn(old(mem.heads), PageOf(ptr)) == {BlockOf(ptr)})
        && lists == Trimmed(AfterRelease(old(lists), status, k, empties), maxFree)
      ensures IsSlab(old(mem.heads), PageOf(ptr)) ==>
        Freed(old(mem.heads), mem.heads, old(lists), lists, old(region.HeldAddrs()), region.HeldAddrs(), PageOf(ptr), BlockOf(ptr))
      ensures IsSlab(old(mem.heads), PageOf(ptr)) ==>
        region.HeldAddrs() == old(region.HeldAddrs())
          - if status == PARTIAL && empties && |old(lists).free| == MAX_FREE_PAGES then {PageOf(ptr)} else {}
    {
      hide ListsOk, Ones, UsedOn, Changed, OffPages, Slots, Addrs, Coherent, HintExact, OwnFrames, Walk, AfterRelease;
      var slabpos := PageOf(ptr);
      status, k, empties := PARTIAL, 0, false;
      ghost var heads0, pages := mem.heads, lists.Pages();
      if slabpos != 0 && slabpos in mem.heads && mem.heads[slabpos].SlabHead? {
        var bits := (ptr - slabpos) / blockSize;
        LiveSlot(heads0, pages, slabpos, bits);
        status, k, empties := ReleaseSlot(slabpos, bits);
        ReleasedSlots(heads0, mem.heads, pages, slabpos, bits);
        GivenUp(heads0, old(lists), id, mapBits, status, k, empties, maxFree);
      }
      ghost var heads1 := mem.heads;
      Trim();
      if IsSlab(heads0, slabpos) {
        OffPagesTwice(heads0, heads1, mem.heads, pages, pages);
      }
    }

    /** free_slab_list */
    method FreeSlabList(slab: nat, ghost list: seq<nat>)
      requires region.Valid() && region.addr > 0
      requires Linked(mem.heads, list) && slab == First(list) && Elements(list) <= region.HeldAddrs()
      modifies `pagesAlloced, mem, region, region.data, region.pager, region.pager.bitmap, region.pager.dir
      ensures region.Valid() && region.HeldAddrs() == old(region.HeldAddrs()) - Elements(list)
      ensures region.pager.FreeFrames() == old(region.pager.FreeFrames()) + |list|
      ensures pagesAlloced == old(pagesAlloced) - |list|
      ensures mem.heads == old(mem.heads) - Elements(list)
    {
      hide Ones, Addrs, Coherent, HintExact, OwnFrames, Walk;
      var move := slab;
      ghost var i := 0;
      assert list != [] ==> LinkedAt(mem.heads, list, 0);
      while move != 0
        invariant i <= |list| && move == (if i < |list| then list[i] else 0)
        invariant i < |list| ==> move != 0
        invariant region.Valid() && region.HeldAddrs() == old(region.HeldAddrs()) - Elements(list[..i])
        invariant region.pager.FreeFrames() == old(region.pager.FreeFrames()) + i
        invariant pagesAlloced == old(pagesAlloced) - i
        invariant mem.heads == old(mem.heads) - Elements(list[..i])
        decreases |list| - i
      {
        assert LinkedAt(old(mem.heads), list, i);
        assert i + 1 < |list| ==> LinkedAt(old(mem.heads), list, i + 1);
        assert move in Elements(list) && move !in Elements(list[..i]);
        assert Elements(list[..i + 1]) == Elements(list[..i]) + {move};
        PageOfAddr(region.Held(), region.addr, 8 * region.data.Length, move);
        var temp := mem.heads[move].slab.last;
        HeldIndex(region.Held(), region.addr, 8 * region.data.Length, move);
        region.FreePage(move);
        mem.heads := mem.heads - {move};
        pagesAlloced := pagesAlloced - 1;
        move, i := temp, i + 1;
      }
      assert list[..i] == list;
    }

    /** delete_slab_cache: every page goes back to the region, each of them once. */
    method Delete()
      requires Valid()
      modifies this, mem, region, region.data, region.pager, region.pager.bitmap, region.pager.dir
      ensures region.Valid() && region.HeldAddrs() == old(region.HeldAddrs()) - old(lists).Pages()
      ensures region.pager.FreeFrames() == old(region.pager.FreeFrames()) + old(lists).Count()
      ensures pagesAlloced == 0
      ensures mem.heads == old(mem.heads) - old(lists).Pages()
    {
      hide Ones, Addrs, Coherent, HintExact, OwnFrames, Walk, HeaderOk;
      ghost var heads0 := mem.heads;
      assert ListOk(heads0, lists.At(FREE), id, mapBits, FREE);
      assert ListOk(heads0, lists.At(PARTIAL), id, mapBits, PARTIAL);
      assert ListOk(heads0, lists.At(FULL), id, mapBits, FULL);
      assert Elements(lists.At(FREE)) !! Elements(lists.At(PARTIAL));
      assert Elements(lists.At(FREE)) !! Elements(lists.At(FULL));
      assert Elements(lists.At(PARTIAL)) !! Elements(lists.At(FULL));
      FreeSlabList(free, lists.free);
      ClearedStaysLinked(heads0, Elements(lists.free), lists.partial);
      FreeSlabList(partial, lists.partial);
      ClearedStaysLinked(heads0, Elements(lists.free) + Elements(lists.partial), lists.full);
      assert mem.heads == heads0 - (Elements(lists.free) + Elements(lists.partial));
      FreeSlabList(full, lists.full);
    }

    /** new_slab_cache_at_addr: a cache starts with one run of pages, if the region has one. */
    static method Create(id: nat, mem: Memory, region: Region, size: nat) returns (cache: SlabCache, r: AllocResult)
      requires 1 <= size <= 1024 && region.Valid() && region.addr > 0
      modifies mem, region, region.data, region.pager, region.pager.bitmap, region.pager.dir
      ensures fresh(cache) && cache.id == id && cache.mem == mem && cache.region == region && cache.objSize == size
      ensures r.Null? <==> region.pages == 0
      ensures r.At? <==> old(region.Supply()).Gives(BLOCK_SIZE)
      ensures r.At? ==> region.Supply() == old(region.Supply()).After(BLOCK_SIZE)
      ensures !r.Fault? ==> cache.Valid() && cache.Live() == {}
      ensures !r.Fault? ==> cache.lists == Lists(if r.At? then RunList(r.ptr, BLOCK_SIZE) else [], [], [])
      ensures !r.Fault? ==> cache.lists.Pages() !! old(region.HeldAddrs())
      ensures !r.Fault? ==> region.HeldAddrs() == old(region.HeldAddrs()) + cache.lists.Pages()
      ensures !r.Fault? ==> OffPages(old(mem.heads), mem.heads, cache.lists.Pages())
    {
      hide Ones, UsedOn, Addrs, RunAddrs, Coherent, HintExact, OwnFrames, Walk, ListsOk, FindRun, Stop, HeaderOk;
      cache := new SlabCache(id, mem, region, size);
      r := cache.AddPageBlock();
      if r.At? {
        assert RunList(r.ptr, BLOCK_SIZE) + [] == RunList(r.ptr, BLOCK_SIZE);
        RunListElements(r.ptr, BLOCK_SIZE);
      }
    }

    lemma HeadNull()
      requires Ordered()
      ensures free == 0 <==> lists.free == []
      ensures partial == 0 <==> lists.partial == []
      ensures full == 0 <==> lists.full == []
    {
      assert ListOk(mem.heads, lists.At(FREE), id, mapBits, FREE);
      assert ListOk(mem.heads, lists.At(PARTIAL), id, mapBits, PARTIAL);
      assert ListOk(mem.heads, lists.At(FULL), id, mapBits, FULL);
      assert lists.free != [] ==> SlabOk(mem.heads, lists.free[0], id, mapBits, FREE);
      assert lists.partial != [] ==> SlabOk(mem.heads, lists.partial[0], id, mapBits, PARTIAL);
      assert lists.full != [] ==> SlabOk(mem.heads, lists.full[0], id, mapBits, FULL);
    }
  }

  lemma RelinkedMore(before: Heads, after: Heads, pages: set<nat>, more: set<nat>)
    requires Relinked(before, after, pages) && pages <= more
    ensures Relinked(before, after, more)
  {
  }

  lemma UsedZero(s: Slab, cache: nat, mapBits: nat, bits: nat)
    requires HeaderOk(s, cache, mapBits, s.status) && bits in Ones(s.bits) - {0}
    ensures bits in Ones(s.bits) && bits != 0
    ensures Ones(s.bits) - {0} == {bits} <==> Ones(s.bits) == {0, bits}
    ensures Ones(s.bits) == {0, bits} && mapBits >= 4 ==> s.status == PARTIAL
  {
    if Ones(s.bits) == {0, bits} {
      assert |Ones(s.bits)| == 2;
    }
    if Ones(s.bits) - {0} == {bits} {
      assert Ones(s.bits) == Ones(s.bits) - {0} + {0};
    }
  }

  lemma HeldIndex(ones: set<nat>, addr: nat, bits: nat, p: nat)
    requires addr % PAGE_SIZE == 0 && p in Addrs(ones, addr, bits)
    ensures (p - addr) / PAGE_SIZE in ones
  {
    assert StartsPage(ones, addr, p);
  }

  lemma ClearedStaysLinked(heads: Heads, pages: set<nat>, list: seq<nat>)
    requires Linked(heads, list) && Elements(list) !! pages
    ensures Linked(heads - pages, list)
  {
    forall i | 0 <= i < |list|
      ensures LinkedAt(heads - pages, list, i)
    {
      assert LinkedAt(heads, list, i) && list[i] in Elements(list);
    }
  }

  lemma LiveSlot(heads: Heads, pages: set<nat>, p: nat, k: nat)
    requires (p, k) in Slots(heads, pages)
    ensures p in pages && k in UsedOn(heads, p)
  {
  }

  lemma OnlyZero(s: set<nat>)
    requires 0 in s
    ensures |s| == 1 <==> s == {0}
  {
    assert |s - {0}| == |s| - 1;
  }

  lemma PageOfAddr(ones: set<nat>, addr: nat, bits: nat, p: nat)
    requires addr % PAGE_SIZE == 0 && p in Addrs(ones, addr, bits)
    ensures addr <= p < addr + bits * PAGE_SIZE && p % PAGE_SIZE == 0
  {
  }

  /** With two blocks a slab fills while still marked partial, and the search then leaves its page. */
  lemma TwoBlockOverrun(s: Slab, cache: nat, p: nat)
    requires HeaderOk(s, cache, 2, FREE)
    ensures var after := Use(s, 1).(status := PARTIAL);
      && after.bitsFree == 0
      && (forall k | 0 <= k < 2 :: k in Ones(after.bits)) && 2 !in Ones(after.bits)
      && p + 2 * (PAGE_SIZE / 2) == p + PAGE_SIZE
  {
    assert |Ones(s.bits)| == 1;
  }
}
