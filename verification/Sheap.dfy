/** The kernel heap: size classes of slab caches, and runs of pages for what is too big for them. */
module Sheaps {
  import opened Arithmetic
  import opened Bits
  import opened Paging
  import opened Regions
  import opened SlabMemory
  import opened SlabGeometry
  import opened Slabs

  const MAX_SIZE: nat := 1024
  const WORD: nat := 0x1_0000_0000

  // ---------- Size classes ----------

  /** sheap_valid_denom */
  predicate ValidDenom(i: nat)
    requires 0 < i <= 64
  {
    && 64 / i % 2 != 1
    && PAGE_SIZE / (64 / i) / 64 == i
  }

  lemma Classes()
    ensures forall i | 1 <= i <= 16 :: ValidDenom(i) <==> i in {1, 2, 4, 5, 6, 8, 10, 16}
  {
  }

  /** ceil(size / 64): the class where the search starts. */
  function FirstClass(size: nat): nat {
    size / 64 + if size % 64 > 0 then 1 else 0
  }

  function ClassFrom(i: nat): (c: nat)
    requires 1 <= i <= 16
    ensures i <= c <= 16 && ValidDenom(c) && forall j | i <= j < c :: !ValidDenom(j)
    decreases 16 - i
  {
    if ValidDenom(i) then i else ClassFrom(i + 1)
  }

  /** How many classes get a cache from the i-th on. */
  ghost function ClassesFrom(i: nat): nat
    requires 1 <= i <= 17
    decreases 17 - i
  {
    if i == 17 then 0 else (if ValidDenom(i) then 1 else 0) + ClassesFrom(i + 1)
  }

  /** A class with a cache takes one run of pages. */
  lemma OneClassMore(stock: Stock, i: nat)
    requires 1 <= i <= 16
    ensures stock.GivesTimes(BLOCK_SIZE, ClassesFrom(i)) <==>
      if ValidDenom(i) then stock.Gives(BLOCK_SIZE) && stock.After(BLOCK_SIZE).GivesTimes(BLOCK_SIZE, ClassesFrom(i + 1))
      else stock.GivesTimes(BLOCK_SIZE, ClassesFrom(i + 1))
  {
    hide Stock.Gives, Stock.After, ValidDenom;
  }

  lemma NoClassLeft(stock: Stock)
    ensures stock.GivesTimes(BLOCK_SIZE, ClassesFrom(17))
  {
  }

  lemma EightClasses()
    ensures ClassesFrom(1) == 8
  {
    Classes();
    assert ClassesFrom(13) == 1;
    assert ClassesFrom(9) == 2;
    assert ClassesFrom(5) == 5;
  }

  /** The class that a size belongs to. */
  function ClassOf(size: nat): (c: nat)
    requires 1 <= size < MAX_SIZE
    ensures 1 <= c <= 16 && ValidDenom(c) && size <= 64 * c
    ensures forall i | 1 <= i < c && ValidDenom(i) :: 64 * i < size
  {
    ClassFrom(FirstClass(size))
  }

  /** The class search of sheap_alloc ends at the least valid class that is big enough. */
  method FindClass(size: nat) returns (bits: nat)
    requires 1 <= size < MAX_SIZE
    ensures 1 <= bits <= 16 && ValidDenom(bits) && size <= 64 * bits
    ensures forall i | 1 <= i < bits && ValidDenom(i) :: 64 * i < size
    ensures bits == ClassOf(size)
  {
    Classes();
    bits := FirstClass(size);
    while !ValidDenom(bits) && bits <= 16
      invariant 1 <= bits <= 16 && size <= 64 * bits
      invariant forall i | 1 <= i < bits && ValidDenom(i) :: 64 * i < size
    {
      bits := bits + 1;
    }
  }

  /** A request for nothing is one for a byte. */
  function Wanted(size: nat): nat {
    if size == 0 then 1 else size
  }

  // ---------- Large blocks ----------

  /** The pages that sheap_alloc takes for a large block, in 32-bit arithmetic. */
  function LargePages(size: nat): nat {
    (size + 4) % WORD / PAGE_SIZE + if size % PAGE_SIZE > 0 then 1 else 0
  }

  /** The length word that it stores. */
  function SizeOf(size: nat): nat {
    (size + 4) % WORD
  }

  /** The pages hold the length word and the block, and one page fewer would not hold more, unless the size is a multiple of
      the page size, where they hold the block alone, or wraps. */
  lemma LargeFits(size: nat)
    requires MAX_SIZE <= size < WORD
    ensures size + 4 <= Regions.Pages(LargePages(size)) * PAGE_SIZE <==> size % PAGE_SIZE != 0 && size < WORD - 4
    ensures size % PAGE_SIZE != 0 && size < WORD - 4 ==> (LargePages(size) - 1) * PAGE_SIZE <= size + 4 < LargePages(size) * PAGE_SIZE
    ensures size % PAGE_SIZE == 0 ==> LargePages(size) * PAGE_SIZE == size
  {
  }

  /** Freeing a large block gives all its pages back exactly for these sizes; otherwise some are lost. */
  lemma LargeLeak(size: nat)
    requires MAX_SIZE <= size < WORD
    ensures Regions.Pages(LargePages(size)) == 1 && SizeOf(size) > 0 <==> size < PAGE_SIZE - 4 || size == PAGE_SIZE || size > WORD - 4
  {
  }

  /** A block handed out: block b of page p of the cache of class i, or the large block whose run starts at s. */
  datatype Block = Small(i: nat, p: nat, b: nat) | Large(s: nat)

  // ---------- Who holds which page ----------

  /** A run of n pages: a large block of the given size behind its length word, or pages taken as they are. */
  datatype Run = Big(n: nat, size: nat) | Raw(n: nat)

  /** A page handed out belongs to a cache, to a run, or to nobody any more. */
  datatype Owner = ByCache(i: nat) | ByRun(start: nat) | Lost

  type Owners = map<nat, Owner>

  ghost function OwnedBy(owners: Owners, o: Owner): set<nat> {
    set a | a in owners && owners[a] == o
  }

  ghost function Give(owners: Owners, pages: set<nat>, o: Owner): Owners {
    owners + map a | a in pages :: o
  }

  lemma GiveNew(owners: Owners, pages: set<nat>, o: Owner)
    requires forall a | a in pages && a in owners :: owners[a] == o
    ensures OwnedBy(Give(owners, pages, o), o) == OwnedBy(owners, o) + pages
    ensures forall p: Owner | p != o :: OwnedBy(Give(owners, pages, o), p) == OwnedBy(owners, p)
    ensures Give(owners, pages, o).Keys == owners.Keys + pages
  {
  }

  lemma TakeBack(owners: Owners, pages: set<nat>, o: Owner)
    requires pages <= OwnedBy(owners, o)
    ensures OwnedBy(owners - pages, o) == OwnedBy(owners, o) - pages
    ensures forall p: Owner | p != o :: OwnedBy(owners - pages, p) == OwnedBy(owners, p)
    ensures (owners - pages).Keys == owners.Keys - pages
  {
  }

  lemma OwnersDisjoint(owners: Owners, o: Owner, p: Owner)
    requires o != p
    ensures OwnedBy(owners, o) !! OwnedBy(owners, p)
  {
  }

  /** Lists whose pages are not written to stay in order. */
  lemma ListsFrame(before: Heads, after: Heads, pages: set<nat>, lists: Lists, cache: nat, mapBits: nat)
    requires ListsOk(before, lists, cache, mapBits)
    requires OffPages(before, after, pages) && lists.Pages() !! pages
    ensures ListsOk(after, lists, cache, mapBits)
    ensures Slots(after, lists.Pages()) == Slots(before, lists.Pages())
  {
    hide Ones, HeaderOk;
    forall s: Status, p | p in lists.At(s)
      ensures p in before && p in after && after[p] == before[p]
    {
      assert ListOk(before, lists.At(s), cache, mapBits, s) && p in Elements(lists.At(s));
      assert SlabOk(before, p, cache, mapBits, s);
    }
    forall s: Status
      ensures ListOk(after, lists.At(s), cache, mapBits, s)
    {
      assert ListOk(before, lists.At(s), cache, mapBits, s);
      forall i | 0 <= i < |lists.At(s)|
        ensures LinkedAt(after, lists.At(s), i)
      {
        assert LinkedAt(before, lists.At(s), i) && lists.At(s)[i] in lists.At(s);
      }
      forall p | p in lists.At(s)
        ensures SlabOk(after, p, cache, mapBits, s)
      {
        assert SlabOk(before, p, cache, mapBits, s);
      }
    }
    forall p | p in lists.Pages()
      ensures UsedOn(after, p) == UsedOn(before, p)
    {
      assert p in lists.At(FREE) || p in lists.At(PARTIAL) || p in lists.At(FULL);
    }
  }

  lemma RunStartsHere(s: nat, n: nat)
    requires n >= 1
    ensures s in RunAddrs(s, n)
  {
    InRun(s, n, 0);
  }

  // ---------- The heap as a whole ----------

  /** For each cache its blocks in use, as pairs of a page and a block number. */
  ghost function UsedBlocks(heads: Heads, views: map<nat, Lists>): map<nat, set<(nat, nat)>> {
    map i | i in views :: Slots(heads, views[i].Pages())
  }

  ghost function ClassBits(i: nat): nat {
    if Units(PAGE_SIZE, 64, 64 * i) > 0 then MapBits(PAGE_SIZE, 64, 64 * i) else 0
  }

  ghost predicate CacheOk(heads: Heads, lists: Lists, owners: Owners, i: nat) {
    && ListsOk(heads, lists, i, ClassBits(i))
    && lists.Pages() == OwnedBy(owners, ByCache(i))
  }

  ghost predicate RunOk(heads: Heads, run: Run, owners: Owners, s: nat) {
    && run.n >= 1
    && RunAddrs(s, run.n) == OwnedBy(owners, ByRun(s))
    && (run.Big? ==>
      && MAX_SIZE <= run.size < WORD
      && run.n == Regions.Pages(LargePages(run.size))
      && s in heads && heads[s] == SizeWord(SizeOf(run.size)))
  }

  /** Each page handed out has one owner, and the caches' lists and the runs agree with that. */
  ghost predicate HeapOk(heads: Heads, views: map<nat, Lists>, runs: map<nat, Run>, owners: Owners) {
    && (forall i | i in views :: CacheOk(heads, views[i], owners, i))
    && (forall s | s in runs :: RunOk(heads, runs[s], owners, s))
    && forall o: Owner | OwnedBy(owners, o) != {} :: (o.ByCache? ==> o.i in views) && (o.ByRun? ==> o.start in runs)
  }

  /** The owners after cache i's pages became the given ones. */
  ghost function Reowned(owners: Owners, i: nat, pages: set<nat>): Owners {
    Give(owners - (OwnedBy(owners, ByCache(i)) - pages), pages, ByCache(i))
  }

  /** A cache that writes only to its own pages, old or newly handed out, leaves the rest of the heap as it was. */
  lemma CacheStep(before: Heads, after: Heads, views: map<nat, Lists>, runs: map<nat, Run>, owners: Owners, i: nat, lists: Lists)
    requires HeapOk(before, views, runs, owners) && i in views
    requires ListsOk(after, lists, i, ClassBits(i))
    requires OffPages(before, after, views[i].Pages() + lists.Pages())
    requires lists.Pages() - views[i].Pages() !! owners.Keys
    ensures HeapOk(after, views[i := lists], runs, Reowned(owners, i, lists.Pages()))
    ensures Reowned(owners, i, lists.Pages()).Keys == owners.Keys - views[i].Pages() + lists.Pages()
  {
    hide ListsOk, OffPages, Slots, RunAddrs, OwnedBy, Reowned;
    var was, pages := views[i].Pages(), lists.Pages();
    var owners' := Reowned(owners, i, pages);
    assert CacheOk(before, views[i], owners, i);
    ReownedFacts(owners, i, pages);
    forall j | j in views && j != i
      ensures CacheOk(after, views[j], owners', j)
    {
      assert CacheOk(before, views[j], owners, j);
      CacheKept(before, after, was + pages, views[j], owners, owners', i, j);
    }
    forall s | s in runs
      ensures RunOk(after, runs[s], owners', s)
    {
      assert RunOk(before, runs[s], owners, s);
      RunKept(before, after, was + pages, runs[s], owners, owners', i, s);
    }
  }

  lemma CacheStepUsed(before: Heads, after: Heads, views: map<nat, Lists>, runs: map<nat, Run>, owners: Owners, i: nat, lists: Lists)
    requires HeapOk(before, views, runs, owners) && i in views
    requires OffPages(before, after, views[i].Pages() + lists.Pages())
    requires lists.Pages() - views[i].Pages() !! owners.Keys
    ensures UsedBlocks(after, views[i := lists]) == UsedBlocks(before, views)[i := Slots(after, lists.Pages())]
  {
    hide ListsOk, OffPages, Slots, OwnedBy, Reowned, Lists.Pages, UsedBlocks, RunOk;
    assert CacheOk(before, views[i], owners, i);
    ReownedFacts(owners, i, lists.Pages());
    forall j | j in views && j != i
      ensures Slots(after, views[j].Pages()) == Slots(before, views[j].Pages())
    {
      assert CacheOk(before, views[j], owners, j);
      CacheKept(before, after, views[i].Pages() + lists.Pages(), views[j], owners, Reowned(owners, i, lists.Pages()), i, j);
    }
    UsedUpdate(before, after, views, i, lists);
  }

  lemma UsedUpdate(before: Heads, after: Heads, views: map<nat, Lists>, i: nat, lists: Lists)
    requires i in views
    requires forall j | j in views && j != i :: Slots(after, views[j].Pages()) == Slots(before, views[j].Pages())
    ensures UsedBlocks(after, views[i := lists]) == UsedBlocks(before, views)[i := Slots(after, lists.Pages())]
  {
    hide Slots, Lists.Pages;
  }

  /** A cache without pages can be added at any time. */
  lemma EmptyCacheStep(heads: Heads, views: map<nat, Lists>, runs: map<nat, Run>, owners: Owners, i: nat)
    requires HeapOk(heads, views, runs, owners) && i !in views
    ensures HeapOk(heads, views[i := Lists([], [], [])], runs, owners)
  {
    hide RunOk;
    var empty := Lists([], [], []);
    assert OwnedBy(owners, ByCache(i)) == {};
    assert forall s: Status :: empty.At(s) == [];
    assert CacheOk(heads, empty, owners, i);
  }

  lemma EmptyCacheUsed(heads: Heads, views: map<nat, Lists>, i: nat)
    ensures UsedBlocks(heads, views[i := Lists([], [], [])]) == UsedBlocks(heads, views)[i := {}]
  {
    hide UsedOn;
    assert Slots(heads, Lists([], [], []).Pages()) == {};
  }

  ghost function PagesByCaches(owners: Owners, k: nat): set<nat> {
    set a | a in owners && owners[a].ByCache? && owners[a].i <= k
  }

  ghost function PagesByRuns(owners: Owners): set<nat> {
    set a | a in owners && owners[a].ByRun?
  }

  ghost function SumCounts(views: map<nat, Lists>, k: nat): nat {
    (if k in views then views[k].Count() else 0) + if k == 0 then 0 else SumCounts(views, k - 1)
  }

  lemma {:induction false} DistinctSize(list: seq<nat>)
    requires Distinct(list)
    ensures |Elements(list)| == |list|
  {
    if list == [] {
      assert Elements(list) == {};
    } else {
      var rest := list[..|list| - 1];
      DistinctSize(rest);
      assert list[|list| - 1] !in rest;
      assert Elements(list) == Elements(rest) + {list[|list| - 1]};
    }
  }

  lemma CacheCount(heads: Heads, lists: Lists, owners: Owners, i: nat)
    requires CacheOk(heads, lists, owners, i)
    ensures |OwnedBy(owners, ByCache(i))| == lists.Count()
  {
    hide HeaderOk, OwnedBy;
    assert ListOk(heads, lists.At(FREE), i, ClassBits(i), FREE);
    assert ListOk(heads, lists.At(PARTIAL), i, ClassBits(i), PARTIAL);
    assert ListOk(heads, lists.At(FULL), i, ClassBits(i), FULL);
    assert Elements(lists.At(FREE)) !! Elements(lists.At(PARTIAL));
    assert Elements(lists.At(FREE)) !! Elements(lists.At(FULL));
    assert Elements(lists.At(PARTIAL)) !! Elements(lists.At(FULL));
    DistinctSize(lists.free);
    DistinctSize(lists.partial);
    DistinctSize(lists.full);
    assert |Elements(lists.free) + Elements(lists.partial)| == |lists.free| + |lists.partial|;
  }

  lemma {:induction false} CacheCounts(heads: Heads, views: map<nat, Lists>, runs: map<nat, Run>, owners: Owners, k: nat)
    requires HeapOk(heads, views, runs, owners)
    ensures |PagesByCaches(owners, k)| == SumCounts(views, k)
  {
    hide CacheOk, RunOk;
    var own := OwnedBy(owners, ByCache(k));
    if k in views {
      assert CacheOk(heads, views[k], owners, k);
      CacheCount(heads, views[k], owners, k);
    } else {
      assert own == {};
    }
    if k == 0 {
      assert PagesByCaches(owners, 0) == own;
    } else {
      CacheCounts(heads, views, runs, owners, k - 1);
      assert PagesByCaches(owners, k) == PagesByCaches(owners, k - 1) + own;
      assert PagesByCaches(owners, k - 1) !! own;
    }
  }

  /** Every page handed out is counted once: by a cache, by a run, or as lost. */
  lemma PagesAddUp(heads: Heads, views: map<nat, Lists>, runs: map<nat, Run>, owners: Owners, last: nat)
    requires HeapOk(heads, views, runs, owners) && forall i | i in views :: i <= last
    ensures |owners.Keys| == SumCounts(views, last) + |PagesByRuns(owners)| + |OwnedBy(owners, Lost)|
  {
    hide CacheOk, RunOk;
    hide SumCounts;
    CacheCounts(heads, views, runs, owners, last);
    forall a | a in owners && owners[a].ByCache?
      ensures owners[a].i <= last
    {
      assert a in OwnedBy(owners, owners[a]);
    }
    ThreeParts(owners.Keys, PagesByCaches(owners, last), PagesByRuns(owners), OwnedBy(owners, Lost));
  }

  lemma ThreeParts(s: set<nat>, a: set<nat>, b: set<nat>, c: set<nat>)
    requires forall x | x in s :: x in a || x in b || x in c
    requires a <= s && b <= s && c <= s && a !! b && a !! c && b !! c
    ensures |s| == |a| + |b| + |c|
  {
    assert s == a + b + c;
    assert |a + b + c| == |a + b| + |c|;
  }

  lemma ReownedFacts(owners: Owners, i: nat, pages: set<nat>)
    requires pages - OwnedBy(owners, ByCache(i)) !! owners.Keys
    ensures OwnedBy(Reowned(owners, i, pages), ByCache(i)) == pages
    ensures forall o: Owner | o != ByCache(i) :: OwnedBy(Reowned(owners, i, pages), o) == OwnedBy(owners, o)
    ensures Reowned(owners, i, pages).Keys == owners.Keys - OwnedBy(owners, ByCache(i)) + pages
  {
    var gone := OwnedBy(owners, ByCache(i)) - pages;
    TakeBack(owners, gone, ByCache(i));
    var kept := owners - gone;
    assert forall a | a in pages && a in kept :: kept[a] == ByCache(i);
    GiveNew(kept, pages, ByCache(i));
  }

  lemma CacheKept(before: Heads, after: Heads, pages: set<nat>, lists: Lists, owners: Owners, owners': Owners, i: nat, j: nat)
    requires CacheOk(before, lists, owners, j) && j != i
    requires OffPages(before, after, pages) && pages <= OwnedBy(owners, ByCache(i)) + OwnedBy(owners', ByCache(i))
    requires OwnedBy(owners', ByCache(j)) == OwnedBy(owners, ByCache(j))
    ensures CacheOk(after, lists, owners', j) && Slots(after, lists.Pages()) == Slots(before, lists.Pages())
  {
    hide ListsOk, OffPages, Slots;
    OwnersDisjoint(owners, ByCache(i), ByCache(j));
    OwnersDisjoint(owners', ByCache(i), ByCache(j));
    ListsFrame(before, after, pages, lists, j, ClassBits(j));
  }

  lemma RunKept(before: Heads, after: Heads, pages: set<nat>, run: Run, owners: Owners, owners': Owners, i: nat, s: nat)
    requires RunOk(before, run, owners, s)
    requires OffPages(before, after, pages) && pages <= OwnedBy(owners, ByCache(i)) + OwnedBy(owners', ByCache(i))
    requires OwnedBy(owners', ByRun(s)) == OwnedBy(owners, ByRun(s))
    ensures RunOk(after, run, owners', s)
  {
    hide OffPages, RunAddrs;
    OwnersDisjoint(owners, ByCache(i), ByRun(s));
    OwnersDisjoint(owners', ByCache(i), ByRun(s));
    RunStartsHere(s, run.n);
    SameHead(before, after, pages, s);
  }

  /** A new run of pages joins the heap, with or without a length word on its first page. */
  lemma RunStep(before: Heads, after: Heads, views: map<nat, Lists>, runs: map<nat, Run>, owners: Owners, s: nat, run: Run)
    requires HeapOk(before, views, runs, owners)
    requires run.n >= 1 && RunAddrs(s, run.n) !! owners.Keys
    requires OffPages(before, after, {s})
    requires run.Big? ==> MAX_SIZE <= run.size < WORD && run.n == Regions.Pages(LargePages(run.size))
    requires run.Big? ==> s in after && after[s] == SizeWord(SizeOf(run.size))
    ensures s !in runs
    ensures HeapOk(after, views, runs[s := run], Give(owners, RunAddrs(s, run.n), ByRun(s)))
    ensures Give(owners, RunAddrs(s, run.n), ByRun(s)).Keys == owners.Keys + RunAddrs(s, run.n)
    ensures UsedBlocks(after, views) == UsedBlocks(before, views)
  {
    hide CacheOk, RunOk, OffPages, Slots, RunAddrs, OwnedBy, Give, Lists.Pages;
    var pages := RunAddrs(s, run.n);
    NewStart(before, runs, owners, views, s, run);
    GiveNew(owners, pages, ByRun(s));
    forall j | j in views
      ensures CacheOk(after, views[j], Give(owners, pages, ByRun(s)), j) && Slots(after, views[j].Pages()) == Slots(before, views[j].Pages())
    {
      CacheAfterGive(before, after, views[j], owners, s, pages, j);
    }
    forall t | t in runs
      ensures RunOk(after, runs[t], Give(owners, pages, ByRun(s)), t)
    {
      RunAfterGive(before, after, runs[t], owners, s, pages, t);
    }
    NewRunOk(after, run, owners, s);
  }

  /** No run starts at a page that nobody holds. */
  lemma NewStart(heads: Heads, runs: map<nat, Run>, owners: Owners, views: map<nat, Lists>, s: nat, run: Run)
    requires HeapOk(heads, views, runs, owners) && run.n >= 1 && RunAddrs(s, run.n) !! owners.Keys
    ensures s in RunAddrs(s, run.n) && s !in owners && s !in runs && OwnedBy(owners, ByRun(s)) == {}
  {
    hide CacheOk, RunAddrs;
    RunStartsHere(s, run.n);
    if s in runs {
      assert RunOk(heads, runs[s], owners, s);
      RunStartsHere(s, runs[s].n);
    }
  }

  lemma NewRunOk(heads: Heads, run: Run, owners: Owners, s: nat)
    requires run.n >= 1 && RunAddrs(s, run.n) !! owners.Keys && OwnedBy(owners, ByRun(s)) == {}
    requires run.Big? ==> MAX_SIZE <= run.size < WORD && run.n == Regions.Pages(LargePages(run.size))
    requires run.Big? ==> s in heads && heads[s] == SizeWord(SizeOf(run.size))
    ensures RunOk(heads, run, Give(owners, RunAddrs(s, run.n), ByRun(s)), s)
  {
    hide RunAddrs, OwnedBy, Give;
    GiveNew(owners, RunAddrs(s, run.n), ByRun(s));
  }

  lemma RunAfterGive(before: Heads, after: Heads, run: Run, owners: Owners, s: nat, pages: set<nat>, t: nat)
    requires RunOk(before, run, owners, t) && pages !! owners.Keys && s in pages && OffPages(before, after, {s})
    ensures RunOk(after, run, Give(owners, pages, ByRun(s)), t)
  {
    hide OffPages, RunAddrs, Give;
    GiveNew(owners, pages, ByRun(s));
    RunStartsHere(t, run.n);
    SameHead(before, after, {s}, t);
  }

  lemma CacheAfterGive(before: Heads, after: Heads, lists: Lists, owners: Owners, s: nat, pages: set<nat>, j: nat)
    requires CacheOk(before, lists, owners, j) && pages !! owners.Keys && s in pages && OffPages(before, after, {s})
    ensures CacheOk(after, lists, Give(owners, pages, ByRun(s)), j) && Slots(after, lists.Pages()) == Slots(before, lists.Pages())
  {
    hide ListsOk, OffPages, Slots;
    GiveNew(owners, pages, ByRun(s));
    ListsFrame(before, after, {s}, lists, j, ClassBits(j));
  }

  /** The pages that are given up when a run ends: those given back, and the others, which nobody holds any more. */
  ghost function Ended(owners: Owners, s: nat, back: set<nat>): Owners {
    Give(owners - back, OwnedBy(owners, ByRun(s)) - back, Lost)
  }

  lemma EndedFacts(owners: Owners, s: nat, back: set<nat>)
    requires back <= OwnedBy(owners, ByRun(s))
    ensures OwnedBy(Ended(owners, s, back), ByRun(s)) == {}
    ensures OwnedBy(Ended(owners, s, back), Lost) == OwnedBy(owners, Lost) + (OwnedBy(owners, ByRun(s)) - back)
    ensures forall o: Owner | o != Lost && o != ByRun(s) :: OwnedBy(Ended(owners, s, back), o) == OwnedBy(owners, o)
    ensures Ended(owners, s, back).Keys == owners.Keys - back
  {
  }

  lemma CacheAfterEnd(before: Heads, after: Heads, lists: Lists, owners: Owners, s: nat, back: set<nat>, j: nat)
    requires CacheOk(before, lists, owners, j) && back <= OwnedBy(owners, ByRun(s)) && OffPages(before, after, back)
    ensures CacheOk(after, lists, Ended(owners, s, back), j) && Slots(after, lists.Pages()) == Slots(before, lists.Pages())
  {
    hide ListsOk, OffPages, Slots, Ended, OwnedBy;
    EndedFacts(owners, s, back);
    OwnersDisjoint(owners, ByCache(j), ByRun(s));
    ListsFrame(before, after, back, lists, j, ClassBits(j));
  }

  lemma RunAfterEnd(before: Heads, after: Heads, run: Run, owners: Owners, s: nat, back: set<nat>, t: nat)
    requires RunOk(before, run, owners, t) && t != s && back <= OwnedBy(owners, ByRun(s)) && OffPages(before, after, back)
    ensures RunOk(after, run, Ended(owners, s, back), t)
  {
    hide OffPages, RunAddrs, Ended, OwnedBy;
    EndedFacts(owners, s, back);
    OwnersDisjoint(owners, ByRun(t), ByRun(s));
    RunStartsHere(t, run.n);
    SameHead(before, after, back, t);
  }

  /** A run ends: some of its pages go back to the region and lose their headers. */
  lemma EndStep(before: Heads, after: Heads, views: map<nat, Lists>, runs: map<nat, Run>, owners: Owners, s: nat, back: set<nat>)
    requires HeapOk(before, views, runs, owners) && s in runs
    requires back <= OwnedBy(owners, ByRun(s)) && OffPages(before, after, back)
    ensures HeapOk(after, views, runs - {s}, Ended(owners, s, back))
    ensures UsedBlocks(after, views) == UsedBlocks(before, views)
  {
    hide CacheOk, RunOk, OffPages, Slots, Ended, OwnedBy;
    EndedFacts(owners, s, back);
    forall j | j in views
      ensures CacheOk(after, views[j], Ended(owners, s, back), j) && Slots(after, views[j].Pages()) == Slots(before, views[j].Pages())
    {
      CacheAfterEnd(before, after, views[j], owners, s, back, j);
    }
    forall t | t in runs && t != s
      ensures RunOk(after, runs[t], Ended(owners, s, back), t)
    {
      RunAfterEnd(before, after, runs[t], owners, s, back, t);
    }
  }

  lemma SameHead(before: Heads, after: Heads, pages: set<nat>, a: nat)
    requires OffPages(before, after, pages) && a !in pages
    ensures a in before ==> a in after && after[a] == before[a]
  {
  }

  ghost predicate LiveIn(used: map<nat, set<(nat, nat)>>, runs: map<nat, Run>, block: Block) {
    match block
    case Small(i, p, b) => i in used && (p, b) in used[i]
    case Large(s) => s in runs && runs[s].Big?
  }

  lemma OneSmallMore(used: map<nat, set<(nat, nat)>>, runs: map<nat, Run>, i: nat, p: nat, b: nat)
    requires i in used
    ensures forall other: Block :: LiveIn(used[i := used[i] + {(p, b)}], runs, other) <==> LiveIn(used, runs, other) || other == Small(i, p, b)
  {
  }

  lemma OneSmallLess(used: map<nat, set<(nat, nat)>>, runs: map<nat, Run>, i: nat, p: nat, b: nat)
    requires i in used
    ensures forall other: Block :: LiveIn(used[i := used[i] - {(p, b)}], runs, other) <==> LiveIn(used, runs, other) && other != Small(i, p, b)
  {
  }

  class Sheap {
    const mem: Memory
    const region: Region
    var caches: map<nat, SlabCache>
    ghost var views: map<nat, Lists>
    ghost var runs: map<nat, Run>
    ghost var owners: Owners

    /** Cache i's own record. */
    ghost predicate CacheFields(i: nat)
      requires i in caches && i in views
      reads this, caches.Values
    {
      var c := caches[i];
      && 1 <= i <= 16
      && c.id == i && c.mem == mem && c.region == region && c.objSize == 64 * i
      && c.Fields() && |c.lists.free| <= c.maxFree
      && c.lists == views[i]
    }

    ghost predicate Fields()
      reads this, caches.Values
    {
      && views.Keys == caches.Keys
      && forall i | i in caches :: CacheFields(i)
    }

    ghost predicate Valid()
      reads this, caches.Values, mem, region, region.data, region.pager, region.pager.bitmap, region.pager.dir
    {
      && region.Valid() && region.addr > 0
      && owners.Keys == region.HeldAddrs()
      && Fields()
      && HeapOk(mem.heads, views, runs, owners)
    }

    /** For each cache its blocks in use. */
    ghost function Used(): map<nat, set<(nat, nat)>>
      reads this, mem
    {
      UsedBlocks(mem.heads, views)
    }

    constructor (mem: Memory, region: Region)
      requires region.Valid() && region.addr > 0 && region.HeldAddrs() == {}
      ensures Valid() && this.mem == mem && this.region == region
      ensures caches == map[] && runs == map[] && owners == map[]
    {
      this.mem, this.region := mem, region;
      caches, views, runs, owners := map[], map[], map[], map[];
    }

    lemma CacheValid(i: nat)
      requires Valid() && i in caches
      ensures caches[i].Valid() && caches[i].mapBits == ClassBits(i)
      ensures caches[i].lists.Pages() == OwnedBy(owners, ByCache(i))
    {
      assert CacheFields(i) && CacheOk(mem.heads, views[i], owners, i);
    }

    /** slab_alloc on one of the caches, seen from the heap. */
    method CallAlloc(i: nat, c: SlabCache) returns (r: AllocResult, ghost p: nat, ghost b: nat)
      requires Valid() && i in caches && caches[i] == c
      modifies c, mem, region, region.data, region.pager, region.pager.bitmap, region.pager.dir
      ensures r.At? <==> old(c.CanAlloc())
      ensures r.Null? <==> !old(c.CanAlloc()) && region.pages == 0
      ensures r.At? ==> p == Source(old(c.Ready())) && r.ptr == p + b * c.blockSize
      ensures r.At? ==> p in c.lists.Pages() && 0 < b < c.mapBits
      ensures r.At? ==> (p, b) !in old(c.Live()) && c.Live() == old(c.Live()) + {(p, b)}
      ensures !r.Fault? ==> region.Valid() && c.Valid() && c.mapBits == ClassBits(i)
      ensures !r.Fault? ==> OffPages(old(mem.heads), mem.heads, views[i].Pages() + c.lists.Pages())
      ensures !r.Fault? ==> c.lists.Pages() - views[i].Pages() !! owners.Keys
      ensures !r.Fault? ==> region.HeldAddrs() == owners.Keys - views[i].Pages() + c.lists.Pages()
      ensures 1 <= i <= 16 && c.id == i && c.objSize == 64 * i && c.mem == mem && c.region == region
      ensures forall j | j in caches && j != i :: CacheFields(j)
    {
      hide UsedBlocks, ListsOk, Ones, UsedOn, Addrs, RunAddrs, Coherent, HintExact, OwnFrames, Walk, FindRun, Stop, AfterTake, Slots,
        HeapOk, Reowned, Give, MapBits, OffPages, RunList, OwnedBy;
      CacheValid(i);
      forall j | j in caches && j != i
        ensures caches[j] != caches[i]
      {
        assert CacheFields(i) && CacheFields(j);
      }
      ghost var heads0 := mem.heads;
      caches[i].ReadySource();
      r, b := caches[i].Alloc();
      p := if r.At? then Source(old(caches[i].Ready())) else 0;
      if !r.Fault? {
        MoreOffPages(heads0, mem.heads, caches[i].lists.Pages(), views[i].Pages() + caches[i].lists.Pages());
      }
    }

    /** sheap_alloc for a small size: the block comes from the cache of its class. */
    method AllocSmall(i: nat, c: SlabCache) returns (r: AllocResult, ghost p: nat, ghost b: nat)
      requires Valid() && i in caches && caches[i] == c
      modifies `owners, `views, c, mem, region, region.data, region.pager, region.pager.bitmap, region.pager.dir
      ensures !r.Fault? ==> Valid()
      ensures r.At? <==> old(c.CanAlloc())
      ensures r.Null? <==> !old(c.CanAlloc()) && region.pages == 0
      ensures r.At? ==> p == Source(old(c.Ready())) && r.ptr == p + b * c.blockSize
      ensures r.At? ==> p in c.lists.Pages() && 0 < b < c.mapBits
      ensures i in old(Used()) && (r.At? ==> (p, b) !in old(Used())[i] && Used() == old(Used())[i := old(Used())[i] + {(p, b)}])
    {
      hide ListsOk, Ones, UsedOn, Addrs, RunAddrs, Coherent, HintExact, OwnFrames, Walk, FindRun, Stop, AfterTake, Slots,
        HeapOk, Reowned, Give, MapBits, OffPages, RunList, OwnedBy;
      assert forall j | j in caches :: CacheFields(j);
      ghost var heads0 := mem.heads;
      r, p, b := CallAlloc(i, c);
      if !r.Fault? {
        Reown(i, heads0);
      }
    }

    /** slab_free on one of the caches, seen from the heap. */
    method CallFree(i: nat, ptr: nat)
      requires Valid() && i in caches && caches[i].blockSize > 0
      requires (SlabCache.PageOf(ptr), caches[i].BlockOf(ptr)) in caches[i].Live()
      modifies caches[i], mem, region, region.data, region.pager, region.pager.bitmap, region.pager.dir
      ensures caches[i].Live() == old(caches[i].Live()) - {(SlabCache.PageOf(ptr), caches[i].BlockOf(ptr))}
      ensures region.Valid() && caches[i].Valid() && caches[i].mapBits == ClassBits(i)
      ensures OffPages(old(mem.heads), mem.heads, views[i].Pages() + caches[i].lists.Pages())
      ensures caches[i].lists.Pages() <= views[i].Pages()
      ensures region.HeldAddrs() == owners.Keys - views[i].Pages() + caches[i].lists.Pages()
      ensures 1 <= i <= 16 && caches[i].id == i && caches[i].objSize == 64 * i && caches[i].mem == mem && caches[i].region == region
      ensures forall j | j in caches && j != i :: CacheFields(j)
    {
      hide ListsOk, Ones, UsedOn, Addrs, RunAddrs, Coherent, HintExact, OwnFrames, Walk, Slots, HeapOk, Reowned, Give, MapBits,
        OffPages, OwnedBy, AfterRelease, Trimmed;
      CacheValid(i);
      forall j | j in caches && j != i
        ensures caches[j] != caches[i]
      {
        assert CacheFields(i) && CacheFields(j);
      }
      ghost var heads0, pages0 := mem.heads, views[i].Pages();
      LiveIsSlab(heads0, views[i], i, ClassBits(i), SlabCache.PageOf(ptr), caches[i].BlockOf(ptr));
      ghost var status, k, empties := caches[i].Free(ptr);
      MoreOffPages(heads0, mem.heads, pages0, pages0 + caches[i].lists.Pages());
    }

    /** slab_free_from_ptr on a pointer into a block in use: the slab's header names the cache. */
    method FreeSmall(ptr: nat, ghost i: nat)
      requires Valid() && i in caches && caches[i].blockSize > 0
      requires i in Used() && (SlabCache.PageOf(ptr), caches[i].BlockOf(ptr)) in Used()[i]
      modifies `owners, `views, caches.Values, mem, region, region.data, region.pager, region.pager.bitmap, region.pager.dir
      ensures Valid()
      ensures Used() == old(Used())[i := old(Used())[i] - {(SlabCache.PageOf(ptr), caches[i].BlockOf(ptr))}]
    {
      hide ListsOk, Ones, UsedOn, Addrs, RunAddrs, Coherent, HintExact, OwnFrames, Walk, Slots, HeapOk, Reowned, Give, MapBits,
        OffPages, OwnedBy;
      CacheValid(i);
      LiveIsSlab(mem.heads, caches[i].lists, i, caches[i].mapBits, SlabCache.PageOf(ptr), caches[i].BlockOf(ptr));
      FreeIn(mem.heads[SlabCache.PageOf(ptr)].slab.cache, ptr);
    }

    method FreeIn(i: nat, ptr: nat)
      requires Valid() && i in caches && caches[i].blockSize > 0
      requires i in Used() && (SlabCache.PageOf(ptr), caches[i].BlockOf(ptr)) in Used()[i]
      modifies `owners, `views, caches[i], mem, region, region.data, region.pager, region.pager.bitmap, region.pager.dir
      ensures Valid()
      ensures Used() == old(Used())[i := old(Used())[i] - {(SlabCache.PageOf(ptr), caches[i].BlockOf(ptr))}]
    {
      hide ListsOk, Ones, UsedOn, Addrs, RunAddrs, Coherent, HintExact, OwnFrames, Walk, Slots, HeapOk, Reowned, Give, MapBits,
        OffPages, OwnedBy, Region.Valid, Region.Held, Region.HeldAddrs, Lists.Pages;
      assert forall j | j in caches :: CacheFields(j);
      ghost var heads0 := mem.heads;
      CallFree(i, ptr);
      assert caches[i].Ordered() && |caches[i].lists.free| <= caches[i].maxFree;
      hide SlabCache.Valid;
      Reown(i, heads0);
    }

    /** sheap_alloc for a large size. A run that the region refuses is written to all the same, through NULL. */
    method AllocBig(size: nat) returns (r: AllocResult)
      requires Valid() && MAX_SIZE <= size < WORD
      modifies `owners, `runs, mem, region, region.data, region.pager, region.pager.bitmap, region.pager.dir
      ensures r.At? || r.Fault?
      ensures r.At? <==> old(region.Supply()).Gives(LargePages(size))
      ensures r.At? ==> Valid() && r.ptr >= 4 && r.ptr - 4 !in old(runs)
      ensures r.At? ==> runs == old(runs)[r.ptr - 4 := Big(Regions.Pages(LargePages(size)), size)]
      ensures r.At? ==> r.ptr - 4 in mem.heads && mem.heads[r.ptr - 4] == SizeWord((size + 4) % WORD)
      ensures r.At? ==> Used() == old(Used())
    {
      hide UsedBlocks, ListsOk, Ones, UsedOn, Addrs, RunAddrs, Coherent, HintExact, OwnFrames, Walk, FindRun, Stop, Slots, HeapOk, OwnedBy, Give;
      ghost var heads0 := mem.heads;
      var npages := LargePages(size);
      r := region.AllocPage(npages);
      if r.Null? {
        return Fault;
      }
      if r.At? {
        var s := r.ptr;
        mem.heads := mem.heads[s := SizeWord(SizeOf(size))];
        AddRun(s, Big(Regions.Pages(npages), size), heads0);
        r := At(s + 4);
      }
    }

    /** kmalloca: whole pages, without a length word. */
    method AllocPages(size: nat) returns (r: AllocResult)
      requires Valid() && size < WORD
      modifies `owners, `runs, mem, region, region.data, region.pager, region.pager.bitmap, region.pager.dir
      ensures !r.Fault? ==> Valid()
      ensures r.Null? <==> region.pages == 0
      ensures r.At? <==> old(region.Supply()).Gives((size + PAGE_SIZE - 1) / PAGE_SIZE)
      ensures r.At? ==> r.ptr !in old(runs) && runs == old(runs)[r.ptr := Raw(Regions.Pages((size + PAGE_SIZE - 1) / PAGE_SIZE))]
      ensures r.At? ==> size <= runs[r.ptr].n * PAGE_SIZE
      ensures !r.Fault? ==> Used() == old(Used())
    {
      hide UsedBlocks, ListsOk, Ones, UsedOn, Addrs, RunAddrs, Coherent, HintExact, OwnFrames, Walk, FindRun, Stop, Slots, HeapOk, OwnedBy,
        Give, OffPages;
      ghost var heads0 := mem.heads;
      var npages := size / PAGE_SIZE + if size % PAGE_SIZE != 0 then 1 else 0;
      assert npages == (size + PAGE_SIZE - 1) / PAGE_SIZE;
      r := region.AllocPage(npages);
      if r.At? {
        MoreOffPages(heads0, heads0, {}, {r.ptr});
        AddRun(r.ptr, Raw(Regions.Pages(npages)), heads0);
      }
    }

    /** Records a run that the region has just handed out. */
    ghost method AddRun(s: nat, run: Run, heads0: Heads)
      requires Fields() && HeapOk(heads0, views, runs, owners)
      requires run.n >= 1 && RunAddrs(s, run.n) !! owners.Keys && OffPages(heads0, mem.heads, {s})
      requires run.Big? ==> MAX_SIZE <= run.size < WORD && run.n == Regions.Pages(LargePages(run.size))
      requires run.Big? ==> s in mem.heads && mem.heads[s] == SizeWord(SizeOf(run.size))
      modifies `owners, `runs
      ensures s !in old(runs) && runs == old(runs)[s := run]
      ensures owners.Keys == old(owners).Keys + RunAddrs(s, run.n)
      ensures Fields() && HeapOk(mem.heads, views, runs, owners)
      ensures Used() == UsedBlocks(heads0, views)
    {
      hide UsedBlocks, ListsOk, Ones, UsedOn, RunAddrs, Slots, HeapOk, OwnedBy, Give, OffPages;
      RunStep(heads0, mem.heads, views, runs, owners, s, run);
      owners, runs := Give(owners, RunAddrs(s, run.n), ByRun(s)), runs[s := run];
    }

    /** The loop of sheap_free over a large block: it frees the same first page every time. */
    method FreeFirst(pageptr: nat, npages: nat)
      requires region.Valid() && region.addr <= pageptr < region.addr + 8 * region.data.Length * PAGE_SIZE && pageptr % PAGE_SIZE == 0
      modifies mem, region, region.data, region.pager, region.pager.bitmap, region.pager.dir
      ensures region.Valid()
      ensures region.HeldAddrs() == old(region.HeldAddrs()) - if npages > 0 then {pageptr} else {}
      ensures mem.heads == old(mem.heads) - if npages > 0 then {pageptr} else {}
    {
      hide Ones, Addrs, RunAddrs, Coherent, HintExact, OwnFrames, Walk;
      var i := 0;
      while i < npages
        invariant i <= npages && region.Valid()
        invariant region.HeldAddrs() == old(region.HeldAddrs()) - if i > 0 then {pageptr} else {}
        invariant mem.heads == old(mem.heads) - if i > 0 then {pageptr} else {}
      {
        region.FreePage(pageptr);
        mem.heads := mem.heads - {pageptr};
        i := i + 1;
      }
    }

    lemma RunAligned(s: nat)
      requires Valid() && s in runs
      ensures region.addr <= s < region.addr + 8 * region.data.Length * PAGE_SIZE && s % PAGE_SIZE == 0
      ensures s in OwnedBy(owners, ByRun(s))
    {
      hide Addrs;
      assert RunOk(mem.heads, runs[s], owners, s);
      RunStartsHere(s, runs[s].n);
      PageOfAddr(region.Held(), region.addr, 8 * region.data.Length, s);
    }

    /** sheap_free of a large block: only its first page goes back, the others are lost. */
    method FreeBig(ptr: nat)
      requires Valid() && ptr >= 4 && ptr - 4 in runs && runs[ptr - 4].Big?
      modifies `owners, `runs, mem, region, region.data, region.pager, region.pager.bitmap, region.pager.dir
      ensures Valid() && runs == old(runs) - {ptr - 4}
      ensures var s := ptr - 4; var back := if SizeOf(old(runs)[s].size) > 0 then {s} else {};
        && region.HeldAddrs() == old(region.HeldAddrs()) - back
        && OwnedBy(owners, Lost) == OwnedBy(old(owners), Lost) + (RunAddrs(s, old(runs)[s].n) - back)
      ensures Used() == old(Used())
    {
      hide UsedBlocks, ListsOk, Ones, UsedOn, Addrs, RunAddrs, Coherent, HintExact, OwnFrames, Walk, Slots, OwnedBy, Give, Ended, OffPages;
      ghost var s, heads0 := ptr - 4, mem.heads;
      RunAligned(s);
      assert RunOk(mem.heads, runs[s], owners, s);
      var pageptr := ptr - ptr % PAGE_SIZE;
      var size := mem.heads[pageptr].size;
      var npages := size / PAGE_SIZE + if size % PAGE_SIZE > 0 then 1 else 0;
      FreeFirst(pageptr, npages);
      EndRun(s, if npages > 0 then {s} else {}, heads0);
    }

    /** kfreea: one page goes back, whatever the length of the run. */
    method FreePages(ptr: nat)
      requires Valid() && ptr in runs && runs[ptr].Raw?
      modifies `owners, `runs, mem, region, region.data, region.pager, region.pager.bitmap, region.pager.dir
      ensures Valid() && runs == old(runs) - {ptr}
      ensures region.HeldAddrs() == old(region.HeldAddrs()) - {ptr}
      ensures OwnedBy(owners, Lost) == OwnedBy(old(owners), Lost) + (RunAddrs(ptr, old(runs)[ptr].n) - {ptr})
      ensures Used() == old(Used())
    {
      hide UsedBlocks, ListsOk, Ones, UsedOn, Addrs, RunAddrs, Coherent, HintExact, OwnFrames, Walk, Slots, OwnedBy, Give, Ended, OffPages;
      ghost var heads0 := mem.heads;
      RunAligned(ptr);
      assert RunOk(mem.heads, runs[ptr], owners, ptr);
      FreeFirst(ptr, 1);
      EndRun(ptr, {ptr}, heads0);
    }

    /** Records that a run has ended. */
    ghost method EndRun(s: nat, back: set<nat>, heads0: Heads)
      requires Fields() && HeapOk(heads0, views, runs, owners) && s in runs
      requires mem.heads == heads0 - back && back <= OwnedBy(owners, ByRun(s))
      modifies `owners, `runs
      ensures runs == old(runs) - {s} && owners.Keys == old(owners).Keys - back
      ensures OwnedBy(owners, Lost) == OwnedBy(old(owners), Lost) + (OwnedBy(old(owners), ByRun(s)) - back)
      ensures Fields() && HeapOk(mem.heads, views, runs, owners)
      ensures Used() == UsedBlocks(heads0, views)
    {
      hide UsedBlocks, ListsOk, Ones, UsedOn, RunAddrs, Slots, HeapOk, OwnedBy, Ended;
      EndStep(heads0, mem.heads, views, runs, owners, s, back);
      EndedFacts(owners, s, back);
      owners, runs := Ended(owners, s, back), runs - {s};
    }

    /** Every class that sheap_alloc can pick has its cache. */
    ghost predicate Complete()
      reads this
    {
      forall i | 1 <= i <= 16 && ValidDenom(i) :: i in caches
    }

    ghost predicate IsLive(block: Block)
      reads this, mem
    {
      (block.Small? ==> block.i in caches) && LiveIn(Used(), runs, block)
    }

    /** The pointer that the caller holds for a block. */
    ghost function Pointer(block: Block): nat
      requires IsLive(block)
      reads this, caches.Values, mem
    {
      match block
      case Small(i, p, b) => p + b * caches[i].blockSize
      case Large(s) => s + 4
    }

    /** How many bytes the caller may use there. */
    ghost function Length(block: Block): nat
      requires IsLive(block)
      reads this, caches.Values, mem
    {
      match block
      case Small(i, p, b) => caches[i].blockSize
      case Large(s) => runs[s].size
    }

    /** What an allocation needs: a slab with room in the class, or a run for the class or for the block itself. */
    ghost predicate CanAlloc(size: nat)
      requires Valid() && Complete()
      reads this, caches.Values, mem, region, region.data, region.pager, region.pager.bitmap, region.pager.dir
    {
      assert size < MAX_SIZE ==> CacheFields(ClassOf(Wanted(size)));
      if size < MAX_SIZE then caches[ClassOf(Wanted(size))].CanAlloc() else region.Supply().Gives(LargePages(size))
    }

    /** Spelled out for the class of the size: the least valid one that is big enough. */
    lemma CanAllocWhen(size: nat, i: nat)
      requires Valid() && Complete()
      requires size < MAX_SIZE ==> 1 <= i <= 16 && ValidDenom(i) && size <= 64 * i && forall j | 1 <= j < i && ValidDenom(j) :: 64 * j < size
      ensures size < MAX_SIZE ==>
        (CanAlloc(size) <==> caches[i].lists.partial != [] || caches[i].lists.free != [] || region.Supply().Gives(BLOCK_SIZE))
      ensures size >= MAX_SIZE ==> (CanAlloc(size) <==> region.Supply().Gives(LargePages(size)))
    {
      hide HeapOk, ListsOk;
      if size < MAX_SIZE {
        assert CacheFields(i);
        assert ClassOf(Wanted(size)) == i by {
          var c := ClassOf(Wanted(size));
          assert c < i ==> 64 * c < size;
          assert i < c ==> 64 * i < Wanted(size);
        }
        CacheValid(i);
        caches[i].HeadNull();
      }
    }

    /** sheap_alloc */
    method Alloc(size: nat) returns (r: AllocResult, ghost block: Block)
      requires Valid() && Complete() && size < WORD
      modifies `owners, `views, `runs, caches.Values, mem, region, region.data, region.pager, region.pager.bitmap, region.pager.dir
      ensures !r.Fault? ==> Valid() && Complete()
      ensures r.At? <==> old(CanAlloc(size))
      ensures r.Null? <==> !old(CanAlloc(size)) && region.pages == 0 && size < MAX_SIZE
      ensures r.At? ==> !old(IsLive(block)) && IsLive(block) && r.ptr == Pointer(block) && size <= Length(block)
      ensures r.At? ==> forall other: Block :: IsLive(other) <==> old(IsLive(other)) || other == block
      ensures r.At? && size < MAX_SIZE ==> block.Small? && forall i | 1 <= i < block.i && ValidDenom(i) :: 64 * i < size
      ensures r.At? && size >= MAX_SIZE ==> block.Large? && runs[block.s].size == size
    {
      hide UsedBlocks, ListsOk, Ones, UsedOn, Addrs, RunAddrs, Coherent, HintExact, OwnFrames, Walk, FindRun, Stop, Slots, HeapOk, OwnedBy,
        Give, OffPages, RunList, AfterTake, MapBits;
      var wanted := Wanted(size);
      if wanted < MAX_SIZE {
        var bits := FindClass(wanted);
        r, block := AllocSmallBlock(bits);
      } else {
        r, block := AllocBigBlock(wanted);
      }
    }

    method AllocSmallBlock(i: nat) returns (r: AllocResult, ghost block: Block)
      requires Valid() && i in caches
      modifies `owners, `views, caches[i], mem, region, region.data, region.pager, region.pager.bitmap, region.pager.dir
      ensures !r.Fault? ==> Valid()
      ensures r.At? <==> old(caches[i].CanAlloc())
      ensures r.Null? <==> !old(caches[i].CanAlloc()) && region.pages == 0
      ensures r.At? ==> block.Small? && block.i == i && !old(IsLive(block)) && IsLive(block) && r.ptr == Pointer(block)
      ensures r.At? ==> 64 * i <= Length(block)
      ensures r.At? ==> forall other: Block :: IsLive(other) <==> old(IsLive(other)) || other == block
    {
      hide UsedBlocks, ListsOk, Ones, UsedOn, Addrs, RunAddrs, Coherent, HintExact, OwnFrames, Walk, FindRun, Stop, Slots, HeapOk, OwnedBy,
        Give, OffPages, RunList, AfterTake;
      BlocksFit(PAGE_SIZE, 64, 64 * i);
      ghost var p: nat, b: nat;
      ghost var used := Used();
      r, p, b := AllocSmall(i, caches[i]);
      block := Small(i, p, b);
      if r.At? {
        OneSmallMore(used, runs, i, p, b);
      }
    }

    method AllocBigBlock(size: nat) returns (r: AllocResult, ghost block: Block)
      requires Valid() && MAX_SIZE <= size < WORD
      modifies `owners, `runs, mem, region, region.data, region.pager, region.pager.bitmap, region.pager.dir
      ensures !r.Null? && (r.At? ==> Valid())
      ensures r.At? <==> old(region.Supply()).Gives(LargePages(size))
      ensures r.At? ==> block.Large? && !old(IsLive(block)) && IsLive(block) && r.ptr == Pointer(block)
      ensures r.At? ==> runs[block.s].size == size
      ensures r.At? ==> forall other: Block :: IsLive(other) <==> old(IsLive(other)) || other == block
    {
      hide UsedBlocks, ListsOk, Ones, UsedOn, Addrs, RunAddrs, Coherent, HintExact, OwnFrames, Walk, FindRun, Stop, Slots, HeapOk, OwnedBy,
        Give, OffPages;
      r := AllocBig(size);
      block := Large(if r.At? then r.ptr - 4 else 0);
    }

    /** Where a small block lies: past its page's header, inside its page, and found again from its pointer. */
    lemma SmallPlace(block: Block)
      requires Valid() && IsLive(block) && block.Small?
      ensures var c, ptr := caches[block.i], Pointer(block);
        && 0 < block.b < c.mapBits && 64 <= c.blockSize
        && block.p % PAGE_SIZE == 0 && block.p in OwnedBy(owners, ByCache(block.i))
        && 64 <= ptr - block.p && ptr + c.blockSize <= block.p + PAGE_SIZE
        && SlabCache.PageOf(ptr) == block.p && c.BlockOf(ptr) == block.b
    {
      hide ListsOk, Ones, UsedOn, Addrs, RunAddrs, Coherent, HintExact, OwnFrames, Walk, HeapOk, MapBits, Lists.Pages, OwnedBy;
      var Small(i, p, b) := block;
      CacheValid(i);
      var c := caches[i];
      LiveBit(mem.heads, c.lists, i, c.mapBits, p, b);
      PageOfAddr(region.Held(), region.addr, 8 * region.data.Length, p);
      PlaceInPage(c.mapBits, p, b);
    }

    /** sheap_free: the offset of a pointer in its page tells large blocks from small ones. */
    method Free(ptr: nat, ghost block: Block)
      requires Valid() && (ptr != 0 ==> IsLive(block) && ptr == Pointer(block))
      modifies `owners, `views, `runs, caches.Values, mem, region, region.data, region.pager, region.pager.bitmap, region.pager.dir
      ensures Valid()
      ensures forall other: Block :: IsLive(other) <==> old(IsLive(other)) && !(ptr != 0 && other == block)
    {
      hide UsedBlocks, ListsOk, Ones, UsedOn, Addrs, RunAddrs, Coherent, HintExact, OwnFrames, Walk, Slots, HeapOk, OwnedBy, Give, OffPages;
      if ptr != 0 {
        if block.Small? {
          SmallPlace(block);
          SmallOffset(ptr, block.p);
        } else {
          RunAligned(block.s);
        }
        if ptr % PAGE_SIZE != 4 {
          FreeSmallBlock(ptr, block);
        } else {
          FreeBigBlock(ptr, block);
        }
      }
    }

    method FreeSmallBlock(ptr: nat, ghost block: Block)
      requires Valid() && IsLive(block) && ptr == Pointer(block) && block.Small?
      modifies `owners, `views, caches.Values, mem, region, region.data, region.pager, region.pager.bitmap, region.pager.dir
      ensures Valid()
      ensures forall other: Block :: IsLive(other) <==> old(IsLive(other)) && other != block
    {
      hide UsedBlocks, ListsOk, Ones, UsedOn, Addrs, RunAddrs, Coherent, HintExact, OwnFrames, Walk, Slots, HeapOk, OwnedBy, Give, OffPages;
      SmallPlace(block);
      ghost var used := Used();
      FreeSmall(ptr, block.i);
      OneSmallLess(used, runs, block.i, block.p, block.b);
    }

    method FreeBigBlock(ptr: nat, ghost block: Block)
      requires Valid() && IsLive(block) && ptr == Pointer(block) && block.Large?
      modifies `owners, `runs, mem, region, region.data, region.pager, region.pager.bitmap, region.pager.dir
      ensures Valid()
      ensures forall other: Block :: IsLive(other) <==> old(IsLive(other)) && other != block
    {
      hide UsedBlocks, ListsOk, Ones, UsedOn, Addrs, RunAddrs, Coherent, HintExact, OwnFrames, Walk, Slots, HeapOk, OwnedBy, Give, OffPages;
      FreeBig(ptr);
    }

    /** A block whose bytes stay inside the pages taken for it. */
    ghost predicate Fits(block: Block)
      requires IsLive(block)
      reads this, caches.Values, mem
    {
      block.Large? ==> runs[block.s].size % PAGE_SIZE != 0 && runs[block.s].size < WORD - 4
    }

    /** The pages a block lies in: one page of its cache, or its run. */
    ghost function Span(block: Block): (int, int)
      requires IsLive(block)
      reads this, caches.Values, mem
    {
      match block
      case Small(i, p, b) => (p, p + PAGE_SIZE)
      case Large(s) => (s, s + runs[s].n * PAGE_SIZE)
    }

    ghost function OwnerOf(block: Block): Owner {
      match block
      case Small(i, p, b) => ByCache(i)
      case Large(s) => ByRun(s)
    }

    /** A block that fits lies between its pages' bounds, and every page there is its owner's. */
    lemma BlockPlace(block: Block)
      requires Valid() && IsLive(block)
      ensures var (lo, hi) := Span(block);
        && lo % PAGE_SIZE == 0 && lo <= Pointer(block) && lo < hi && (hi - lo) % PAGE_SIZE == 0
        && (Fits(block) ==> Pointer(block) + Length(block) <= hi)
        && forall a: nat | lo <= a < hi && a % PAGE_SIZE == 0 :: a in OwnedBy(owners, OwnerOf(block))
    {
      hide UsedBlocks, ListsOk, Ones, UsedOn, Addrs, Coherent, HintExact, OwnFrames, Walk, HeapOk, OwnedBy, Slots, Fields;
      match block
      case Small(i, p, b) =>
        SmallPlace(block);
        forall a: nat | p <= a < p + PAGE_SIZE && a % PAGE_SIZE == 0
          ensures a == p
        {
          if a != p {
            PagesApart(a, p);
          }
        }
      case Large(s) => LargePlace(s);
    }

    lemma LargePlace(s: nat)
      requires Valid() && s in runs && runs[s].Big?
      ensures s % PAGE_SIZE == 0 && runs[s].n >= 1
      ensures runs[s].size % PAGE_SIZE != 0 && runs[s].size < WORD - 4 ==> 4 + runs[s].size <= runs[s].n * PAGE_SIZE
      ensures forall a: nat | s <= a < s + runs[s].n * PAGE_SIZE && a % PAGE_SIZE == 0 :: a in OwnedBy(owners, ByRun(s))
    {
      hide UsedBlocks, ListsOk, Ones, UsedOn, Addrs, RunAddrs, Coherent, HintExact, OwnFrames, Walk, OwnedBy, Slots;
      RunAligned(s);
      assert RunOk(mem.heads, runs[s], owners, s);
      LargeFits(runs[s].size);
      forall a: nat | s <= a < s + runs[s].n * PAGE_SIZE && a % PAGE_SIZE == 0
        ensures a in OwnedBy(owners, ByRun(s))
      {
        InRun(s, runs[s].n, (a - s) / PAGE_SIZE);
      }
    }

    /** No two blocks in use share a byte, whatever was allocated and freed before. */
    lemma NoOverlap(x: Block, y: Block)
      requires Valid() && IsLive(x) && IsLive(y) && x != y && Fits(x) && Fits(y)
      ensures Pointer(x) + Length(x) <= Pointer(y) || Pointer(y) + Length(y) <= Pointer(x)
    {
      hide UsedBlocks, ListsOk, Ones, UsedOn, Addrs, Coherent, HintExact, OwnFrames, Walk, HeapOk, OwnedBy, Slots, Fields;
      if x.Small? && y.Small? && x.i == y.i && x.p == y.p {
        BlocksApart(x.b, y.b, caches[x.i].blockSize);
      } else {
        BlockPlace(x);
        BlockPlace(y);
        var (lo, hi) := Span(x);
        var (lo', hi') := Span(y);
        if OwnerOf(x) != OwnerOf(y) {
          OwnersDisjoint(owners, OwnerOf(x), OwnerOf(y));
          SpansApart(lo, hi, lo', hi', OwnedBy(owners, OwnerOf(x)), OwnedBy(owners, OwnerOf(y)));
        } else {
          PagesApart(lo, lo');
        }
        assert hi <= lo' || hi' <= lo;
      }
    }

    /** No small block is in use. */
    ghost predicate NoneLive()
      reads this, mem
    {
      forall i | i in Used() :: Used()[i] == {}
    }

    lemma NothingUsed()
      requires Valid() && caches == map[]
      ensures NoneLive()
    {
    }

    /** sheap_init_at_addr: a cache for every size class that divides the page evenly. */
    method Init() returns (ok: bool)
      requires Valid() && caches == map[]
      modifies `caches, `views, `owners, mem, region, region.data, region.pager, region.pager.bitmap, region.pager.dir
      ensures ok <==> region.pages == 0 || old(region.Supply()).GivesTimes(BLOCK_SIZE, 8)
      ensures ok ==> Valid() && Complete() && NoneLive() && runs == old(runs)
      ensures ok && region.pages > 0 ==> forall size: nat | size < MAX_SIZE :: CanAlloc(size)
    {
      hide UsedBlocks, ListsOk, Ones, Addrs, Coherent, HintExact, OwnFrames, Walk, Slots, HeapOk, MapBits, region.Valid, Fields,
        ValidDenom, Stock.Gives, Stock.After, Stock.GivesTimes, ClassesFrom, Valid;
      NothingUsed();
      EightClasses();
      var i := 1;
      while i <= 16
        invariant 1 <= i <= 17 && Valid() && NoneLive()
        invariant forall j | j in caches :: j < i
        invariant forall j | 1 <= j < i && ValidDenom(j) :: j in caches
        invariant region.pages > 0 ==>
          (region.Supply().GivesTimes(BLOCK_SIZE, ClassesFrom(i)) <==> old(region.Supply()).GivesTimes(BLOCK_SIZE, 8))
        invariant region.pages > 0 ==> forall j | j in caches :: caches[j].free != 0
      {
        OneClassMore(region.Supply(), i);
        if ValidDenom(i) {
          ok := AddCache(i);
          if !ok {
            return;
          }
        }
        i := i + 1;
      }
      NoClassLeft(region.Supply());
      ok := true;
      if region.pages > 0 {
        AllClassesGive();
      }
    }

    lemma AllClassesGive()
      requires Valid() && Complete() && forall j | j in caches :: caches[j].free != 0
      ensures forall size: nat | size < MAX_SIZE :: CanAlloc(size)
    {
    }

    method AddCache(i: nat) returns (ok: bool)
      requires Valid() && 1 <= i <= 16 && i !in caches
      modifies `caches, `views, `owners, mem, region, region.data, region.pager, region.pager.bitmap, region.pager.dir
      ensures ok <==> region.pages == 0 || old(region.Supply()).Gives(BLOCK_SIZE)
      ensures ok && region.pages > 0 ==> region.Supply() == old(region.Supply()).After(BLOCK_SIZE)
      ensures ok ==> i in caches && caches == old(caches)[i := caches[i]] && (region.pages > 0 ==> caches[i].free != 0)
      ensures ok ==> Valid() && Used() == old(Used())[i := {}]
    {
      hide UsedBlocks, ListsOk, Ones, UsedOn, Addrs, RunAddrs, Coherent, HintExact, OwnFrames, Walk, Slots, HeapOk, Give, MapBits, OffPages,
        OwnedBy, Reowned, RunList, region.Valid, Complete, Lists.Pages, CacheFields, Region.HeldAddrs, Stock.Gives, Stock.After, Region.Supply;
      ghost var heads0 := mem.heads;
      var cache: SlabCache;
      cache, ok := NewCache(i);
      if ok {
        EmptyCacheStep(heads0, views, runs, owners, i);
        EmptyCacheUsed(heads0, views, i);
        MoreOffPages(heads0, mem.heads, cache.lists.Pages(), Lists([], [], []).Pages() + cache.lists.Pages());
        InstallCache(i, cache, heads0);
      }
    }

    /** Enters a new cache, whose pages the region has just handed out. */
    method InstallCache(i: nat, cache: SlabCache, ghost heads0: Heads)
      requires views.Keys == caches.Keys && i !in caches && 1 <= i <= 16
      requires HeapOk(heads0, views[i := Lists([], [], [])], runs, owners)
      requires cache.mem == mem && cache.region == region && cache.id == i && cache.objSize == 64 * i
      requires cache.Ordered() && |cache.lists.free| <= cache.maxFree && cache.mapBits == ClassBits(i)
      requires forall j | j in caches :: CacheFields(j)
      requires OffPages(heads0, mem.heads, Lists([], [], []).Pages() + cache.lists.Pages())
      requires cache.lists.Pages() !! owners.Keys && region.HeldAddrs() == owners.Keys + cache.lists.Pages()
      modifies `caches, `views, `owners
      ensures owners.Keys == region.HeldAddrs() && Fields() && HeapOk(mem.heads, views, runs, owners)
      ensures caches == old(caches)[i := cache]
      ensures Used() == UsedBlocks(heads0, old(views)[i := Lists([], [], [])])[i := Slots(mem.heads, cache.lists.Pages())]
    {
      hide UsedBlocks, ListsOk, Ones, UsedOn, RunAddrs, Slots, HeapOk, Give, MapBits, OffPages, OwnedBy, Reowned;
      caches := caches[i := cache];
      views := views[i := Lists([], [], [])];
      Reown(i, heads0);
    }

    method NewCache(i: nat) returns (cache: SlabCache, ok: bool)
      requires Valid() && 1 <= i <= 16
      modifies mem, region, region.data, region.pager, region.pager.bitmap, region.pager.dir
      ensures fresh(cache) && cache.id == i && cache.mem == mem && cache.region == region && cache.objSize == 64 * i
      ensures ok <==> region.pages == 0 || old(region.Supply()).Gives(BLOCK_SIZE)
      ensures ok && region.pages > 0 ==> region.Supply() == old(region.Supply()).After(BLOCK_SIZE) && cache.free != 0
      ensures ok ==> region.Valid() && cache.Ordered() && |cache.lists.free| <= cache.maxFree && cache.mapBits == ClassBits(i)
      ensures ok ==> cache.Live() == {} && cache.lists.Pages() !! owners.Keys
      ensures ok ==> region.HeldAddrs() == owners.Keys + cache.lists.Pages()
      ensures ok ==> OffPages(old(mem.heads), mem.heads, cache.lists.Pages())
      ensures forall j | j in caches :: CacheFields(j)
    {
      hide UsedBlocks, ListsOk, Ones, UsedOn, Addrs, RunAddrs, Coherent, HintExact, OwnFrames, Walk, Slots, HeapOk, MapBits, OffPages, RunList,
        Stock.Gives, Stock.After, Region.Supply;
      var r: AllocResult;
      cache, r := SlabCache.Create(i, mem, region, 64 * i);
      ok := !r.Fault?;
      if ok {
        cache.HeadNull();
        RunListElements(if r.At? then r.ptr else 0, BLOCK_SIZE);
      }
    }

    /** The pages the region has out are those the caches count, those of the live runs, and the lost ones. */
    lemma PageConservation(last: nat)
      requires Valid() && last >= 16
      ensures |region.HeldAddrs()| == SumCounts(views, last) + |PagesByRuns(owners)| + |OwnedBy(owners, Lost)|
      ensures forall i | i in caches :: caches[i].pagesAlloced == views[i].Count()
      ensures forall s | s in runs :: OwnedBy(owners, ByRun(s)) == RunAddrs(s, runs[s].n)
    {
      hide UsedBlocks, ListsOk, Ones, Addrs, RunAddrs, Coherent, HintExact, OwnFrames, Walk;
      forall i | i in caches
        ensures i <= 16 && caches[i].pagesAlloced == views[i].Count()
      {
        assert CacheFields(i);
      }
      PagesAddUp(mem.heads, views, runs, owners, last);
      forall s | s in runs
        ensures OwnedBy(owners, ByRun(s)) == RunAddrs(s, runs[s].n)
      {
        assert RunOk(mem.heads, runs[s], owners, s);
      }
    }

    /** Records what cache i now holds, after it wrote to its own pages only. */
    ghost method Reown(i: nat, heads0: Heads)
      requires i in caches && views.Keys == caches.Keys && HeapOk(heads0, views, runs, owners)
      requires caches[i].mem == mem && caches[i].region == region && caches[i].id == i && caches[i].objSize == 64 * i && 1 <= i <= 16
      requires caches[i].Ordered() && |caches[i].lists.free| <= caches[i].maxFree && caches[i].mapBits == ClassBits(i)
      requires forall j | j in caches && j != i :: CacheFields(j)
      requires OffPages(heads0, mem.heads, views[i].Pages() + caches[i].lists.Pages())
      requires caches[i].lists.Pages() - views[i].Pages() !! owners.Keys
      requires region.HeldAddrs() == owners.Keys - views[i].Pages() + caches[i].lists.Pages()
      modifies `owners, `views
      ensures owners.Keys == region.HeldAddrs() && Fields() && HeapOk(mem.heads, views, runs, owners)
      ensures Used() == UsedBlocks(heads0, old(views))[i := Slots(mem.heads, caches[i].lists.Pages())]
    {
      hide UsedBlocks, ListsOk, Ones, UsedOn, Addrs, RunAddrs, Coherent, HintExact, OwnFrames, Walk, Slots, HeapOk, Reowned, Give,
        MapBits, OffPages, OwnedBy, Region.Valid, Region.Held, Region.HeldAddrs, Lists.Pages, SlabCache.Geometry;
      CacheStep(heads0, mem.heads, views, runs, owners, i, caches[i].lists);
      CacheStepUsed(heads0, mem.heads, views, runs, owners, i, caches[i].lists);
      owners := Reowned(owners, i, caches[i].lists.Pages());
      views := views[i := caches[i].lists];
      forall j | j in caches
        ensures CacheFields(j) && (j != i ==> caches[j].lists == old(views)[j])
      {
        assert j != i ==> old(CacheFields(j));
      }
    }
  }

  /** init_kernel_heap over freshly initialised paging: the region starts above the identity-mapped 3 MiB. */
  method InitKernelHeap(pager: Pager, start: nat, size: nat) returns (heap: Sheap, ok: bool)
    requires pager.Valid() && pager.Ptes() == Identity(0x300)
    requires start % PAGE_SIZE == 0 && 0x300 * PAGE_SIZE <= start && start + size < MAX_PAGES * PAGE_SIZE
    modifies pager, pager.bitmap, pager.dir
    ensures fresh(heap) && fresh(heap.region) && heap.region.pager == pager
    ensures ok ==> heap.Valid() && heap.Complete() && heap.NoneLive() && heap.runs == map[]
    ensures ok <==> size < PAGE_SIZE || (size / PAGE_SIZE >= 32 && old(pager.FreeFrames()) >= 32)
    ensures ok && size >= PAGE_SIZE ==> forall n: nat | n < MAX_SIZE :: heap.CanAlloc(n)
    ensures heap.region.addr == start && heap.region.pages == size / PAGE_SIZE
  {
    hide Pager.Valid, Region.Valid, Sheap.Valid, Stock.GivesTimes, Sheap.CanAlloc;
    var region := InitRegion(pager, start, size);
    var mem := new Memory();
    heap := new Sheap(mem, region);
    FoursGiven(0, size / PAGE_SIZE / 8, 0, pager.FreeFrames(), 8);
    ok := heap.Init();
  }

  /** arch_init up to its heap of 128 pages: it starts exactly from 3200 KiB of memory on. */
  method BootHeap(maxMem: nat) returns (heap: Sheap, ok: bool)
    requires 0xc00 <= maxMem <= 4 * MAX_PAGES
    ensures ok <==> maxMem >= 3200
    ensures ok ==> heap.Valid() && heap.Complete() && heap.NoneLive() && forall n: nat | n < MAX_SIZE :: heap.CanAlloc(n)
    ensures heap.region.addr == 0xd000_0000 && heap.region.pages == 128
  {
    hide Walk, OwnFrames, HintExact, Region.Valid, Sheap.Valid, Sheap.CanAlloc;
    var pager := new Pager(maxMem);
    heap, ok := InitKernelHeap(pager, 0xd000_0000, PAGE_SIZE * 128);
  }

  /** The region of init_kernel_heap: its bitmap is taken to be clear. */
  method InitRegion(pager: Pager, start: nat, size: nat) returns (region: Region)
    requires pager.Valid() && pager.Ptes() == Identity(0x300)
    requires start % PAGE_SIZE == 0 && 0x300 * PAGE_SIZE <= start && start + size < MAX_PAGES * PAGE_SIZE
    ensures fresh(region) && fresh(region.data) && region.pager == pager && region.addr == start && region.pages == size / PAGE_SIZE
    ensures region.Valid() && region.HeldAddrs() == {}
    ensures region.Supply() == Stock(Interval(0, 4 * 0), size / PAGE_SIZE / 8, 0, pager.FreeFrames())
  {
    hide Walk, OwnFrames, HintExact;
    var bitmap := new bv8[size / PAGE_SIZE / 8](_ => 0);
    NoOnes(bitmap[..]);
    region := new Region(start, size / PAGE_SIZE, bitmap, pager);
    assert region.Held() == Interval(0, 4 * 0);
  }

  lemma MoreOffPages(before: Heads, after: Heads, pages: set<nat>, more: set<nat>)
    requires (before == after || OffPages(before, after, pages)) && pages <= more
    ensures OffPages(before, after, more)
  {
  }

  lemma LiveBit(heads: Heads, lists: Lists, cache: nat, mapBits: nat, p: nat, k: nat)
    requires ListsOk(heads, lists, cache, mapBits) && (p, k) in Slots(heads, lists.Pages())
    ensures p in lists.Pages() && 0 < k < mapBits
  {
    var at := StatusNamesList(heads, lists, cache, mapBits, p);
  }

  lemma PlaceInPage(mapBits: nat, p: nat, b: nat)
    requires 4 <= mapBits <= 64 && 0 < b < mapBits && p % PAGE_SIZE == 0
    ensures var size := PAGE_SIZE / mapBits; var ptr := p + b * size;
      && 64 <= size <= ptr - p && ptr + size <= p + PAGE_SIZE
      && SlabCache.PageOf(ptr) == p && (ptr - p) / size == b
  {
    var size := PAGE_SIZE / mapBits;
    SlotRecovered(PAGE_SIZE, mapBits, p, b, 0);
    DivTimes(PAGE_SIZE, mapBits);
    MulMono(b + 1, mapBits, size);
    DivAtLeast(PAGE_SIZE, mapBits, 64);
    MulMono(1, b, size);
  }

  lemma BlocksApart(b: nat, c: nat, size: nat)
    requires b != c
    ensures b * size + size <= c * size || c * size + size <= b * size
  {
    MulMono(b + 1, c, size);
    MulMono(c + 1, b, size);
  }

  /** Two stretches of whole pages owned by disjoint sets do not meet. */
  lemma SpansApart(lo: int, hi: int, lo': int, hi': int, mine: set<nat>, yours: set<nat>)
    requires lo < hi && lo' < hi' && lo % PAGE_SIZE == 0 && lo' % PAGE_SIZE == 0 && 0 <= lo && 0 <= lo'
    requires (hi - lo) % PAGE_SIZE == 0 && (hi' - lo') % PAGE_SIZE == 0
    requires forall a: nat | lo <= a < hi && a % PAGE_SIZE == 0 :: a in mine
    requires forall a: nat | lo' <= a < hi' && a % PAGE_SIZE == 0 :: a in yours
    requires mine !! yours
    ensures hi <= lo' || hi' <= lo
  {
    assert lo in mine && lo' in yours;
  }

  lemma PagesApart(p: int, q: int)
    requires p % PAGE_SIZE == 0 && q % PAGE_SIZE == 0 && p != q
    ensures p + PAGE_SIZE <= q || q + PAGE_SIZE <= p
  {
  }

  lemma SmallOffset(ptr: nat, p: nat)
    requires p % PAGE_SIZE == 0 && p + 64 <= ptr < p + PAGE_SIZE
    ensures ptr % PAGE_SIZE != 4
  {
  }

  /** A block in use lies on a page whose header names its cache. */
  lemma LiveIsSlab(heads: Heads, lists: Lists, cache: nat, mapBits: nat, p: nat, k: nat)
    requires ListsOk(heads, lists, cache, mapBits) && (p, k) in Slots(heads, lists.Pages())
    ensures IsSlab(heads, p) && heads[p].slab.cache == cache
  {
    var at := StatusNamesList(heads, lists, cache, mapBits, p);
  }
}
