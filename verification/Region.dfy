/** The bitmap region allocator: runs of virtual pages, each mapped as it is handed out. */
module Regions {
  import opened Bits
  import opened Paging
  import opened Wrappers

  // ---------- What the search finds ----------

  ghost predicate FullAt(ones: set<nat>, b: nat) {
    forall i | 8 * b <= i < 8 * b + 8 :: i in ones
  }

  /** The least clear bit of byte b, searched from bit i on. */
  ghost function FirstClear(ones: set<nat>, b: nat, i: nat): (f: nat)
    requires 8 * b <= i < 8 * b + 8
    requires exists j :: i <= j < 8 * b + 8 && j !in ones
    ensures i <= f < 8 * b + 8 && f !in ones
    ensures forall j | i <= j < f :: j in ones
    decreases 8 * b + 8 - i
  {
    if i !in ones then i else FirstClear(ones, b, i + 1)
  }

  /** The search leaves byte b: it is full, or a set bit follows too soon after its first clear one. */
  ghost predicate Passed(ones: set<nat>, bits: nat, n: nat, b: nat) {
    || FullAt(ones, b)
    || (n > 1 && exists i :: 8 * b <= i < bits && i in ones && FirstClear(ones, b, 8 * b) <= i < FirstClear(ones, b, 8 * b) + n)
  }

  /** The first byte from b on where the search stops; nbytes when there is none. */
  ghost function Stop(ones: set<nat>, nbytes: nat, n: nat, b: nat): (stop: nat)
    requires b <= nbytes
    ensures b <= stop <= nbytes
    ensures forall c | b <= c < stop :: Passed(ones, 8 * nbytes, n, c)
    ensures stop < nbytes ==> !Passed(ones, 8 * nbytes, n, stop)
    decreases nbytes - b
  {
    if b < nbytes && Passed(ones, 8 * nbytes, n, b) then Stop(ones, nbytes, n, b + 1) else b
  }

  /** How many pages a request for n takes: a request for none still takes one. */
  function Pages(n: nat): nat {
    if n > 1 then n else 1
  }

  /** The first page of the run handed out; None when the search leaves the bitmap. */
  ghost function FindRun(ones: set<nat>, nbytes: nat, n: nat, hint: nat): (run: Option<nat>)
    requires hint <= nbytes
    ensures run.Some? ==> 8 * hint <= run.value && run.value + Pages(n) <= 8 * nbytes
    ensures run.Some? ==> Interval(run.value, run.value + Pages(n)) !! ones
  {
    var b := Stop(ones, nbytes, n, hint);
    if b == nbytes then None else
    var first := FirstClear(ones, b, 8 * b);
    if first + Pages(n) <= 8 * nbytes then Some(first) else None
  }

  /** Bit j is set exactly when page base + j is mapped. */
  ghost predicate Coherent(ones: set<nat>, ptes: seq<nat>, base: nat, bits: nat)
    requires base + bits <= |ptes|
  {
    forall p | base <= p < base + bits :: p - base in ones <==> ptes[p] != 0
  }

  lemma TakeKeepsCoherent(ones: set<nat>, before: seq<nat>, after: seq<nat>, base: nat, bits: nat, first: nat, n: nat)
    requires base + bits <= |before| && Coherent(ones, before, base, bits)
    requires MappedRun(before, after, base + first, base + first + n)
    ensures Coherent(ones + Interval(first, first + n), after, base, bits)
  {
  }

  lemma FreeKeepsCoherent(ones: set<nat>, ptes: seq<nat>, base: nat, bits: nat, index: nat)
    requires base + bits <= |ptes| && Coherent(ones, ptes, base, bits) && index < bits
    ensures Coherent(ones - {index}, ptes[base + index := 0], base, bits)
  {
  }

  /** At(ptr), the NULL of an empty region, or an access outside a bitmap. */
  datatype AllocResult = At(ptr: nat) | Null | Fault

  /** What a region's answer to a request depends on, besides whether it has pages at all. */
  datatype Stock = Stock(ones: set<nat>, nbytes: nat, hint: nat, frames: nat) {
    /** A run of n pages is found and the frames suffice to map it. */
    ghost predicate Gives(n: nat) {
      hint <= nbytes && FindRun(ones, nbytes, n, hint).Some? && frames >= Pages(n)
    }

    ghost function After(n: nat): Stock
      requires Gives(n)
    {
      var first := FindRun(ones, nbytes, n, hint).value;
      Stock(ones + Interval(first, first + Pages(n)), nbytes, Stop(ones, nbytes, 1, hint), frames - Pages(n))
    }

    /** So many requests of n pages are met one after the other. */
    ghost predicate GivesTimes(n: nat, times: nat)
      decreases times
    {
      times == 0 || (Gives(n) && After(n).GivesTimes(n, times - 1))
    }
  }

  // ---------- Page addresses ----------

  ghost predicate StartsPage(ones: set<nat>, addr: nat, a: nat)
    requires addr <= a
  {
    (a - addr) % PAGE_SIZE == 0 && (a - addr) / PAGE_SIZE in ones
  }

  /** The addresses of the pages numbered in ones, counted from addr. */
  ghost function Addrs(ones: set<nat>, addr: nat, bits: nat): set<nat> {
    set a: nat | addr <= a < addr + bits * PAGE_SIZE && StartsPage(ones, addr, a)
  }

  /** The addresses of n pages in a row. */
  ghost function RunAddrs(addr: nat, n: nat): set<nat> {
    Addrs(Interval(0, n), addr, n)
  }

  lemma AddrsGrow(ones: set<nat>, addr: nat, bits: nat, first: nat, n: nat)
    requires first + n <= bits
    ensures Addrs(ones + Interval(first, first + n), addr, bits) == Addrs(ones, addr, bits) + RunAddrs(addr + first * PAGE_SIZE, n)
    ensures Interval(first, first + n) !! ones ==> RunAddrs(addr + first * PAGE_SIZE, n) !! Addrs(ones, addr, bits)
  {
    var run := addr + first * PAGE_SIZE;
    forall a: nat
      ensures a in RunAddrs(run, n) <==> addr <= a < addr + bits * PAGE_SIZE && StartsPage(Interval(first, first + n), addr, a)
    {
      if run <= a {
        assert (a - run) / PAGE_SIZE == (a - addr) / PAGE_SIZE - first;
        assert StartsPage(Interval(0, n), run, a) <==> (a - run) % PAGE_SIZE == 0 && (a - run) / PAGE_SIZE < n;
      }
    }
  }

  lemma AddrsShrink(ones: set<nat>, addr: nat, bits: nat, index: nat)
    ensures Addrs(ones - {index}, addr, bits) == Addrs(ones, addr, bits) - {addr + index * PAGE_SIZE}
  {
    assert (index * PAGE_SIZE) / PAGE_SIZE == index;
    forall a: nat | addr <= a < addr + bits * PAGE_SIZE
      ensures StartsPage(ones - {index}, addr, a) <==> StartsPage(ones, addr, a) && a != addr + index * PAGE_SIZE
    {
    }
  }

  datatype Verdict = Fits | Taken | OffEnd

  class Region {
    const addr: nat
    const pages: nat
    const data: array<bv8>
    const pager: Pager
    /** extra_data: where the next search starts, as a byte index. */
    var hint: nat

    /** The pages handed out, numbered from the start of the region. */
    ghost function Held(): set<nat>
      reads data
    {
      Ones(data[..])
    }

    /** The number of the region's first page. */
    function Base(): nat {
      addr / PAGE_SIZE
    }

    /** The addresses of the pages handed out. */
    ghost function HeldAddrs(): set<nat>
      reads data
    {
      Addrs(Held(), addr, 8 * data.Length)
    }

    ghost function Supply(): Stock
      reads this, data, pager.bitmap
    {
      Stock(Held(), data.Length, hint, pager.FreeFrames())
    }

    ghost predicate Shape() {
      && data.Length == pages / 8
      && addr % PAGE_SIZE == 0
      && addr + pages * PAGE_SIZE < MAX_PAGES * PAGE_SIZE
      && data != pager.bitmap
      && data as object != pager.dir as object
    }

    ghost predicate Valid()
      reads this, data, pager, pager.bitmap, pager.dir
    {
      && Shape()
      && hint <= data.Length
      && pager.Valid()
      && Coherent(Held(), pager.Ptes(), Base(), 8 * data.Length)
    }

    /** Bitmap, page table and frame bitmap agree. */
    lemma LayersAgree()
      requires Valid()
      ensures forall j | 0 <= j < 8 * data.Length :: j in Held() <==> pager.Ptes()[Base() + j] != 0
      ensures forall j | j in Held() :: Frame(pager.Ptes()[Base() + j]) in pager.Taken()
      ensures forall i, j | i in Held() && j in Held() && i != j :: Frame(pager.Ptes()[Base() + i]) != Frame(pager.Ptes()[Base() + j])
      ensures pager.nfreePages + |pager.Taken()| == pager.npages
    {
      OnesBounded(data[..]);
      var ptes := pager.Ptes();
      assert forall j | j in Held() :: ptes[Base() + j] != 0;
    }

    /** bitmap_region_init_at_addr, over a cleared bitmap and a range with nothing mapped. */
    constructor (addr: nat, pages: nat, data: array<bv8>, pager: Pager)
      requires data.Length == pages / 8 && addr % PAGE_SIZE == 0
      requires addr + pages * PAGE_SIZE < MAX_PAGES * PAGE_SIZE
      requires pager.Valid() && data != pager.bitmap && data as object != pager.dir as object
      requires Ones(data[..]) == {}
      requires Coherent({}, pager.Ptes(), addr / PAGE_SIZE, 8 * data.Length)
      ensures Valid() && Held() == {} && hint == 0
      ensures this.addr == addr && this.pages == pages && this.data == data && this.pager == pager
    {
      this.addr, this.pages, this.data, this.pager := addr, pages, data, pager;
      hint := 0;
    }

    /** bitmap_get over the first clear bit of byte b. */
    method FirstClearBit(b: nat) returns (first: nat)
      requires b < data.Length && data[b] != 0xff
      ensures !FullAt(Held(), b) && first == FirstClear(Held(), b, 8 * b)
    {
      FullByte(data[..], b);
      first := 8 * b;
      var one := GetBit(data, first);
      while one
        invariant 8 * b <= first < 8 * b + 8
        invariant one <==> first in Held()
        invariant forall j | 8 * b <= j < first :: j in Held()
        invariant exists j :: first <= j < 8 * b + 8 && j !in Held()
        invariant FirstClear(Held(), b, first) == FirstClear(Held(), b, 8 * b)
        decreases 8 * b + 8 - first
      {
        first := first + 1;
        one := GetBit(data, first);
      }
    }

    /** Whether the n bits from the first clear bit of byte b on are clear, tested one by one. */
    method TestRun(b: nat, n: nat) returns (first: nat, verdict: Verdict)
      requires b < data.Length && data[b] != 0xff
      ensures !FullAt(Held(), b) && first == FirstClear(Held(), b, 8 * b)
      ensures verdict == Taken <==> Passed(Held(), 8 * data.Length, n, b)
      ensures verdict == Fits ==> first + Pages(n) <= 8 * data.Length
      ensures verdict == OffEnd ==> first + Pages(n) > 8 * data.Length
    {
      hide Ones;
      first := FirstClearBit(b);
      if n <= 1 {
        return first, Fits;
      }
      var isFree, k := true, 0;
      while k < n && isFree
        invariant k <= n && first + k <= 8 * data.Length
        invariant isFree ==> forall i | first <= i < first + k :: i !in Held()
        invariant !isFree ==> k > 0 && first + k - 1 in Held()
      {
        if first + k >= 8 * data.Length {
          return first, OffEnd;
        }
        var one := GetBit(data, first + k);
        isFree := !one;
        k := k + 1;
      }
      return first, if isFree then Fits else Taken;
    }

    method SetRun(first: nat, n: nat)
      requires first + n <= 8 * data.Length
      modifies data
      ensures Held() == old(Held()) + Interval(first, first + n)
    {
      hide Ones;
      var k := 0;
      while k < n
        invariant k <= n
        invariant Held() == old(Held()) + Interval(first, first + k)
      {
        IntervalGrows(old(Held()), first, first + k);
        SetBit(data, first + k);
        k := k + 1;
      }
    }

    /** Marks a run that is free, then maps its pages; not ok when the frames run out. */
    method TakeMany(first: nat, n: nat) returns (ok: bool)
      requires Valid() && first + n <= 8 * data.Length
      modifies data, pager, pager.bitmap, pager.dir
      ensures ok <==> old(pager.FreeFrames()) >= n
      ensures ok ==> Valid() && Held() == old(Held()) + Interval(first, first + n)
      ensures ok ==> pager.FreeFrames() == old(pager.FreeFrames()) - n
      ensures ok ==> MappedRun(old(pager.Ptes()), pager.Ptes(), Base() + first, Base() + first + n)
    {
      hide Ones, Walk, OwnFrames, HintExact, Addrs;
      SetRun(first, n);
      ok := pager.MapPages(addr + PAGE_SIZE * first, addr + PAGE_SIZE * (first + n), PERMISSIONS);
      if ok {
        TakeKeepsCoherent(old(Held()), old(pager.Ptes()), pager.Ptes(), Base(), 8 * data.Length, first, n);
      }
    }

    method TakeOne(first: nat) returns (ok: bool)
      requires Valid() && first < 8 * data.Length
      modifies data, pager, pager.bitmap, pager.dir
      ensures ok <==> old(pager.FreeFrames()) >= 1
      ensures ok ==> Valid() && Held() == old(Held()) + Interval(first, first + 1)
      ensures ok ==> pager.FreeFrames() == old(pager.FreeFrames()) - 1
      ensures ok ==> MappedRun(old(pager.Ptes()), pager.Ptes(), Base() + first, Base() + first + 1)
    {
      hide Ones, Walk, OwnFrames, HintExact, Addrs;
      SetBit(data, first);
      assert Interval(first, first + 1) == {first};
      ghost var frame: nat;
      ok, frame := pager.MapPage(addr + PAGE_SIZE * first, PERMISSIONS);
      if ok {
        TakeKeepsCoherent(old(Held()), old(pager.Ptes()), pager.Ptes(), Base(), 8 * data.Length, first, 1);
      }
    }

    method TakeRun(first: nat, n: nat) returns (ok: bool)
      requires Valid() && first + Pages(n) <= 8 * data.Length
      requires Interval(first, first + Pages(n)) !! Held()
      modifies data, pager, pager.bitmap, pager.dir
      ensures ok <==> old(pager.FreeFrames()) >= Pages(n)
      ensures ok ==> Valid() && Held() == old(Held()) + Interval(first, first + Pages(n))
      ensures ok ==> pager.FreeFrames() == old(pager.FreeFrames()) - Pages(n)
      ensures ok ==> MappedRun(old(pager.Ptes()), pager.Ptes(), Base() + first, Base() + first + Pages(n))
      ensures ok ==> RunAddrs(addr + first * PAGE_SIZE, Pages(n)) !! old(HeldAddrs())
      ensures ok ==> HeldAddrs() == old(HeldAddrs()) + RunAddrs(addr + first * PAGE_SIZE, Pages(n))
    {
      hide Ones, Walk, OwnFrames, HintExact, Coherent, MappedRun, Addrs, Interval;
      AddrsGrow(Held(), addr, 8 * data.Length, first, Pages(n));
      if n > 1 {
        ok := TakeMany(first, n);
      } else {
        ok := TakeOne(first);
      }
    }

    /** The search loop of bitmap_region_alloc_page: Null when it ends, Fault when it leaves the bitmap. */
    method Search(n: nat) returns (r: AllocResult, first: nat)
      requires Shape() && hint <= data.Length
      modifies `hint
      ensures r.Null? <==> pages == 0
      ensures r.At? <==> FindRun(Held(), data.Length, n, old(hint)).Some?
      ensures r.At? ==> first == FindRun(Held(), data.Length, n, old(hint)).value
      ensures r.At? ==> hint == Stop(Held(), data.Length, 1, old(hint))
      ensures r.At? ==> old(hint) <= hint < data.Length && !FullAt(Held(), hint) && forall c | old(hint) <= c < hint :: FullAt(Held(), c)
      ensures r.Null? ==> hint == old(hint)
    {
      hide Ones;
      first := 0;
      var i, setIndex := hint, false;
      ghost var hint0 := hint;
      while i < pages
        invariant hint0 <= i <= data.Length
        invariant forall c | hint0 <= c < i :: Passed(Held(), 8 * data.Length, n, c)
        invariant if setIndex then hint0 <= hint < i && !FullAt(Held(), hint) else hint == hint0
        invariant forall c | hint0 <= c < if setIndex then hint else i :: FullAt(Held(), c)
      {
        if i >= data.Length {
          StopAtEnd(Held(), data.Length, n, hint0);
          return Fault, first;
        }
        FullByte(data[..], i);
        if data[i] == 0xff {
          i := i + 1;
        } else {
          if !setIndex {
            hint, setIndex := i, true;
          }
          var verdict: Verdict;
          first, verdict := TestRun(i, n);
          if verdict == Taken {
            i := i + 1;
          } else {
            StopHere(Held(), data.Length, n, hint0, i);
            StopHere(Held(), data.Length, 1, hint0, hint);
            return if verdict == Fits then At(addr + first * PAGE_SIZE) else Fault, first;
          }
        }
      }
      return Null, first;
    }

    /** bitmap_region_alloc_page */
    method AllocPage(n: nat) returns (r: AllocResult)
      requires Valid()
      modifies this, data, pager, pager.bitmap, pager.dir
      ensures r.Null? <==> pages == 0
      ensures r.At? <==> old(Supply()).Gives(n)
      ensures r.At? <==> old(FindRun(Held(), data.Length, n, hint)).Some? && old(pager.FreeFrames()) >= Pages(n)
      ensures !r.Fault? ==> Valid()
      ensures r.Null? ==> Held() == old(Held())
      ensures r.At? ==> var first := old(FindRun(Held(), data.Length, n, hint)).value;
        && r.ptr == addr + first * PAGE_SIZE
        && Held() == old(Held()) + Interval(first, first + Pages(n))
        && MappedRun(old(pager.Ptes()), pager.Ptes(), Base() + first, Base() + first + Pages(n))
      ensures r.At? ==> RunAddrs(r.ptr, Pages(n)) !! old(HeldAddrs())
      ensures r.At? ==> HeldAddrs() == old(HeldAddrs()) + RunAddrs(r.ptr, Pages(n))
      ensures r.At? ==> Supply() == old(Supply()).After(n)
      ensures r.At? ==> old(hint) <= hint < data.Length && !FullAt(old(Held()), hint)
      ensures r.At? ==> forall c | old(hint) <= c < hint :: FullAt(old(Held()), c)
    {
      hide Ones, Walk, OwnFrames, HintExact, Coherent, MappedRun, RunAddrs, Addrs, Interval, FindRun, Stop, FullAt;
      var first: nat;
      r, first := Search(n);
      if r.At? {
        var ok := TakeRun(first, n);
        r := if ok then At(addr + first * PAGE_SIZE) else Fault;
      }
    }

    /** bitmap_region_free_page, with the hint it computes: the index modulo eight. */
    method FreePage(ptr: nat)
      requires Valid() && addr <= ptr < addr + 8 * data.Length * PAGE_SIZE
      modifies this, data, pager, pager.bitmap, pager.dir
      ensures Valid()
      ensures Held() == old(Held()) - {(ptr - addr) / PAGE_SIZE}
      ensures HeldAddrs() == old(HeldAddrs()) - {ptr - ptr % PAGE_SIZE}
      ensures hint == if (ptr - addr) / PAGE_SIZE % 8 <= old(hint) then (ptr - addr) / PAGE_SIZE % 8 else old(hint)
      ensures pager.Ptes() == old(pager.Ptes())[ptr / PAGE_SIZE := 0]
      ensures pager.FreeFrames() == old(pager.FreeFrames()) + if (ptr - addr) / PAGE_SIZE in old(Held()) then 1 else 0
    {
      hide Ones, Walk, OwnFrames, HintExact, Addrs;
      var index := (ptr - addr) / PAGE_SIZE;
      assert ptr / PAGE_SIZE == addr / PAGE_SIZE + index;
      FreeKeepsCoherent(Held(), pager.Ptes(), Base(), 8 * data.Length, index);
      AddrsShrink(Held(), addr, 8 * data.Length, index);
      assert addr + index * PAGE_SIZE == ptr - ptr % PAGE_SIZE;
      var bytepos := index % 8;
      UnsetBit(data, index);
      if bytepos <= hint {
        hint := bytepos;
      }
      var freed := pager.FreePage(ptr);
    }
  }

  function HintAfterFree(hint: nat, index: nat): nat {
    if index % 8 <= hint then index % 8 else hint
  }

  lemma StopAtEnd(ones: set<nat>, nbytes: nat, n: nat, b: nat)
    requires b <= nbytes
    requires forall c | b <= c < nbytes :: Passed(ones, 8 * nbytes, n, c)
    ensures Stop(ones, nbytes, n, b) == nbytes
  {
  }

  lemma StopHere(ones: set<nat>, nbytes: nat, n: nat, b: nat, stop: nat)
    requires b <= stop < nbytes
    requires forall c | b <= c < stop :: Passed(ones, 8 * nbytes, n, c)
    requires !Passed(ones, 8 * nbytes, n, stop)
    ensures Stop(ones, nbytes, n, b) == stop
  {
  }

  // ---------- What the search finds and what it misses ----------

  /** The first clear bit of byte b starts a free run of the requested length. */
  ghost predicate StartsRun(ones: set<nat>, nbytes: nat, n: nat, b: nat) {
    && !FullAt(ones, b)
    && var first := FirstClear(ones, b, 8 * b);
    && first + Pages(n) <= 8 * nbytes
    && Interval(first, first + Pages(n)) !! ones
  }

  /** A request is met exactly when some byte from the hint on starts a run at its first clear bit. */
  lemma RunFound(ones: set<nat>, nbytes: nat, n: nat, hint: nat)
    requires hint <= nbytes
    ensures FindRun(ones, nbytes, n, hint).Some? <==> exists b :: hint <= b < nbytes && StartsRun(ones, nbytes, n, b)
  {
    var stop := Stop(ones, nbytes, n, hint);
    if stop < nbytes && FindRun(ones, nbytes, n, hint).Some? {
      assert StartsRun(ones, nbytes, n, stop);
    }
    if b :| hint <= b < nbytes && StartsRun(ones, nbytes, n, b) {
      var first := FirstClear(ones, b, 8 * b);
      assert !Passed(ones, 8 * nbytes, n, b) by {
        assert forall i | i in ones :: i !in Interval(first, first + Pages(n));
      }
      assert stop <= b;
    }
  }

  /** The run handed out is that of the first such byte. */
  lemma FirstFit(ones: set<nat>, nbytes: nat, n: nat, hint: nat, b: nat)
    requires hint <= b < nbytes && StartsRun(ones, nbytes, n, b)
    requires forall c | hint <= c < b :: !StartsRun(ones, nbytes, n, c)
    ensures FindRun(ones, nbytes, n, hint) == Some(FirstClear(ones, b, 8 * b))
  {
    RunFound(ones, nbytes, n, hint);
    var stop := Stop(ones, nbytes, n, hint);
    assert stop <= b by {
      assert forall i | i in ones :: i !in Interval(FirstClear(ones, b, 8 * b), FirstClear(ones, b, 8 * b) + Pages(n));
      assert !Passed(ones, 8 * nbytes, n, b);
    }
    assert StartsRun(ones, nbytes, n, stop);
  }

  /** So a free run is overlooked when each byte's first clear bit is too close to a set one. */
  lemma RunOverlooked()
    ensures Interval(2, 8) !! {1}
    ensures FindRun({1}, 1, 4, 0) == None
  {
    var ones: set<nat> := {1};
    assert 0 !in ones && !FullAt(ones, 0);
    assert FirstClear(ones, 0, 0) == 0;
    assert 1 in ones && FirstClear(ones, 0, 0) <= 1 < FirstClear(ones, 0, 0) + 4;
    assert Passed(ones, 8, 4, 0);
    assert Stop(ones, 1, 4, 1) == 1;
    assert Stop(ones, 1, 4, 0) == 1;
  }

  /** With an exact hint a single page is found when there is one, and it is the lowest. */
  lemma SinglePageFound(ones: set<nat>, nbytes: nat, n: nat, hint: nat)
    requires n <= 1 && hint <= nbytes && HintExact(hint, ones)
    ensures FindRun(ones, nbytes, n, hint).None? <==> forall i | 0 <= i < 8 * nbytes :: i in ones
    ensures FindRun(ones, nbytes, n, hint).Some? ==> forall i | 0 <= i < FindRun(ones, nbytes, n, hint).value :: i in ones
  {
    var stop := Stop(ones, nbytes, n, hint);
    forall i | 8 * hint <= i < 8 * stop
      ensures i in ones
    {
      assert Passed(ones, 8 * nbytes, n, i / 8);
    }
    if stop < nbytes {
      assert FirstClear(ones, stop, 8 * stop) !in ones;
    }
  }

  /** Allocation moves the hint, and keeps it exact. */
  lemma AllocKeepsHint(ones: set<nat>, nbytes: nat, hint: nat)
    requires hint <= nbytes && HintExact(hint, ones)
    ensures HintExact(Stop(ones, nbytes, 1, hint), ones)
  {
    forall f | 8 * hint <= f < 8 * Stop(ones, nbytes, 1, hint)
      ensures f in ones
    {
      assert Passed(ones, 8 * nbytes, 1, f / 8);
    }
  }

  /** Freeing keeps the hint exact exactly when the page's number modulo eight, or the old hint, is no later than its byte. */
  lemma FreeKeepsHint(ones: set<nat>, hint: nat, index: nat)
    requires HintExact(hint, ones)
    ensures HintExact(HintAfterFree(hint, index), ones - {index}) <==> index % 8 <= index / 8 || hint <= index / 8
  {
    if HintAfterFree(hint, index) > index / 8 {
      assert index < 8 * HintAfterFree(hint, index) && index !in ones - {index};
    }
  }

  /** And exactly then the next request for one page gets the lowest free page. */
  lemma FreedPageFound(ones: set<nat>, nbytes: nat, hint: nat, index: nat)
    requires hint <= nbytes && HintExact(hint, ones) && index < 8 * nbytes
    ensures HintAfterFree(hint, index) <= nbytes
    ensures var after := ones - {index};
      var found := FindRun(after, nbytes, 1, HintAfterFree(hint, index));
      (found.Some? && found.value !in after && forall i | 0 <= i < found.value :: i in after)
        <==> index % 8 <= index / 8 || hint <= index / 8
  {
    hide FindRun;
    var after, next := ones - {index}, HintAfterFree(hint, index);
    FreeKeepsHint(ones, hint, index);
    if HintExact(next, after) {
      SinglePageFound(after, nbytes, 1, next);
      assert index !in after;
      var found := FindRun(after, nbytes, 1, next);
      assert found.Some? ==> found.value in Interval(found.value, found.value + Pages(1));
    } else {
      assert index < 8 * next;
    }
  }

  /** Dividing by eight, as evidently intended, would always keep it exact. */
  lemma DividedHintExact(ones: set<nat>, hint: nat, index: nat)
    requires HintExact(hint, ones)
    ensures HintExact(if index / 8 <= hint then index / 8 else hint, ones - {index})
  {
    assert index >= 8 * (index / 8);
  }

  /** A full region of 48 pages, hint at its last byte: page 7 is freed and then not found again. */
  lemma FreedPageLost()
    ensures HintExact(5, Interval(0, 48))
    ensures HintAfterFree(5, 7) == 5
    ensures FindRun(Interval(0, 48) - {7}, 6, 1, 5) == None
  {
    var ones := Interval(0, 48) - {7};
    assert FullAt(ones, 5);
    assert Stop(ones, 6, 1, 6) == 6;
    assert Stop(ones, 6, 1, 5) == 6;
  }

  // ---------- A fresh region ----------

  /** With its first pages taken in fours, a region gives the next four, wherever the hint is among the full bytes. */
  lemma NextFour(c: nat, nbytes: nat, hint: nat)
    requires hint <= nbytes && 8 * hint <= 4 * c
    ensures FindRun(Interval(0, 4 * c), nbytes, 4, hint) == if 4 * c + 4 <= 8 * nbytes then Some(4 * c) else None
    ensures 4 * c + 4 <= 8 * nbytes ==> 8 * Stop(Interval(0, 4 * c), nbytes, 1, hint) <= 4 * (c + 1)
  {
    var ones, b := Interval(0, 4 * c), c / 2;
    forall d | hint <= d < nbytes && d < b
      ensures Passed(ones, 8 * nbytes, 4, d) && Passed(ones, 8 * nbytes, 1, d)
    {
      assert FullAt(ones, d);
    }
    if b < nbytes {
      assert 4 * c !in ones && !FullAt(ones, b);
      assert FirstClear(ones, b, 8 * b) == 4 * c;
      StopHere(ones, nbytes, 4, hint, b);
      StopHere(ones, nbytes, 1, hint, b);
    } else {
      StopAtEnd(ones, nbytes, 4, hint);
    }
  }

  /** A fresh region gives runs of four until its pages or the frames are used up. */
  lemma {:induction false} FoursGiven(c: nat, nbytes: nat, hint: nat, frames: nat, times: nat)
    requires hint <= nbytes && 8 * hint <= 4 * c
    ensures Stock(Interval(0, 4 * c), nbytes, hint, frames).GivesTimes(4, times)
      <==> times == 0 || (4 * (c + times) <= 8 * nbytes && 4 * times <= frames)
    decreases times
  {
    hide FindRun, Stop, Stock.Gives, Stock.After;
    if times > 0 {
      FourGiven(c, nbytes, hint, frames);
      if 4 * c + 4 <= 8 * nbytes && frames >= 4 {
        FoursGiven(c + 1, nbytes, Stop(Interval(0, 4 * c), nbytes, 1, hint), frames - 4, times - 1);
      }
    }
  }

  lemma FourGiven(c: nat, nbytes: nat, hint: nat, frames: nat)
    requires hint <= nbytes && 8 * hint <= 4 * c
    ensures var stock := Stock(Interval(0, 4 * c), nbytes, hint, frames);
      && (stock.Gives(4) <==> 4 * c + 4 <= 8 * nbytes && frames >= 4)
      && (stock.Gives(4) ==> var next := Stop(Interval(0, 4 * c), nbytes, 1, hint);
        8 * next <= 4 * (c + 1) && stock.After(4) == Stock(Interval(0, 4 * (c + 1)), nbytes, next, frames - 4))
  {
    hide FindRun, Stop;
    NextFour(c, nbytes, hint);
    assert Interval(0, 4 * c) + Interval(4 * c, 4 * c + 4) == Interval(0, 4 * (c + 1));
  }
}
