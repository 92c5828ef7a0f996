/** The physical frame bitmap and the two-level page table of the i586 port. */
module Paging {
  import opened Bits

  const PAGE_SIZE: nat := 0x1000
  const MAX_PAGES: nat := 0x100000
  const PERMISSIONS: nat := 7

  /** `(raddress & ~0xfff) | permissions` */
  function Entry(raddress: nat, permissions: nat): nat {
    raddress / PAGE_SIZE * PAGE_SIZE + permissions
  }

  /** The frame number held in a page table entry. */
  function Frame(entry: nat): nat {
    entry / PAGE_SIZE
  }

  /** An entry keeps the frame of the address and the permissions apart. */
  lemma EntryParts(raddress: nat, permissions: nat)
    requires permissions < PAGE_SIZE
    ensures Frame(Entry(raddress, permissions)) == raddress / PAGE_SIZE && Entry(raddress, permissions) % PAGE_SIZE == permissions
  {
  }

  // ---------- The two-level page table ----------

  /** Slot d of a directory is the page table for 4 MiB slot d, or [] while there is none. */
  predicate Tables(dir: seq<seq<nat>>) {
    && |dir| == 0x400
    && forall d | 0 <= d < 0x400 :: dir[d] == [] || |dir[d]| == 0x400
  }

  /** What the directory holds for each page; 0 where nothing is mapped. */
  ghost function Walk(dir: seq<seq<nat>>): (ptes: seq<nat>)
    requires Tables(dir)
    ensures |ptes| == MAX_PAGES
  {
    seq(MAX_PAGES, p requires 0 <= p < MAX_PAGES => if dir[p / 0x400] == [] then 0 else dir[p / 0x400][p % 0x400])
  }

  /** An address picks its table by its upper ten bits and its entry by the next ten. */
  lemma WalkAt(dir: seq<seq<nat>>, vaddress: nat)
    requires Tables(dir) && vaddress < MAX_PAGES * PAGE_SIZE
    ensures Walk(dir)[vaddress / PAGE_SIZE]
      == if dir[vaddress / 0x40_0000] == [] then 0 else dir[vaddress / 0x40_0000][vaddress / 0x1000 % 0x400]
  {
    var p := vaddress / PAGE_SIZE;
    assert p / 0x400 == vaddress / 0x40_0000;
  }

  /** Writing one slot of one table changes the entry of one page. */
  lemma WalkUpdate(dir: seq<seq<nat>>, p: nat, entry: nat, table: seq<nat>)
    requires Tables(dir) && p < MAX_PAGES
    requires table == if dir[p / 0x400] == [] then seq(0x400, _ => 0) else dir[p / 0x400]
    ensures Tables(dir[p / 0x400 := table[p % 0x400 := entry]])
    ensures Walk(dir[p / 0x400 := table[p % 0x400 := entry]]) == Walk(dir)[p := entry]
  {
    var after := dir[p / 0x400 := table[p % 0x400 := entry]];
    forall q | 0 <= q < MAX_PAGES
      ensures Walk(after)[q] == Walk(dir)[p := entry][q]
    {
      assert q == q / 0x400 * 0x400 + q % 0x400;
      assert p == p / 0x400 * 0x400 + p % 0x400;
    }
  }

  /** Every mapped page has a frame of its own, and that frame's bit is set. */
  ghost predicate OwnFrames(ptes: seq<nat>, taken: set<nat>) {
    && (forall p | 0 <= p < |ptes| && ptes[p] != 0 :: Frame(ptes[p]) in taken)
    && (forall p, q | 0 <= p < q < |ptes| && ptes[p] != 0 && ptes[q] != 0 :: Frame(ptes[p]) != Frame(ptes[q]))
  }

  lemma MapKeepsOwnFrames(ptes: seq<nat>, taken: set<nat>, p: nat, frame: nat, permissions: nat)
    requires OwnFrames(ptes, taken) && p < |ptes| && frame !in taken && permissions < PAGE_SIZE
    ensures OwnFrames(ptes[p := Entry(frame * PAGE_SIZE, permissions)], taken + {frame})
  {
    assert Frame(Entry(frame * PAGE_SIZE, permissions)) == frame;
  }

  lemma FreeKeepsOwnFrames(ptes: seq<nat>, taken: set<nat>, p: nat)
    requires OwnFrames(ptes, taken) && p < |ptes|
    ensures OwnFrames(ptes[p := 0], if ptes[p] == 0 then taken else taken - {Frame(ptes[p])})
  {
  }

  lemma FrameOwned(ptes: seq<nat>, taken: set<nat>, p: nat)
    requires OwnFrames(ptes, taken) && p < |ptes| && ptes[p] != 0
    ensures Frame(ptes[p]) in taken
  {
  }

  lemma EmptyWalk()
    ensures Tables(seq(0x400, _ => [])) && Walk(seq(0x400, _ => [])) == Identity(0)
  {
  }

  /** The first n pages mapped to the frames of the same number. */
  ghost function Identity(n: nat): (ptes: seq<nat>)
    ensures |ptes| == MAX_PAGES
  {
    seq(MAX_PAGES, p => if 0 <= p < n then Entry(p * PAGE_SIZE, PERMISSIONS) else 0)
  }

  lemma IdentityOwnsFrames(n: nat)
    requires n <= MAX_PAGES
    ensures OwnFrames(Identity(n), Interval(0, n))
    ensures n < MAX_PAGES ==> Identity(n)[n := Entry(n * PAGE_SIZE, PERMISSIONS)] == Identity(n + 1)
  {
    assert forall p | 0 <= p < n :: Frame(Entry(p * PAGE_SIZE, PERMISSIONS)) == p;
  }

  /** after differs from before on pages lo to hi-1 at most, and those are mapped. */
  ghost predicate MappedRun(before: seq<nat>, after: seq<nat>, lo: nat, hi: nat) {
    && |after| == |before|
    && forall p | 0 <= p < |after| :: if lo <= p < hi then after[p] != 0 else after[p] == before[p]
  }

  /** No free frame lies in a bitmap byte below the hint. */
  ghost predicate HintExact(hint: nat, taken: set<nat>) {
    forall f | 0 <= f < 8 * hint :: f in taken
  }

  class Pager {
    const npages: nat
    const bitmap: array<bv8>
    const dir: array<seq<nat>>
    var lastFreePage: nat
    var nfreePages: int

    /** The frames whose bit is set. */
    ghost function Taken(): set<nat>
      reads bitmap
    {
      Ones(bitmap[..])
    }

    ghost function Ptes(): seq<nat>
      requires Tables(dir[..])
      reads dir
    {
      Walk(dir[..])
    }

    ghost predicate Valid()
      reads this, bitmap, dir
    {
      && bitmap as object != dir as object
      && bitmap.Length == npages / 8
      && npages <= MAX_PAGES
      && Tables(dir[..])
      && lastFreePage <= bitmap.Length
      && HintExact(lastFreePage, Taken())
      && OwnFrames(Ptes(), Taken())
      && nfreePages + |Taken()| == npages
    }

    ghost function FreeFrames(): nat
      reads bitmap
    {
      OnesBounded(bitmap[..]);
      8 * bitmap.Length - |Taken()|
    }

    /** init_paging: the first 3 MiB are mapped to themselves. */
    constructor (maxMem: nat)
      requires 0xc00 <= maxMem <= 4 * MAX_PAGES
      ensures Valid() && fresh(bitmap) && fresh(dir)
      ensures npages == maxMem / 4
      ensures Taken() == Interval(0, 0x300)
      ensures Ptes() == Identity(0x300)
    {
      npages := maxMem / 4;
      bitmap := new bv8[maxMem / 4 / 8](_ => 0);
      dir := new seq<nat>[0x400](_ => []);
      nfreePages := maxMem / 4;
      lastFreePage := 0;
      new;
      NoOnes(bitmap[..]);
      EmptyWalk();
      assert dir[..] == seq(0x400, _ => []);
      MapKernel();
      IdentityOwnsFrames(0x300);
    }

    method MapKernel()
      requires bitmap as object != dir as object && 8 * bitmap.Length >= 0x300 && Tables(dir[..])
      requires Taken() == {} && Ptes() == Identity(0)
      modifies `nfreePages, bitmap, dir
      ensures Tables(dir[..])
      ensures Taken() == Interval(0, 0x300) && Ptes() == Identity(0x300)
      ensures nfreePages == old(nfreePages) - 0x300
    {
      hide Walk, Ones, Identity;
      var i, j := PERMISSIONS, 0;
      while i < 0x300000
        invariant j <= 0x300 && i == PERMISSIONS + 0x1000 * j
        invariant nfreePages == old(nfreePages) - j
        invariant Tables(dir[..])
        invariant Taken() == Interval(0, j) && Ptes() == Identity(j)
      {
        IdentityOwnsFrames(j);
        assert i / PAGE_SIZE == j && Entry(i, PERMISSIONS) == Entry(j * PAGE_SIZE, PERMISSIONS);
        MapRealPage(i, i, PERMISSIONS);
        SetBit(bitmap, i / PAGE_SIZE);
        nfreePages := nfreePages - 1;
        i, j := i + 0x1000, j + 1;
      }
    }

    /** map_r_page */
    method MapRealPage(vaddress: nat, raddress: nat, permissions: nat)
      requires Tables(dir[..]) && vaddress < MAX_PAGES * PAGE_SIZE
      modifies dir
      ensures Tables(dir[..])
      ensures Ptes() == old(Ptes())[vaddress / PAGE_SIZE := Entry(raddress, permissions)]
    {
      var d, t := vaddress / 0x400000, vaddress / 0x1000 % 0x400;
      ghost var before := dir[..];
      if dir[d] == [] {
        dir[d] := seq(0x400, _ => 0);
      }
      WalkUpdate(before, vaddress / PAGE_SIZE, Entry(raddress, permissions), dir[d]);
      dir[d] := dir[d][t := Entry(raddress, permissions)];
      assert dir[..] == before[d := dir[d]];
    }

    /** get_free_page: the result is a frame number; not ok when the search runs off the bitmap. */
    method GetFreePage() returns (frame: nat, ok: bool)
      requires lastFreePage <= bitmap.Length && HintExact(lastFreePage, Taken())
      modifies this
      ensures lastFreePage <= bitmap.Length && HintExact(lastFreePage, Taken())
      ensures ok <==> FreeFrames() > 0
      ensures ok ==> frame < 8 * bitmap.Length && frame !in Taken() && forall f | 0 <= f < frame :: f in Taken()
      ensures nfreePages == old(nfreePages) - if ok then 1 else 0
    {
      var page := lastFreePage;
      while page < bitmap.Length && bitmap[page] == 0xff
        invariant page <= bitmap.Length && unchanged(this)
        invariant HintExact(page, Taken())
      {
        FullByte(bitmap[..], page);
        page := page + 1;
      }
      OnesBounded(bitmap[..]);
      if page == bitmap.Length {
        assert |Taken()| == 8 * bitmap.Length;
        return 0, false;
      }
      lastFreePage := page;
      var j := FirstZero(bitmap[page]);
      frame, ok := 8 * page + j, true;
      forall f | 8 * page <= f <= frame
        ensures f in Taken() <==> f != frame
      {
        assert f / 8 == page && f % 8 == f - 8 * page;
        assert ByteBit(bitmap[..][page], f - 8 * page) <==> f - 8 * page < j;
      }
      nfreePages := nfreePages - 1;
      OnesBounded(bitmap[..]);
      assert frame !in Taken() && |Taken()| != 8 * bitmap.Length;
    }

    /** map_page: not ok when no frame is free. */
    method MapPage(vaddress: nat, permissions: nat) returns (ok: bool, ghost frame: nat)
      requires Valid() && vaddress < MAX_PAGES * PAGE_SIZE && 0 < permissions < PAGE_SIZE
      modifies this, bitmap, dir
      ensures ok <==> old(FreeFrames()) > 0
      ensures ok ==> Valid() && FreeFrames() == old(FreeFrames()) - 1
      ensures ok ==> frame !in old(Taken()) && (forall f | 0 <= f < frame :: f in old(Taken()))
      ensures ok ==> Taken() == old(Taken()) + {frame}
      ensures ok ==> Ptes() == old(Ptes())[vaddress / PAGE_SIZE := Entry(frame * PAGE_SIZE, permissions)]
    {
      var free: nat;
      free, ok := GetFreePage();
      frame := free;
      if ok {
        MapKeepsOwnFrames(Ptes(), Taken(), vaddress / PAGE_SIZE, frame, permissions);
        MapRealPage(vaddress, free * PAGE_SIZE, permissions);
        SetBit(bitmap, free);
      }
    }

    /** map_pages: not ok when the frames run out on the way. */
    method MapPages(start: nat, end: nat, permissions: nat) returns (ok: bool)
      requires Valid() && 0 < permissions < PAGE_SIZE
      requires start <= end < MAX_PAGES * PAGE_SIZE && start % PAGE_SIZE == 0 && end % PAGE_SIZE == 0
      modifies this, bitmap, dir
      ensures ok <==> old(FreeFrames()) >= (end - start) / PAGE_SIZE
      ensures ok ==> Valid() && FreeFrames() == old(FreeFrames()) - (end - start) / PAGE_SIZE
      ensures ok ==> MappedRun(old(Ptes()), Ptes(), start / PAGE_SIZE, end / PAGE_SIZE)
    {
      hide Walk, OwnFrames, HintExact, Ones;
      var i := start;
      ghost var done := 0;
      while i < end
        invariant i == start + done * PAGE_SIZE && i <= end
        invariant Valid() && FreeFrames() == old(FreeFrames()) - done
        invariant MappedRun(old(Ptes()), Ptes(), start / PAGE_SIZE, i / PAGE_SIZE)
      {
        ghost var frame: nat;
        ok, frame := MapPage(i, permissions);
        if !ok {
          return;
        }
        i, done := i + PAGE_SIZE, done + 1;
      }
      ok := true;
    }

    /** free_page: true when a frame was given back. */
    method FreePage(vaddress: nat) returns (freed: bool)
      requires Valid() && vaddress < MAX_PAGES * PAGE_SIZE
      modifies this, bitmap, dir
      ensures Valid()
      ensures freed <==> old(Ptes())[vaddress / PAGE_SIZE] != 0
      ensures Ptes() == old(Ptes())[vaddress / PAGE_SIZE := 0]
      ensures Taken() == old(Taken()) - if freed then {Frame(old(Ptes())[vaddress / PAGE_SIZE])} else {}
      ensures FreeFrames() == old(FreeFrames()) + if freed then 1 else 0
    {
      hide Walk, OwnFrames;
      freed := false;
      FreeKeepsOwnFrames(Ptes(), Taken(), vaddress / PAGE_SIZE);
      var raddress := ClearEntry(vaddress);
      if raddress != 0 {
        FrameOwned(old(Ptes()), Taken(), vaddress / PAGE_SIZE);
        UnsetBit(bitmap, raddress / 0x1000);
        if lastFreePage > raddress / 0x8000 {
          lastFreePage := raddress / 0x8000;
        }
        nfreePages := nfreePages + 1;
        freed := true;
      }
    }

    /** The lookup in free_page: zero where there is no table or no page. */
    method ClearEntry(vaddress: nat) returns (raddress: nat)
      requires Tables(dir[..]) && vaddress < MAX_PAGES * PAGE_SIZE
      modifies dir
      ensures Tables(dir[..]) && raddress == old(Ptes())[vaddress / PAGE_SIZE]
      ensures Ptes() == old(Ptes())[vaddress / PAGE_SIZE := 0]
    {
      var d, t := vaddress / 0x400000, vaddress / 0x1000 % 0x400;
      ghost var p := vaddress / PAGE_SIZE;
      ghost var before := dir[..];
      raddress := 0;
      if dir[d] != [] {
        raddress := dir[d][t];
        assert raddress == Ptes()[p];
        WalkUpdate(before, p, 0, dir[d]);
        dir[d] := dir[d][t := 0];
        assert dir[..] == before[d := dir[d]];
      } else {
        assert Ptes()[p] == 0;
      }
    }
  }
}
