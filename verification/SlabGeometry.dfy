/** How a slab page is divided: sizes, block positions and the way back from a pointer. */
module SlabGeometry {
  import opened Arithmetic

  /** The units of pageSize / maxBits bytes that an object needs. */
  function Units(pageSize: nat, maxBits: nat, size: nat): nat
    requires 0 < maxBits <= pageSize
  {
    var unit := pageSize / maxBits;
    size / unit + if size % unit > 0 then 1 else 0
  }

  /** cache->map_bits: the number of blocks, made even; block 0 is the header's. */
  function MapBits(pageSize: nat, maxBits: nat, size: nat): nat
    requires 0 < maxBits <= pageSize && Units(pageSize, maxBits, size) > 0
  {
    Even(maxBits / Units(pageSize, maxBits, size))
  }

  function Even(n: nat): nat {
    n - n % 2
  }

  lemma UnitsPositive(pageSize: nat, maxBits: nat, size: nat)
    requires 0 < maxBits <= pageSize
    ensures pageSize / maxBits > 0
    ensures Units(pageSize, maxBits, size) > 0 <==> size > 0
    ensures size <= Units(pageSize, maxBits, size) * (pageSize / maxBits)
  {
    DivAtLeast(pageSize, maxBits, 1);
    var unit := pageSize / maxBits;
    assert size == unit * (size / unit) + size % unit;
    if size / unit == 0 {
      assert size % unit == size;
    }
    assert size <= (size / unit + if size % unit > 0 then 1 else 0) * unit;
  }

  lemma Rotate(a: nat, b: nat, c: nat)
    ensures a * b * c == b * c * a
  {
    assert a * (b * c) == a * b * c;
  }

  /** For every page size and map width: an object fits its block, and the blocks fit the page. */
  lemma BlocksFit(pageSize: nat, maxBits: nat, size: nat)
    requires 0 < maxBits <= pageSize && Units(pageSize, maxBits, size) > 0
    requires MapBits(pageSize, maxBits, size) > 0
    ensures size <= pageSize / MapBits(pageSize, maxBits, size)
    ensures MapBits(pageSize, maxBits, size) * (pageSize / MapBits(pageSize, maxBits, size)) <= pageSize
  {
    UnitsPositive(pageSize, maxBits, size);
    var units, unit, bits := Units(pageSize, maxBits, size), pageSize / maxBits, MapBits(pageSize, maxBits, size);
    DivTimes(maxBits, units);
    MulMono(bits, maxBits / units, units);
    assert bits * units <= maxBits;
    MulMono(bits * units, maxBits, unit);
    DivTimes(pageSize, maxBits);
    Rotate(bits, units, unit);
    DivAtLeast(pageSize, bits, units * unit);
    DivTimes(pageSize, bits);
  }

  /** And no two more would: the number of blocks is the greatest even one for as many units as the object needs. */
  lemma MostBlocks(pageSize: nat, maxBits: nat, size: nat, units: nat)
    requires 0 < maxBits <= pageSize && 0 < units
    requires (units - 1) * (pageSize / maxBits) < size <= units * (pageSize / maxBits)
    ensures Units(pageSize, maxBits, size) == units
    ensures var bits := MapBits(pageSize, maxBits, size); bits % 2 == 0 && bits * units <= maxBits < (bits + 2) * units
  {
    UnitsPositive(pageSize, maxBits, size);
    LeastUnits(pageSize / maxBits, size, units);
    MostEven(maxBits, units);
  }

  lemma MostEven(n: nat, d: nat)
    requires d > 0
    ensures Even(n / d) % 2 == 0 && Even(n / d) * d <= n < (Even(n / d) + 2) * d
  {
    var q := n / d;
    DivTimes(n, d);
    MulMono(Even(q), q, d);
    MulMono(q + 1, Even(q) + 2, d);
    assert n == q * d + n % d;
    assert (q + 1) * d == q * d + d;
  }

  lemma LeastUnits(unit: nat, size: nat, units: nat)
    requires unit > 0 && 0 < units && (units - 1) * unit < size <= units * unit
    ensures size / unit + (if size % unit > 0 then 1 else 0) == units
  {
    if size == units * unit {
      DivUnique(size, unit, units, 0);
      ModUnique(size, unit, units, 0);
    } else {
      var rest := size - (units - 1) * unit;
      assert rest < unit by {
        assert units * unit == (units - 1) * unit + unit;
      }
      DivUnique(size, unit, units - 1, rest);
      ModUnique(size, unit, units - 1, rest);
    }
  }

  /** Masking and dividing recover the page and the block from any address inside a block. */
  lemma SlotRecovered(pageSize: nat, bits: nat, page: nat, k: nat, offset: nat)
    requires 0 < bits <= pageSize && page % pageSize == 0
    requires k < bits && offset < pageSize / bits
    ensures var ptr := page + k * (pageSize / bits) + offset;
      && ptr - ptr % pageSize == page
      && (ptr - page) / (pageSize / bits) == k
  {
    var block := pageSize / bits;
    var inside := k * block + offset;
    MulMono(k + 1, bits, block);
    DivTimes(pageSize, bits);
    assert inside < (k + 1) * block <= pageSize;
    ModUnique(page + inside, pageSize, page / pageSize, inside);
    DivUnique(inside, block, k, offset);
  }

  const PAGE: nat := 0x1000
  const MAX_BITS: nat := 64

  /** With the kernel's constants a slab has at least four blocks exactly for objects of 1 to 1024 bytes. */
  lemma FourBlocks(size: nat)
    requires Units(PAGE, MAX_BITS, size) > 0
    ensures MapBits(PAGE, MAX_BITS, size) >= 4 <==> size <= 1024
    ensures MapBits(PAGE, MAX_BITS, size) == 2 <==> 1024 < size <= 2048
    ensures MapBits(PAGE, MAX_BITS, size) == 0 <==> size > 2048
    ensures MapBits(PAGE, MAX_BITS, size) <= 64
  {
    var units := Units(PAGE, MAX_BITS, size);
    UnitsPositive(PAGE, MAX_BITS, size);
    assert units <= 16 <==> size <= 1024;
    assert units <= 32 <==> size <= 2048;
    if units <= 16 {
      DivAtLeast(64, units, 4);
    } else if units <= 32 {
      DivAtLeast(64, units, 2);
      assert 64 / units < 4 by { if 64 / units >= 4 { MulMono(4, 64 / units, units); DivTimes(64, units); } }
    } else {
      assert 64 / units < 2 by { if 64 / units >= 2 { MulMono(2, 64 / units, units); DivTimes(64, units); } }
    }
    assert 64 / units <= 64 by { DivTimes(64, units); MulMono(1, units, 64 / units); }
  }
}
