/** Reading a file of a FAT volume: the next cluster from the table, and the bytes of the chain. */
module FatFs {
  import opened Wrappers
  import Arithmetic

  type byte = b: int | 0 <= b < 256

  const ERROR_IS_DIRECTORY: int := 4
  const ERROR_NOT_FOUND: int := 6

  datatype FatType = FAT12 | FAT16 | FAT32 | Unknown

  /** A volume as its BIOS parameter block describes it, and the bytes of its device. */
  datatype Volume = Volume(
    kind: FatType,
    bytesPerSect: nat,
    sectPerClus: nat,
    reserved: nat,
    fats: nat,
    sectsPerFat: nat,
    sectsPerFat32: nat,
    dirents: nat,
    rootClus: nat,
    disk: nat -> byte,
    beyond: byte)             // what lies behind the buffers that are read into
  {
    predicate Valid() {
      bytesPerSect > 0 && sectPerClus > 0
    }

    function ClusterSize(): (n: nat)
      requires Valid()
      ensures n > 0
    {
      Arithmetic.MulMono(1, sectPerClus, bytesPerSect);
      bytesPerSect * sectPerClus
    }
  }

  /** Arithmetic on unsigned. */
  function U32(x: int): nat {
    x % 0x1_0000_0000
  }

  // ---------- The table ----------

  /** Byte j of a window of a cluster's size, read from a sector on. */
  function WindowByte(v: Volume, sector: nat, j: nat): byte
    requires v.Valid()
  {
    if j < v.ClusterSize() then v.disk(U32(sector * v.bytesPerSect) + j) else v.beyond
  }

  /** The place of a cluster's entry in the table. */
  function FatOffset(kind: FatType, cluster: nat): nat {
    match kind
    case FAT12 => U32(cluster + cluster / 2)
    case FAT16 => U32(cluster * 2)
    case _ => U32(cluster * 4)
  }

  function EntryByte(v: Volume, cluster: nat, j: nat): byte
    requires v.Valid()
  {
    var offset := FatOffset(v.kind, cluster);
    WindowByte(v, U32(v.reserved + offset / v.ClusterSize()), offset % v.ClusterSize() + j)
  }

  /** fatfs_get_next_cluster. The table value is kept in 16 bits, of a FAT32 entry too. */
  function Next(v: Volume, cluster: nat): nat
    requires v.Valid()
  {
    var low: int, high: int := EntryByte(v, cluster, 0), EntryByte(v, cluster, 1);
    match v.kind
    case FAT12 => if cluster % 2 == 1 then (low + 0x100 * high) / 0x10 else (low + 0x100 * high) % 0x1000
    case FAT16 => low + 0x100 * high
    case FAT32 =>
      var third: int, fourth: int := EntryByte(v, cluster, 2), EntryByte(v, cluster, 3);
      (low + 0x100 * high + 0x1_0000 * third + 0x100_0000 * fourth) % 0x1000_0000 % 0x1_0000
    case Unknown => 0xffff_ffff
  }

  /** is_last_cluster */
  predicate IsLast(kind: FatType, cluster: nat) {
    match kind
    case FAT12 => cluster >= 0xff7
    case FAT16 => cluster >= 0xfff7
    case FAT32 => cluster >= 0x0fff_fff7
    case Unknown => true
  }

  /** The sector of a cluster's data. */
  function Sector(v: Volume, cluster: nat): nat
    requires v.Valid()
  {
    match v.kind
    case FAT32 => U32((cluster - v.rootClus) * v.sectPerClus + (v.reserved + v.fats * v.sectsPerFat32))
    case _ =>
      var data := v.reserved + v.fats * v.sectsPerFat;
      if cluster > 2 then U32((cluster - 2) * v.sectPerClus + data + v.dirents * 32 / v.bytesPerSect) else U32(data)
  }

  // ---------- Packed tables ----------

  /** Byte j of a FAT12 table: two entries make three bytes. */
  function Packed12(fat: seq<nat>, j: nat): nat
    requires j / 3 * 2 + 1 < |fat|
  {
    var even, odd := fat[j / 3 * 2], fat[j / 3 * 2 + 1];
    match j % 3
    case 0 => even % 0x100
    case 1 => even / 0x100 + odd % 0x10 * 0x10
    case _ => odd / 0x10
  }

  ghost predicate Holds12(v: Volume, fat: seq<nat>)
    requires v.Valid()
  {
    && v.kind == FAT12 && |fat| % 2 == 0 && v.reserved * v.bytesPerSect + |fat| * 2 < 0x1_0000_0000
    && (forall i | 0 <= i < |fat| :: fat[i] < 0x1000)
    && forall j: nat | j / 3 * 2 + 1 < |fat| :: v.disk(v.reserved * v.bytesPerSect + j) == Packed12(fat, j)
  }

  /** The window starts where the entry's part of the table does. */
  predicate InWindow(v: Volume, cluster: nat)
    requires v.Valid()
  {
    v.sectPerClus == 1 || FatOffset(v.kind, cluster) < v.ClusterSize()
  }

  /** The entry has bytes in this window and in the next. */
  predicate Straddles(v: Volume, cluster: nat)
    requires v.Valid()
  {
    FatOffset(v.kind, cluster) % v.ClusterSize() + 1 == v.ClusterSize()
  }

  /** The sector step is right exactly in the first window and on volumes of one sector per cluster. */
  lemma WindowStart(v: Volume, offset: nat)
    requires v.Valid()
    ensures (v.reserved + offset / v.ClusterSize()) * v.bytesPerSect + offset % v.ClusterSize() == v.reserved * v.bytesPerSect + offset
      <==> v.sectPerClus == 1 || offset < v.ClusterSize()
  {
    var size, q := v.ClusterSize(), offset / v.ClusterSize();
    assert offset == q * size + offset % size;
    assert (v.reserved + q) * v.bytesPerSect == v.reserved * v.bytesPerSect + q * v.bytesPerSect;
    if offset < size {
      Arithmetic.DivUnique(offset, size, 0, offset);
    } else {
      Arithmetic.DivAtLeast(offset, size, 1);
      if v.sectPerClus != 1 {
        assert size > v.bytesPerSect by {
          Arithmetic.MulMono(2, v.sectPerClus, v.bytesPerSect);
        }
        Less(v.bytesPerSect, size, q);
      }
    }
  }

  lemma Less(a: nat, b: nat, q: nat)
    requires a < b && q >= 1
    ensures q * a < q * b
  {
  }

  /** Where the window is right, the j-th byte of an entry is read from its place unless it lies behind the window. */
  lemma EntryByteAt(v: Volume, cluster: nat, j: nat, place: nat)
    requires v.Valid() && InWindow(v, cluster)
    requires v.reserved * v.bytesPerSect + FatOffset(v.kind, cluster) < 0x1_0000_0000
    requires place == v.reserved * v.bytesPerSect + FatOffset(v.kind, cluster) + j
    ensures EntryByte(v, cluster, j)
      == if FatOffset(v.kind, cluster) % v.ClusterSize() + j < v.ClusterSize() then v.disk(place) else v.beyond
  {
    hide FatOffset, Volume.ClusterSize, U32;
    var offset, size := FatOffset(v.kind, cluster), v.ClusterSize();
    var sector := v.reserved + offset / size;
    WindowStart(v, offset);
    AtLeast(sector, v.bytesPerSect);
    Small(sector);
    Small(sector * v.bytesPerSect);
    assert sector * v.bytesPerSect + (offset % size + j) == place;
  }

  lemma AtLeast(a: nat, b: nat)
    requires b > 0
    ensures a <= a * b
  {
  }

  lemma Small(x: nat)
    requires x < 0x1_0000_0000
    ensures U32(x) == x
  {
  }

  lemma Unpack12(even: nat, odd: nat)
    requires even < 0x1000 && odd < 0x1000
    ensures (even % 0x100 + 0x100 * (even / 0x100 + odd % 0x10 * 0x10)) % 0x1000 == even
    ensures (even / 0x100 + odd % 0x10 * 0x10 + 0x100 * (odd / 0x10)) / 0x10 == odd
  {
  }

  lemma Packed12At(fat: seq<nat>, k: nat)
    requires 2 * k + 1 < |fat|
    ensures Packed12(fat, 3 * k) == fat[2 * k] % 0x100
    ensures Packed12(fat, 3 * k + 1) == fat[2 * k] / 0x100 + fat[2 * k + 1] % 0x10 * 0x10
    ensures Packed12(fat, 3 * k + 2) == fat[2 * k + 1] / 0x10
  {
  }

  /** Unpacking gives back every entry that was packed, whatever lies behind the buffer, unless the entry straddles windows. */
  lemma Fat12Decodes(v: Volume, fat: seq<nat>, cluster: nat)
    requires v.Valid() && Holds12(v, fat) && cluster < |fat| && InWindow(v, cluster)
    ensures (forall b: byte :: Next(v.(beyond := b), cluster) == fat[cluster]) <==> !Straddles(v, cluster)
  {
    if Straddles(v, cluster) {
      StraddlersDiffer(v, fat, cluster);
    } else {
      forall b: byte
        ensures Next(v.(beyond := b), cluster) == fat[cluster]
      {
        Fat12DecodesWhole(v.(beyond := b), fat, cluster);
      }
    }
  }

  lemma Place12(v: Volume, fat: seq<nat>, cluster: nat)
    requires v.Valid() && Holds12(v, fat) && cluster < |fat|
    ensures v.kind == FAT12 && FatOffset(FAT12, cluster) == 3 * (cluster / 2) + cluster % 2
    ensures v.reserved * v.bytesPerSect + 3 * (cluster / 2) + cluster % 2 < 0x1_0000_0000
    ensures 2 * (cluster / 2) + 1 < |fat| && fat[2 * (cluster / 2)] < 0x1000 && fat[2 * (cluster / 2) + 1] < 0x1000
  {
    Small(cluster + cluster / 2);
  }

  lemma StraddlersDiffer(v: Volume, fat: seq<nat>, cluster: nat)
    requires v.Valid() && Holds12(v, fat) && cluster < |fat| && InWindow(v, cluster) && Straddles(v, cluster)
    ensures Next(v.(beyond := 0), cluster) != Next(v.(beyond := 1), cluster)
  {
    hide EntryByte, Holds12, FatOffset;
    Place12(v, fat, cluster);
    var one, two, place := v.(beyond := 0), v.(beyond := 1), v.reserved * v.bytesPerSect + 3 * (cluster / 2) + cluster % 2;
    EntryByteAt(one, cluster, 0, place);
    EntryByteAt(one, cluster, 1, place + 1);
    EntryByteAt(two, cluster, 0, place);
    EntryByteAt(two, cluster, 1, place + 1);
    Decode12(EntryByte(one, cluster, 0), 0, 1);
  }

  lemma Decode12(low: nat, a: nat, b: nat)
    requires low < 0x100 && a < b < 0x10
    ensures (low + 0x100 * a) / 0x10 != (low + 0x100 * b) / 0x10 && (low + 0x100 * a) % 0x1000 != (low + 0x100 * b) % 0x1000
  {
  }

  lemma Fat12DecodesWhole(v: Volume, fat: seq<nat>, cluster: nat)
    requires v.Valid() && Holds12(v, fat) && cluster < |fat| && InWindow(v, cluster) && !Straddles(v, cluster)
    ensures Next(v, cluster) == fat[cluster]
  {
    hide Packed12, EntryByte, FatOffset, Holds12;
    var k, r := cluster / 2, cluster % 2;
    var place := v.reserved * v.bytesPerSect + 3 * k + r;
    Place12(v, fat, cluster);
    Packed12At(fat, k);
    Unpack12(fat[2 * k], fat[2 * k + 1]);
    HeldByte(v, fat, k, r, place);
    HeldByte(v, fat, k, r + 1, place + 1);
    EntryByteAt(v, cluster, 0, place);
    EntryByteAt(v, cluster, 1, place + 1);
  }

  lemma HeldByte(v: Volume, fat: seq<nat>, k: nat, r: nat, place: nat)
    requires v.Valid() && Holds12(v, fat) && 2 * k + 1 < |fat| && r < 3
    requires place == v.reserved * v.bytesPerSect + 3 * k + r
    ensures (3 * k + r) / 3 == k && v.disk(place) == Packed12(fat, 3 * k + r)
  {
    Arithmetic.DivUnique(3 * k + r, 3, k, r);
    var j := 3 * k + r;
    assert v.disk(v.reserved * v.bytesPerSect + j) == Packed12(fat, j);
    assert v.reserved * v.bytesPerSect + j == place;
  }

  ghost predicate Holds16(v: Volume, fat: seq<nat>)
    requires v.Valid()
  {
    && v.kind == FAT16 && v.bytesPerSect % 2 == 0 && v.reserved * v.bytesPerSect + |fat| * 2 < 0x1_0000_0000
    && forall i | 0 <= i < |fat| :: Entry16At(v, fat, i)
  }

  ghost predicate Entry16At(v: Volume, fat: seq<nat>, i: nat)
    requires i < |fat|
  {
    var at := v.reserved * v.bytesPerSect + i * 2;
    fat[i] < 0x1_0000 && v.disk(at) == fat[i] % 0x100 && v.disk(at + 1) == fat[i] / 0x100
  }

  lemma EvenWindow(size: nat, offset: nat)
    requires size > 0 && size % 2 == 0 && offset % 2 == 0
    ensures offset % size + 1 < size
  {
    var q, half := offset / size, size / 2;
    assert offset == q * size + offset % size && size == 2 * half;
    assert q * size == 2 * (q * half);
  }

  lemma EvenSize(v: Volume)
    requires v.Valid() && v.bytesPerSect % 2 == 0
    ensures v.ClusterSize() % 2 == 0
  {
    var half := v.bytesPerSect / 2;
    assert v.bytesPerSect == 2 * half;
    assert v.bytesPerSect * v.sectPerClus == 2 * (half * v.sectPerClus);
  }

  /** An entry of 16 bits is always whole. */
  lemma Fat16Decodes(v: Volume, fat: seq<nat>, cluster: nat)
    requires v.Valid() && Holds16(v, fat) && cluster < |fat| && InWindow(v, cluster)
    ensures Next(v, cluster) == fat[cluster]
  {
    assert Entry16At(v, fat, cluster);
    Small(cluster * 2);
    assert FatOffset(FAT16, cluster) == cluster * 2;
    EvenSize(v);
    EvenWindow(v.ClusterSize(), cluster * 2);
    hide U32, EntryByte, FatOffset, Volume.ClusterSize;
    var place := v.reserved * v.bytesPerSect + cluster * 2;
    EntryByteAt(v, cluster, 0, place);
    EntryByteAt(v, cluster, 1, place + 1);
  }

  ghost predicate Holds32(v: Volume, fat: seq<nat>)
    requires v.Valid()
  {
    && v.kind == FAT32 && v.bytesPerSect % 4 == 0 && v.reserved * v.bytesPerSect + |fat| * 4 < 0x1_0000_0000
    && forall i | 0 <= i < |fat| :: Entry32At(v, fat, i)
  }

  ghost predicate Entry32At(v: Volume, fat: seq<nat>, i: nat)
    requires i < |fat|
  {
    var at := v.reserved * v.bytesPerSect + i * 4;
    && fat[i] < 0x1_0000_0000
    && v.disk(at) == fat[i] % 0x100 && v.disk(at + 1) == fat[i] / 0x100 % 0x100
    && v.disk(at + 2) == fat[i] / 0x1_0000 % 0x100 && v.disk(at + 3) == fat[i] / 0x100_0000
  }

  lemma WholeWindow(v: Volume, offset: nat)
    requires v.Valid() && v.bytesPerSect % 4 == 0 && offset % 4 == 0
    ensures offset % v.ClusterSize() + 3 < v.ClusterSize()
  {
    var size, quarter := v.ClusterSize(), v.bytesPerSect / 4;
    assert v.bytesPerSect == 4 * quarter;
    assert size == 4 * (quarter * v.sectPerClus);
    MultipleOfFour(size, offset, quarter * v.sectPerClus);
  }

  lemma MultipleOfFour(size: nat, offset: nat, quarter: nat)
    requires size > 0 && size == 4 * quarter && offset % 4 == 0
    ensures offset % size + 3 < size
  {
    var q := offset / size;
    assert offset == q * size + offset % size;
    assert q * size == 4 * (q * quarter);
  }

  lemma Held32(v: Volume, fat: seq<nat>, cluster: nat, place: nat)
    requires v.Valid() && Holds32(v, fat) && cluster < |fat| && place == v.reserved * v.bytesPerSect + cluster * 4
    ensures v.kind == FAT32 && v.bytesPerSect % 4 == 0 && FatOffset(FAT32, cluster) == cluster * 4 && place < 0x1_0000_0000
    ensures v.disk(place) == fat[cluster] % 0x100 && v.disk(place + 1) == fat[cluster] / 0x100 % 0x100
    ensures v.disk(place + 2) == fat[cluster] / 0x1_0000 % 0x100 && v.disk(place + 3) == fat[cluster] / 0x100_0000
  {
    assert Entry32At(v, fat, cluster);
    Small(cluster * 4);
  }

  /** The entry's low 28 bits, as the specification has it, cut to the 16 that are kept. */
  lemma Fat32Cut(v: Volume, fat: seq<nat>, cluster: nat)
    requires v.Valid() && Holds32(v, fat) && cluster < |fat| && InWindow(v, cluster)
    ensures Next(v, cluster) == fat[cluster] % 0x1000_0000 % 0x1_0000
  {
    hide EntryByte, FatOffset, Volume.ClusterSize, Holds32, InWindow;
    var place := v.reserved * v.bytesPerSect + cluster * 4;
    Held32(v, fat, cluster, place);
    WholeWindow(v, cluster * 4);
    EntryByteAt(v, cluster, 0, place);
    EntryByteAt(v, cluster, 1, place + 1);
    EntryByteAt(v, cluster, 2, place + 2);
    EntryByteAt(v, cluster, 3, place + 3);
    FourBytes(fat[cluster]);
  }

  lemma FourBytes(n: nat)
    ensures n == n % 0x100 + 0x100 * (n / 0x100 % 0x100) + 0x1_0000 * (n / 0x1_0000 % 0x100) + 0x100_0000 * (n / 0x100_0000)
  {
    DivTwice(n, 0x100);
    DivTwice(n, 0x1_0000);
  }

  lemma DivTwice(n: nat, d: nat)
    requires d > 0
    ensures n / d / 0x100 == n / (0x100 * d)
    ensures n / d == n / d % 0x100 + 0x100 * (n / d / 0x100)
  {
    var q, r := n / d, n % d;
    assert n == q * d + r && q == q / 0x100 * 0x100 + q % 0x100;
    var rest := q % 0x100 * d + r;
    Arithmetic.MulMono(q % 0x100 + 1, 0x100, d);
    assert n == q / 0x100 * (0x100 * d) + rest && rest < 0x100 * d by {
      assert q / 0x100 * (0x100 * d) == q / 0x100 * 0x100 * d;
    }
    Arithmetic.DivUnique(n, 0x100 * d, q / 0x100, rest);
  }

  /** A FAT32 entry is read back exactly if its 28 bits are no more than 16. */
  lemma Fat32Decodes(v: Volume, fat: seq<nat>, cluster: nat)
    requires v.Valid() && Holds32(v, fat) && cluster < |fat| && InWindow(v, cluster)
    ensures Next(v, cluster) == fat[cluster] % 0x1000_0000 <==> fat[cluster] % 0x1000_0000 < 0x1_0000
  {
    hide Next, Holds32;
    Fat32Cut(v, fat, cluster);
  }

  /** A table in which cluster 2 is followed by cluster 0x10000: the code goes on at cluster 0. */
  lemma Fat32EntryLost() returns (v: Volume, fat: seq<nat>)
    ensures v.Valid() && Holds32(v, fat) && fat == [0, 0, 0x1_0000] && InWindow(v, 2)
    ensures Next(v, 2) == 0
  {
    v := Volume(FAT32, 512, 1, 32, 2, 0, 1024, 0, 2, j => if j == 32 * 512 + 10 then 1 else 0, 0);
    fat := [0, 0, 0x1_0000];
    forall i | 0 <= i < 3
      ensures Entry32At(v, fat, i)
    {
    }
    assert v.sectPerClus == 1;
    Fat32Cut(v, fat, 2);
  }

  /** The end of a FAT32 chain is never seen, as 16 bits do not hold its mark. */
  lemma Fat32NeverEnds(v: Volume, cluster: nat)
    requires v.Valid() && v.kind == FAT32
    ensures !IsLast(v.kind, Next(v, cluster)) && Next(v, cluster) < 0x1_0000
  {
  }

  // ---------- Where a cluster's data is ----------

  /** The sectors before cluster 2 of a FAT12 or FAT16 volume: the root directory takes whole sectors. */
  function FirstDataSector(v: Volume): nat
    requires v.Valid()
  {
    v.reserved + v.fats * v.sectsPerFat + (v.dirents * 32 + (v.bytesPerSect - 1)) / v.bytesPerSect
  }

  lemma RoundUp(a: nat, b: nat)
    requires b > 0
    ensures (a + (b - 1)) / b == a / b + if a % b == 0 then 0 else 1
  {
    var q, r := a / b, a % b;
    assert a == q * b + r;
    if r == 0 {
      Arithmetic.DivUnique(a + (b - 1), b, q, b - 1);
    } else {
      assert a + (b - 1) == (q + 1) * b + (r - 1) by {
        assert (q + 1) * b == q * b + b;
      }
      Arithmetic.DivUnique(a + (b - 1), b, q + 1, r - 1);
    }
  }

  /** The sector is the cluster's exactly if the root directory fills its sectors and, for cluster 2, is not there at all:
      cluster 2 is taken for the root directory. */
  lemma SectorIsRight(v: Volume, cluster: nat)
    requires v.Valid() && (v.kind == FAT12 || v.kind == FAT16) && cluster >= 2
    requires FirstDataSector(v) + (cluster - 2) * v.sectPerClus < 0x1_0000_0000
    ensures Sector(v, cluster) == FirstDataSector(v) + (cluster - 2) * v.sectPerClus
      <==> v.dirents * 32 % v.bytesPerSect == 0 && (cluster > 2 || v.dirents == 0)
  {
    hide FirstDataSector, U32;
    RootSectors(v);
    var data, step := v.reserved + v.fats * v.sectsPerFat, (cluster - 2) * v.sectPerClus;
    if cluster == 2 {
      assert step == 0;
      Small(data);
    } else {
      Small(step + data + v.dirents * 32 / v.bytesPerSect);
    }
  }

  lemma RootSectors(v: Volume)
    requires v.Valid()
    ensures var root, size := v.dirents * 32, v.bytesPerSect;
      && FirstDataSector(v) == v.reserved + v.fats * v.sectsPerFat + root / size + (if root % size == 0 then 0 else 1)
      && (root / size == 0 && root % size == 0 <==> v.dirents == 0)
  {
    var root, size := v.dirents * 32, v.bytesPerSect;
    RoundUp(root, size);
    assert root == root / size * size + root % size;
  }

  /** On FAT32 the sector is the cluster's exactly if the root directory begins at cluster 2. */
  lemma Fat32SectorIsRight(v: Volume, cluster: nat)
    requires v.Valid() && v.kind == FAT32 && cluster >= v.rootClus && cluster >= 2
    requires (cluster - v.rootClus) * v.sectPerClus + v.reserved + v.fats * v.sectsPerFat32 < 0x1_0000_0000
    ensures Sector(v, cluster) == v.reserved + v.fats * v.sectsPerFat32 + (cluster - 2) * v.sectPerClus <==> v.rootClus == 2
  {
    var a, b := cluster - v.rootClus, cluster - 2;
    Small(a * v.sectPerClus + (v.reserved + v.fats * v.sectsPerFat32));
    if a < b {
      LessTimes(a, b, v.sectPerClus);
    } else if b < a {
      LessTimes(b, a, v.sectPerClus);
    }
  }

  lemma LessTimes(a: nat, b: nat, q: nat)
    requires a < b && q >= 1
    ensures a * q < b * q
  {
    Less(a, b, q);
  }

  // ---------- The chain ----------

  /** The n-th cluster from the first on. */
  function ClusterAt(v: Volume, first: nat, n: nat): nat
    requires v.Valid()
  {
    if n == 0 then first else Next(v, ClusterAt(v, first, n - 1))
  }

  /** The byte at a position of a file that begins at a cluster. */
  function ByteAt(v: Volume, first: nat, position: nat): byte
    requires v.Valid()
  {
    var cluster := ClusterAt(v, first, position / v.ClusterSize());
    v.disk(U32(Sector(v, cluster) * v.bytesPerSect) + position % v.ClusterSize())
  }

  /** The chain has so many clusters. */
  ghost predicate ChainLength(v: Volume, first: nat, n: nat)
    requires v.Valid()
  {
    IsLast(v.kind, ClusterAt(v, first, n)) && forall m | 0 <= m < n :: !IsLast(v.kind, ClusterAt(v, first, m))
  }

  /** Behind the byte at this position the chain has ended. */
  predicate EndsBehind(v: Volume, first: nat, position: nat)
    requires v.Valid()
  {
    (position + 1) % v.ClusterSize() == 0 && IsLast(v.kind, ClusterAt(v, first, (position + 1) / v.ClusterSize()))
  }

  /** How far the loop gets from byte k on. */
  ghost function Reads(v: Volume, first: nat, offset: nat, bound: nat, k: nat): (n: nat)
    requires v.Valid() && k <= bound
    ensures k <= n <= bound && (n < bound ==> EndsBehind(v, first, offset + n))
    ensures forall p | offset + k <= p < offset + n :: !EndsBehind(v, first, p)
    decreases bound - k
  {
    hide EndsBehind;
    if k == bound || EndsBehind(v, first, offset + k) then k else Reads(v, first, offset, bound, k + 1)
  }

  lemma NextPosition(position: nat, size: nat)
    requires size > 0
    ensures (position + 1) / size == position / size + (if (position + 1) % size == 0 then 1 else 0)
  {
    var q, r := position / size, position % size;
    assert position == q * size + r;
    if r + 1 == size {
      assert position + 1 == (q + 1) * size + 0 by {
        assert (q + 1) * size == q * size + size;
      }
      Arithmetic.DivUnique(position + 1, size, q + 1, 0);
      Arithmetic.ModUnique(position + 1, size, q + 1, 0);
    } else {
      Arithmetic.DivUnique(position + 1, size, q, r + 1);
      Arithmetic.ModUnique(position + 1, size, q, r + 1);
    }
  }

  /** Positions count on from an offset as they do from its place in its cluster. */
  lemma SamePlace(offset: nat, k: nat, size: nat)
    requires size > 0
    ensures (offset % size + k) % size == (offset + k) % size
  {
    assert offset == offset / size * size + offset % size;
    Arithmetic.ModAdd(offset % size + k, size, offset / size);
  }

  lemma ClusterSteps(v: Volume, first: nat, n: nat)
    requires v.Valid()
    ensures ClusterAt(v, first, 0) == first && ClusterAt(v, first, n + 1) == Next(v, ClusterAt(v, first, n))
  {
  }

  /** From one position to the next. */
  lemma Step(v: Volume, first: nat, position: nat)
    requires v.Valid()
    ensures var cluster, ends := ClusterAt(v, first, position / v.ClusterSize()), (position + 1) % v.ClusterSize() == 0;
      && ByteAt(v, first, position) == v.disk(U32(Sector(v, cluster) * v.bytesPerSect) + position % v.ClusterSize())
      && (position + 1) / v.ClusterSize() == position / v.ClusterSize() + (if ends then 1 else 0)
      && ClusterAt(v, first, position / v.ClusterSize() + if ends then 1 else 0) == (if ends then Next(v, cluster) else cluster)
      && (EndsBehind(v, first, position) <==> ends && IsLast(v.kind, Next(v, cluster)))
  {
    hide Volume.ClusterSize, Next, U32, Sector;
    NextPosition(position, v.ClusterSize());
  }

  lemma {:induction false} InChain(size: nat, n: nat, position: nat)
    requires size > 0
    ensures position < n * size <==> position / size < n
  {
    assert position == position / size * size + position % size;
    if position / size < n {
      Arithmetic.MulMono(position / size + 1, n, size);
    } else {
      Arithmetic.MulMono(n, position / size, size);
    }
  }

  /** Inside the chain only its last byte is followed by the end. */
  lemma EndIsLast(v: Volume, first: nat, n: nat, p: nat)
    requires v.Valid() && ChainLength(v, first, n) && p < n * v.ClusterSize()
    ensures EndsBehind(v, first, p) <==> p + 1 == n * v.ClusterSize()
  {
    hide ClusterAt, Volume.ClusterSize;
    var size := v.ClusterSize();
    assert p + 1 == (p + 1) / size * size + (p + 1) % size;
    if p + 1 == n * size {
      Arithmetic.DivUnique(p + 1, size, n, 0);
      Arithmetic.ModUnique(p + 1, size, n, 0);
    } else {
      InChain(size, n, p + 1);
    }
  }

  lemma StartsInside(v: Volume, first: nat, n: nat, offset: nat)
    requires v.Valid() && ChainLength(v, first, n) && offset < n * v.ClusterSize()
    ensures !IsLast(v.kind, ClusterAt(v, first, offset / v.ClusterSize()))
  {
    hide ClusterAt, Volume.ClusterSize;
    InChain(v.ClusterSize(), n, offset);
  }

  /** The loop stops at the bound, or one byte before the end of the chain. */
  lemma ReadsAre(v: Volume, first: nat, n: nat, offset: nat, bound: nat)
    requires v.Valid() && ChainLength(v, first, n) && offset < n * v.ClusterSize()
    ensures var room := n * v.ClusterSize() - offset;
      Reads(v, first, offset, bound, 0) == if bound < room then bound else room - 1
  {
    hide ChainLength, EndsBehind, Volume.ClusterSize;
    var got, end := Reads(v, first, offset, bound, 0), n * v.ClusterSize() - 1;
    EndIsLast(v, first, n, end);
    if offset + got < end && got < bound {
      EndIsLast(v, first, n, offset + got);
    }
  }

  // ---------- A file's chain in the table ----------

  ghost predicate TableIs(v: Volume, fat: seq<nat>)
    requires v.Valid()
  {
    match v.kind
    case FAT12 => Holds12(v, fat)
    case FAT16 => Holds16(v, fat)
    case FAT32 => Holds32(v, fat)
    case Unknown => false
  }

  /** What the table says for a cluster. */
  function TableEntry(kind: FatType, fat: seq<nat>, cluster: nat): nat
    requires cluster < |fat|
  {
    if kind == FAT32 then fat[cluster] % 0x1000_0000 else fat[cluster]
  }

  /** The conditions of the decoding lemmas. */
  ghost predicate Readable(v: Volume, fat: seq<nat>, cluster: nat)
    requires v.Valid()
  {
    && cluster < |fat| && InWindow(v, cluster)
    && (v.kind == FAT12 ==> !Straddles(v, cluster))
    && (v.kind == FAT32 ==> TableEntry(v.kind, fat, cluster) < 0x1_0000)
  }

  lemma NextIsEntry(v: Volume, fat: seq<nat>, cluster: nat)
    requires v.Valid() && TableIs(v, fat) && Readable(v, fat, cluster)
    ensures Next(v, cluster) == TableEntry(v.kind, fat, cluster)
  {
    hide Next, Holds12, Holds16, Holds32, InWindow, Straddles;
    match v.kind
    case FAT12 => Fat12DecodesWhole(v, fat, cluster);
    case FAT16 => Fat16Decodes(v, fat, cluster);
    case FAT32 => Fat32Decodes(v, fat, cluster);
    case Unknown =>
  }

  /** Each cluster of the chain is followed in the table by the next. */
  ghost predicate Linked(v: Volume, fat: seq<nat>, chain: seq<nat>)
    requires v.Valid()
  {
    && TableIs(v, fat) && chain != []
    && forall i | 0 <= i < |chain| - 1 :: Readable(v, fat, chain[i]) && TableEntry(v.kind, fat, chain[i]) == chain[i + 1]
  }

  /** The specification's mark of a bad cluster; the marks of a chain's end lie above it. */
  function BadMark(kind: FatType): nat {
    match kind
    case FAT12 => 0xff7
    case FAT16 => 0xfff7
    case _ => 0x0fff_fff7
  }

  /** The last one is followed by a mark, and no other is a mark itself. */
  ghost predicate Marked(v: Volume, fat: seq<nat>, chain: seq<nat>)
    requires v.Valid()
  {
    && chain != []
    && var last := chain[|chain| - 1];
    && Readable(v, fat, last) && TableEntry(v.kind, fat, last) >= BadMark(v.kind)
    && forall i | 0 <= i < |chain| :: chain[i] < BadMark(v.kind)
  }

  /** The code follows the chain of the table. */
  lemma {:induction false} FollowsTheTable(v: Volume, fat: seq<nat>, chain: seq<nat>, i: nat)
    requires v.Valid() && Linked(v, fat, chain) && i < |chain|
    ensures ClusterAt(v, chain[0], i) == chain[i]
  {
    hide Next, TableIs, Readable;
    if i > 0 {
      FollowsTheTable(v, fat, chain, i - 1);
      assert Readable(v, fat, chain[i - 1]);
      NextIsEntry(v, fat, chain[i - 1]);
    }
  }

  lemma KindKnown(v: Volume, fat: seq<nat>)
    requires v.Valid() && TableIs(v, fat)
    ensures v.kind != Unknown
  {
  }

  /** And sees it end where it does. */
  lemma ChainHasLength(v: Volume, fat: seq<nat>, chain: seq<nat>)
    requires v.Valid() && Linked(v, fat, chain) && Marked(v, fat, chain)
    ensures ChainLength(v, chain[0], |chain|)
  {
    hide Next, TableIs, Readable;
    assert v.kind != Unknown by { KindKnown(v, fat); }
    forall i | 0 <= i < |chain|
      ensures ClusterAt(v, chain[0], i) == chain[i]
    {
      FollowsTheTable(v, fat, chain, i);
    }
    NextIsEntry(v, fat, chain[|chain| - 1]);
    ClusterSteps(v, chain[0], |chain| - 1);
  }

  /** The sector where the specification puts cluster 2. */
  function DataStart(v: Volume): nat
    requires v.Valid()
  {
    if v.kind == FAT32 then v.reserved + v.fats * v.sectsPerFat32 else FirstDataSector(v)
  }

  /** The conditions of the sector lemmas, on a device of less than 4 GiB. */
  predicate SectorKnown(v: Volume, cluster: nat)
    requires v.Valid()
  {
    && cluster >= 2 && v.kind != Unknown && (DataStart(v) + (cluster - 2) * v.sectPerClus) * v.bytesPerSect < 0x1_0000_0000
    && if v.kind == FAT32 then v.rootClus == 2 else v.dirents * 32 % v.bytesPerSect == 0 && (cluster > 2 || v.dirents == 0)
  }

  lemma SectorIsKnown(v: Volume, cluster: nat)
    requires v.Valid() && SectorKnown(v, cluster)
    ensures Sector(v, cluster) == DataStart(v) + (cluster - 2) * v.sectPerClus
    ensures U32(Sector(v, cluster) * v.bytesPerSect) == (DataStart(v) + (cluster - 2) * v.sectPerClus) * v.bytesPerSect
  {
    hide FirstDataSector, Sector, U32;
    var sector := DataStart(v) + (cluster - 2) * v.sectPerClus;
    AtLeast(sector, v.bytesPerSect);
    if v.kind == FAT32 {
      Fat32SectorIsRight(v, cluster);
    } else {
      SectorIsRight(v, cluster);
    }
    Small(sector * v.bytesPerSect);
  }

  /** The byte at a position of a file, where the specification puts it. */
  function FileByte(v: Volume, chain: seq<nat>, position: nat): byte
    requires v.Valid() && position / v.ClusterSize() < |chain| && chain[position / v.ClusterSize()] >= 2
  {
    var cluster := chain[position / v.ClusterSize()];
    v.disk((DataStart(v) + (cluster - 2) * v.sectPerClus) * v.bytesPerSect + position % v.ClusterSize())
  }

  ghost predicate PositionKnown(v: Volume, chain: seq<nat>, position: nat)
    requires v.Valid()
  {
    position / v.ClusterSize() < |chain| && SectorKnown(v, chain[position / v.ClusterSize()])
  }

  lemma ByteIsTheFiles(v: Volume, fat: seq<nat>, chain: seq<nat>, position: nat)
    requires v.Valid() && Linked(v, fat, chain) && PositionKnown(v, chain, position)
    ensures ByteAt(v, chain[0], position) == FileByte(v, chain, position)
  {
    hide Next, Sector, U32, Linked, ClusterAt, Volume.ClusterSize, DataStart;
    FollowsTheTable(v, fat, chain, position / v.ClusterSize());
    SectorIsKnown(v, chain[position / v.ClusterSize()]);
  }

  // ---------- The code ----------

  datatype DirCache = DirCache(archive: bool, clusterLow: nat, clusterHigh: nat, size: nat)
  {
    function First(): nat {
      clusterLow + 0x1_0000 * clusterHigh
    }
  }

  /** The entry's two words are the halves of the file's first cluster. */
  predicate StartsAt(cache: DirCache, first: nat) {
    cache.clusterLow == first % 0x1_0000 && cache.clusterHigh == first / 0x1_0000
  }

  lemma FirstIs(cache: DirCache, first: nat)
    requires StartsAt(cache, first)
    ensures cache.First() == first
  {
  }

  /** The device's read of one cluster. */
  method ReadCluster(v: Volume, cluster: nat, clusbuf: array<byte>)
    requires v.Valid() && clusbuf.Length == v.ClusterSize()
    modifies clusbuf
    ensures forall j | 0 <= j < clusbuf.Length :: clusbuf[j] == v.disk(U32(Sector(v, cluster) * v.bytesPerSect) + j)
  {
    var at := U32(Sector(v, cluster) * v.bytesPerSect);
    for j := 0 to clusbuf.Length
      invariant forall i | 0 <= i < j :: clusbuf[i] == v.disk(at + i)
    {
      clusbuf[j] := v.disk(at + j);
    }
  }

  /** The device's read of a window of the table; a few bytes behind the buffer are shown too. */
  method ReadWindow(v: Volume, sector: nat) returns (table: array<byte>)
    requires v.Valid()
    ensures fresh(table) && table.Length == v.ClusterSize() + 3
    ensures forall i | 0 <= i < table.Length :: table[i] == WindowByte(v, sector, i)
  {
    var clusterSize := v.ClusterSize();
    table := new byte[clusterSize + 3](_ => v.beyond);
    for j := 0 to clusterSize
      invariant forall i | 0 <= i < clusterSize + 3 :: table[i] == if i < j then WindowByte(v, sector, i) else v.beyond
    {
      table[j] := v.disk(U32(sector * v.bytesPerSect) + j);
    }
  }

  /** fatfs_get_next_cluster, and what it does for each type: read a window of the table, then decode the entry. */
  method GetNextCluster(v: Volume, cluster: nat) returns (ret: nat)
    requires v.Valid()
    ensures ret == Next(v, cluster)
  {
    hide WindowByte, U32, Volume.ClusterSize, FatOffset;
    if v.kind == Unknown {
      return 0xffff_ffff;
    }
    var fatOffset := FatOffset(v.kind, cluster);
    var entOffset := fatOffset % v.ClusterSize();
    var fatTable := ReadWindow(v, U32(v.reserved + fatOffset / v.ClusterSize()));
    var low: int, high: int, third: int, fourth: int :=
      fatTable[entOffset + 0], fatTable[entOffset + 1], fatTable[entOffset + 2], fatTable[entOffset + 3];
    assert low == EntryByte(v, cluster, 0) && high == EntryByte(v, cluster, 1);
    assert third == EntryByte(v, cluster, 2) && fourth == EntryByte(v, cluster, 3);
    hide EntryByte;
    if v.kind == FAT12 {
      ret := if cluster % 2 == 1 then (low + 0x100 * high) / 0x10 else (low + 0x100 * high) % 0x1000;
    } else if v.kind == FAT16 {
      ret := low + 0x100 * high;
    } else {
      ret := (low + 0x100 * high + 0x1_0000 * third + 0x100_0000 * fourth) % 0x1000_0000 % 0x1_0000;
    }
  }

  /** How many bytes fatfs_vfs_read hands out, or its error. */
  ghost function ReadResult(v: Volume, cache: Option<DirCache>, length: nat, offset: nat): int
    requires v.Valid()
  {
    if cache.None? then -ERROR_NOT_FOUND
    else if !cache.value.archive then -ERROR_IS_DIRECTORY
    else
      var first, size := cache.value.First(), cache.value.size;
      if offset >= size || IsLast(v.kind, ClusterAt(v, first, offset / v.ClusterSize())) then 0
      else Reads(v, first, offset, if length <= size then length else size, 0)
  }

  /** The loop of fatfs_vfs_read over the bytes, from the cluster that the offset is in. */
  method ReadFrom(v: Volume, start: nat, size: nat, outbuf: array<byte>, length: nat, offset: nat, ghost first: nat) returns (k: nat)
    requires v.Valid() && length <= outbuf.Length && start == ClusterAt(v, first, offset / v.ClusterSize())
    modifies outbuf
    ensures k == Reads(v, first, offset, if length <= size then length else size, 0)
    ensures forall j | 0 <= j < k :: outbuf[j] == ByteAt(v, first, offset + j)
    ensures forall j | k < j < outbuf.Length || length <= j < outbuf.Length :: outbuf[j] == old(outbuf[j])
  {
    hide Next, Sector, U32, ByteAt, EndsBehind, ClusterAt, Volume.ClusterSize;
    var clusterSize, cluster := v.ClusterSize(), start;
    var clusbuf := new byte[clusterSize](_ => 0);
    var i := offset % clusterSize;
    ReadCluster(v, cluster, clusbuf);
    k := 0;
    assert offset + k == offset;
    ghost var bound := if length <= size then length else size;
    while k < length && k < size
      invariant 0 <= k <= bound && i == offset % clusterSize + k
      invariant cluster == ClusterAt(v, first, (offset + k) / clusterSize)
      invariant forall j | 0 <= j < clusterSize :: clusbuf[j] == v.disk(U32(Sector(v, cluster) * v.bytesPerSect) + j)
      invariant Reads(v, first, offset, bound, 0) == Reads(v, first, offset, bound, k)
      invariant forall j | 0 <= j < k :: outbuf[j] == ByteAt(v, first, offset + j)
      invariant forall j | k <= j < outbuf.Length :: outbuf[j] == old(outbuf[j])
    {
      SamePlace(offset, k, clusterSize);
      SamePlace(offset, k + 1, clusterSize);
      Step(v, first, offset + k);
      outbuf[k] := clusbuf[i % clusterSize];
      if (i + 1) % clusterSize == 0 {
        cluster := GetNextCluster(v, cluster);
        if IsLast(v.kind, cluster) {
          break;
        }
        ReadCluster(v, cluster, clusbuf);
      }
      k, i := k + 1, i + 1;
    }
  }

  /** The chain that the table has for a directory entry. */
  ghost predicate ChainOf(v: Volume, fat: seq<nat>, chain: seq<nat>, cache: Option<DirCache>)
    requires v.Valid()
  {
    cache.Some? && Linked(v, fat, chain) && StartsAt(cache.value, chain[0])
  }

  lemma ChainStarts(v: Volume, fat: seq<nat>, chain: seq<nat>, cache: Option<DirCache>)
    requires v.Valid() && ChainOf(v, fat, chain, cache)
    ensures chain != [] && cache.value.First() == chain[0]
  {
    FirstIs(cache.value, chain[0]);
  }

  /** What is read lies inside a chain that ends. */
  lemma ReadStaysInside(v: Volume, fat: seq<nat>, chain: seq<nat>, cache: DirCache, length: nat, offset: nat)
    requires v.Valid() && ChainOf(v, fat, chain, Some(cache)) && Marked(v, fat, chain) && cache.size <= |chain| * v.ClusterSize()
    ensures var ret := ReadResult(v, Some(cache), length, offset); ret > 0 ==> offset + ret <= |chain| * v.ClusterSize()
  {
    hide Linked, Marked, Reads, ChainLength, ClusterAt, Volume.ClusterSize;
    ChainHasLength(v, fat, chain);
    ChainStarts(v, fat, chain, Some(cache));
    if offset < cache.size {
      ReadsAre(v, chain[0], |chain|, offset, if length <= cache.size then length else cache.size);
    }
  }

  /** fatfs_vfs_read: every byte it counts is the file's byte at that position. */
  method VfsRead(v: Volume, cache: Option<DirCache>, outbuf: array<byte>, length: nat, offset: nat,
                 ghost fat: seq<nat>, ghost chain: seq<nat>) returns (ret: int)
    requires v.Valid() && length <= outbuf.Length
    modifies outbuf
    ensures ret == ReadResult(v, cache, length, offset) <= length
    ensures cache.None? ==> ret == -ERROR_NOT_FOUND
    ensures cache.Some? ==> (ret < 0 <==> !cache.value.archive) && (!cache.value.archive ==> ret == -ERROR_IS_DIRECTORY)
    ensures cache.Some? && cache.value.archive && offset >= cache.value.size ==> ret == 0
    ensures ChainOf(v, fat, chain, cache) ==>
      forall j | 0 <= j < ret && PositionKnown(v, chain, offset + j) :: outbuf[j] == FileByte(v, chain, offset + j)
    ensures ChainOf(v, fat, chain, cache) && Marked(v, fat, chain) && cache.value.size <= |chain| * v.ClusterSize() && ret > 0 ==>
      offset + ret <= |chain| * v.ClusterSize()
    ensures forall j | 0 <= j < ret :: outbuf[j] == ByteAt(v, cache.value.First(), offset + j)
    ensures forall j | 0 <= j < length && j > ret :: outbuf[j] == 0
    ensures forall j | length <= j < outbuf.Length :: outbuf[j] == old(outbuf[j])
  {
    hide Next, Sector, U32, ByteAt, EndsBehind, ClusterAt, Volume.ClusterSize, Linked, Marked, PositionKnown, FileByte;
    for j := 0 to length
      invariant forall m | 0 <= m < j :: outbuf[m] == 0
      invariant forall m | length <= m < outbuf.Length :: outbuf[m] == old(outbuf[m])
    {
      outbuf[j] := 0;
    }
    if cache.None? {
      return -ERROR_NOT_FOUND;
    }
    if !cache.value.archive {
      return -ERROR_IS_DIRECTORY;
    }
    var clusterSize := v.ClusterSize();
    var first, size := cache.value.First(), cache.value.size;
    var i, cluster := offset / clusterSize, first;
    ret := 0;
    if offset < size {
      ClusterSteps(v, first, 0);
      while i > 0
        invariant 0 <= i <= offset / clusterSize && cluster == ClusterAt(v, first, offset / clusterSize - i)
        invariant (forall m | 0 <= m < length :: outbuf[m] == 0)
        invariant forall m | length <= m < outbuf.Length :: outbuf[m] == old(outbuf[m])
      {
        ClusterSteps(v, first, offset / clusterSize - i);
        cluster := GetNextCluster(v, cluster);
        i := i - 1;
      }
      if !IsLast(v.kind, cluster) {
        ret := ReadFrom(v, cluster, size, outbuf, length, offset, first);
        TheFilesBytes(v, fat, chain, cache, outbuf[..], ret, offset);
      }
    }
    if ChainOf(v, fat, chain, cache) && Marked(v, fat, chain) && size <= |chain| * v.ClusterSize() {
      ReadStaysInside(v, fat, chain, cache.value, length, offset);
    }
  }

  lemma TheFilesBytes(v: Volume, fat: seq<nat>, chain: seq<nat>, cache: Option<DirCache>, out: seq<byte>, n: nat, offset: nat)
    requires v.Valid() && cache.Some? && n <= |out| && forall j | 0 <= j < n :: out[j] == ByteAt(v, cache.value.First(), offset + j)
    ensures ChainOf(v, fat, chain, cache) ==>
      forall j | 0 <= j < n && PositionKnown(v, chain, offset + j) :: out[j] == FileByte(v, chain, offset + j)
  {
    hide ByteAt, Linked;
    if ChainOf(v, fat, chain, cache) {
      ChainStarts(v, fat, chain, cache);
      forall j | 0 <= j < n && PositionKnown(v, chain, offset + j)
        ensures out[j] == FileByte(v, chain, offset + j)
      {
        ByteIsTheFiles(v, fat, chain, offset + j);
      }
    }
  }

  /** A read inside a file hands out what was asked for, up to the file's end, exactly when it neither goes past that end
      from a later offset nor takes the last byte of the chain. The one other case is a file a byte short of its chain. */
  lemma ReadIsRight(v: Volume, cache: DirCache, first: nat, n: nat, length: nat, offset: nat)
    requires v.Valid() && cache.archive && StartsAt(cache, first) && ChainLength(v, first, n)
    requires offset < cache.size <= n * v.ClusterSize()
    ensures var want, end := if length <= cache.size - offset then length else cache.size - offset, n * v.ClusterSize();
      var right := ReadResult(v, Some(cache), length, offset) == want;
      right <==> (if length <= cache.size - offset || offset == 0 then offset + want < end else end == cache.size + 1)
  {
    hide Reads, Volume.ClusterSize, ChainLength, ClusterAt;
    FirstIs(cache, first);
    StartsInside(v, first, n, offset);
    ReadsAre(v, first, n, offset, if length <= cache.size then length else cache.size);
  }

  /** The same of the file's chain in the table. */
  lemma FileReadIsRight(v: Volume, fat: seq<nat>, chain: seq<nat>, cache: DirCache, length: nat, offset: nat)
    requires v.Valid() && cache.archive && ChainOf(v, fat, chain, Some(cache)) && Marked(v, fat, chain)
    requires offset < cache.size <= |chain| * v.ClusterSize()
    ensures var want, end := if length <= cache.size - offset then length else cache.size - offset, |chain| * v.ClusterSize();
      var right := ReadResult(v, Some(cache), length, offset) == want;
      right <==> (if length <= cache.size - offset || offset == 0 then offset + want < end else end == cache.size + 1)
  {
    hide ReadResult, ChainLength, Linked, Marked, Volume.ClusterSize;
    ChainHasLength(v, fat, chain);
    ReadIsRight(v, cache, chain[0], |chain|, length, offset);
  }

  /** On FAT32 the loop stops at nothing but the size, counted from the start of the file whatever the offset. */
  lemma Fat32ReadIsRight(v: Volume, cache: DirCache, first: nat, length: nat, offset: nat)
    requires v.Valid() && v.kind == FAT32 && cache.archive && StartsAt(cache, first) && offset < cache.size
    requires !IsLast(v.kind, ClusterAt(v, first, offset / v.ClusterSize()))
    ensures var want := if length <= cache.size - offset then length else cache.size - offset;
      var right := ReadResult(v, Some(cache), length, offset) == want;
      right <==> (length <= cache.size - offset || offset == 0)
  {
    var bound := if length <= cache.size then length else cache.size;
    FirstIs(cache, first);
    var got := Reads(v, first, offset, bound, 0);
    if got < bound {
      Fat32Goes(v, first, offset + got);
    }
  }

  lemma Fat32Goes(v: Volume, first: nat, p: nat)
    requires v.Valid() && v.kind == FAT32
    ensures !EndsBehind(v, first, p)
  {
    hide Next, Volume.ClusterSize;
    var size := v.ClusterSize();
    if (p + 1) % size == 0 {
      assert p + 1 == (p + 1) / size * size;
      var m := (p + 1) / size;
      assert m > 0;
      Fat32NeverEnds(v, ClusterAt(v, first, m - 1));
    }
  }
}
