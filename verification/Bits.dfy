/** Bitmaps stored as sequences of bytes, seen as the set of indices whose bit is one. */
module Bits {

  // ---------- Finite sets of indices ----------

  predicate Within(i: nat, lo: nat, hi: nat) {
    lo <= i < hi
  }

  lemma {:induction false} IntervalSize(s: set<nat>, lo: nat, hi: nat)
    requires lo <= hi
    requires forall i: nat :: i in s <==> Within(i, lo, hi)
    ensures |s| == hi - lo
    decreases hi
  {
    if lo == hi {
      assert s == {};
    } else {
      assert Within(hi - 1, lo, hi);
      var rest, top := s - {hi - 1}, hi - 1;
      forall i: nat
        ensures i in rest <==> Within(i, lo, top)
      {
        assert i in s <==> Within(i, lo, hi);
      }
      IntervalSize(rest, lo, top);
    }
  }

  /** The indices lo, lo+1, ..., hi-1. */
  ghost function Interval(lo: nat, hi: nat): (s: set<nat>)
    requires lo <= hi
    ensures forall i: nat :: i in s <==> lo <= i < hi
    ensures |s| == hi - lo
  {
    var s := set i: nat | lo <= i < hi && Within(i, lo, hi);
    IntervalSize(s, lo, hi);
    s
  }

  lemma IntervalGrows(s: set<nat>, lo: nat, hi: nat)
    requires lo <= hi
    ensures s + Interval(lo, hi) + {hi} == s + Interval(lo, hi + 1)
  {
  }

  lemma SubsetSize<T>(a: set<T>, b: set<T>)
    requires a <= b
    ensures |a| <= |b|
    ensures |a| == |b| ==> a == b
  {
    assert b == a + (b - a);
  }

  // ---------- Bytes ----------

  /** `1 << k` in a byte. */
  function Mask(k: nat): bv8
    requires k < 8
  {
    match k
    case 0 => 0x01
    case 1 => 0x02
    case 2 => 0x04
    case 3 => 0x08
    case 4 => 0x10
    case 5 => 0x20
    case 6 => 0x40
    case 7 => 0x80
  }

  predicate ByteBit(b: bv8, k: nat)
    requires k < 8
  {
    b & Mask(k) != 0
  }

  lemma MasksDisjoint(j: nat, k: nat)
    requires j < 8 && k < 8
    ensures Mask(k) != 0
    ensures j != k ==> Mask(k) & Mask(j) == 0
  {
  }

  lemma OrMask(b: bv8, m: bv8, n: bv8)
    requires m & n == 0
    ensures (b | m) & n == b & n
    ensures (b | m) & m == m
  {
  }

  lemma AndNotMask(b: bv8, m: bv8, n: bv8)
    requires m & n == 0
    ensures (b & !m) & n == b & n
    ensures (b & !m) & m == 0
  {
  }

  /** Or-ing in one mask changes one bit of a byte. */
  lemma ByteSet(b: bv8, j: nat, k: nat)
    requires j < 8 && k < 8
    ensures ByteBit(b | Mask(k), j) <==> j == k || ByteBit(b, j)
  {
    MasksDisjoint(j, k);
    OrMask(b, Mask(k), if j == k then 0 else Mask(j));
  }

  /** And-ing out one mask changes one bit of a byte. */
  lemma ByteUnset(b: bv8, j: nat, k: nat)
    requires j < 8 && k < 8
    ensures ByteBit(b & !Mask(k), j) <==> j != k && ByteBit(b, j)
  {
    MasksDisjoint(j, k);
    AndNotMask(b, Mask(k), if j == k then 0 else Mask(j));
  }

  /** b shifted right j times by one. */
  function Shift(b: bv8, j: nat): bv8 {
    if j == 0 then b else Shift(b, j - 1) >> 1
  }

  lemma ShiftOnce(b: bv8, k: nat)
    requires k < 8
    ensures ByteBit(b >> 1, k) <==> k < 7 && ByteBit(b, k + 1)
  {
  }

  lemma {:induction false} ShiftBit(b: bv8, j: nat, k: nat)
    requires k < 8
    ensures ByteBit(Shift(b, j), k) <==> k + j < 8 && ByteBit(b, k + j)
  {
    if j > 0 {
      ShiftOnce(Shift(b, j - 1), k);
      if k < 7 {
        ShiftBit(b, j - 1, k + 1);
      }
    }
  }

  lemma LowBit(b: bv8)
    ensures b & 1 != 0 <==> ByteBit(b, 0)
  {
  }

  lemma AllOnes(b: bv8)
    ensures b == 0xff <==> forall k | 0 <= k < 8 :: ByteBit(b, k)
  {
    if forall k | 0 <= k < 8 :: ByteBit(b, k) {
      assert ByteBit(b, 0) && ByteBit(b, 1) && ByteBit(b, 2) && ByteBit(b, 3);
      assert ByteBit(b, 4) && ByteBit(b, 5) && ByteBit(b, 6) && ByteBit(b, 7);
    }
  }

  // ---------- Sequences of bytes ----------

  /** `!!(map[i / 8] & (1 << (i % 8)))` */
  predicate Get(bytes: seq<bv8>, i: nat)
    requires i < 8 * |bytes|
  {
    ByteBit(bytes[i / 8], i % 8)
  }

  /** `map[i / 8] |= (1 << (i % 8))` */
  function Set(bytes: seq<bv8>, i: nat): (after: seq<bv8>)
    requires i < 8 * |bytes|
    ensures Ones(after) == Ones(bytes) + {i}
  {
    var after := bytes[i / 8 := bytes[i / 8] | Mask(i % 8)];
    assert forall j: nat | j < 8 * |bytes| :: Get(after, j) <==> j == i || Get(bytes, j) by {
      forall j: nat | j < 8 * |bytes|
        ensures Get(after, j) <==> j == i || Get(bytes, j)
      {
        ByteSet(bytes[i / 8], j % 8, i % 8);
      }
    }
    after
  }

  /** `map[i / 8] &= ~(1 << (i % 8))` */
  function Unset(bytes: seq<bv8>, i: nat): (after: seq<bv8>)
    requires i < 8 * |bytes|
    ensures Ones(after) == Ones(bytes) - {i}
  {
    var after := bytes[i / 8 := bytes[i / 8] & !Mask(i % 8)];
    assert forall j: nat | j < 8 * |bytes| :: Get(after, j) <==> j != i && Get(bytes, j) by {
      forall j: nat | j < 8 * |bytes|
        ensures Get(after, j) <==> j != i && Get(bytes, j)
      {
        ByteUnset(bytes[i / 8], j % 8, i % 8);
      }
    }
    after
  }

  /** The indices of the bits that are one. */
  ghost function Ones(bytes: seq<bv8>): set<nat> {
    set i | 0 <= i < 8 * |bytes| && Get(bytes, i)
  }

  lemma NoOnes(bytes: seq<bv8>)
    requires forall b | 0 <= b < |bytes| :: bytes[b] == 0
    ensures Ones(bytes) == {}
  {
  }

  /** A byte is 0xff exactly when its eight indices are all in the bitmap. */
  lemma FullByte(bytes: seq<bv8>, b: nat)
    requires b < |bytes|
    ensures bytes[b] == 0xff <==> forall i | 8 * b <= i < 8 * b + 8 :: i in Ones(bytes)
  {
    AllOnes(bytes[b]);
    forall i | 8 * b <= i < 8 * b + 8
      ensures i in Ones(bytes) <==> ByteBit(bytes[b], i - 8 * b)
    {
      assert i / 8 == b && i % 8 == i - 8 * b;
    }
    if forall i | 8 * b <= i < 8 * b + 8 :: i in Ones(bytes) {
      forall k | 0 <= k < 8
        ensures ByteBit(bytes[b], k)
      {
        assert 8 * b + k in Ones(bytes);
      }
    }
  }

  lemma OnesBounded(bytes: seq<bv8>)
    ensures |Ones(bytes)| <= 8 * |bytes|
    ensures |Ones(bytes)| == 8 * |bytes| <==> forall i | 0 <= i < 8 * |bytes| :: i in Ones(bytes)
  {
    var all := Interval(0, 8 * |bytes|);
    SubsetSize(Ones(bytes), all);
    if forall i | 0 <= i < 8 * |bytes| :: i in Ones(bytes) {
      assert Ones(bytes) == all;
    }
  }

  // ---------- Arrays of bytes ----------

  method GetBit(bytes: array<bv8>, i: nat) returns (one: bool)
    requires i < 8 * bytes.Length
    ensures one <==> i in Ones(bytes[..])
  {
    one := bytes[i / 8] & Mask(i % 8) != 0;
  }

  method SetBit(bytes: array<bv8>, i: nat)
    requires i < 8 * bytes.Length
    modifies bytes
    ensures Ones(bytes[..]) == old(Ones(bytes[..])) + {i}
  {
    ghost var before := bytes[..];
    bytes[i / 8] := bytes[i / 8] | Mask(i % 8);
    assert bytes[..] == Set(before, i);
  }

  method UnsetBit(bytes: array<bv8>, i: nat)
    requires i < 8 * bytes.Length
    modifies bytes
    ensures Ones(bytes[..]) == old(Ones(bytes[..])) - {i}
  {
    ghost var before := bytes[..];
    bytes[i / 8] := bytes[i / 8] & !Mask(i % 8);
    assert bytes[..] == Unset(before, i);
  }

  /** `for ( j = 0; i & 1; i >>= 1 ) j++` */
  method FirstZero(b: bv8) returns (j: nat)
    requires b != 0xff
    ensures j < 8 && !ByteBit(b, j) && forall k | 0 <= k < j :: ByteBit(b, k)
  {
    var i := b;
    j := 0;
    LowBit(i);
    ShiftBit(b, 0, 0);
    while i & 1 != 0
      invariant j < 8
      invariant i == Shift(b, j) && (i & 1 != 0 <==> ByteBit(b, j))
      invariant forall k | 0 <= k < j :: ByteBit(b, k)
      decreases 8 - j
    {
      if j == 7 {
        AllOnes(b);
        assert false;
      }
      i := i >> 1;
      j := j + 1;
      LowBit(i);
      ShiftBit(b, j, 0);
    }
  }
}
