/** A new process finds its arguments and environment on its stack, which grows down. */
module ArgStack {
  type byte = b: int | 0 <= b < 256

  const POINTER_SIZE: nat := 4
  const ADDRESS_END: nat := 0x1_0000_0000

  /** A C string's characters: any bytes but NUL. */
  predicate CString(s: seq<byte>) {
    forall i | 0 <= i < |s| :: s[i] != 0
  }

  // ---------- What the process reads ----------

  /** The 32-bit word at an offset, lowest byte first. */
  function Word(mem: seq<byte>, at: nat): nat
    requires at + 4 <= |mem|
  {
    var a: int, b: int, c: int, d: int := mem[at], mem[at + 1], mem[at + 2], mem[at + 3];
    a + 0x100 * b + 0x1_0000 * c + 0x100_0000 * d
  }

  /** The characters from an offset up to the first NUL. */
  function Chars(mem: seq<byte>, at: nat): seq<byte>
    decreases |mem| - at
  {
    if at >= |mem| || mem[at] == 0 then [] else [mem[at]] + Chars(mem, at + 1)
  }

  /** What an array of pointers holds, up to the null pointer: each points to a string. */
  function Strings(mem: seq<byte>, base: nat, at: nat): seq<seq<byte>>
    decreases |mem| - at
  {
    if at + 4 > |mem| || Word(mem, at) == 0 then []
    else [if Word(mem, at) >= base then Chars(mem, Word(mem, at) - base) else []] + Strings(mem, base, at + 4)
  }

  // ---------- What is on the stack ----------

  /** The room that some strings take, each with its NUL. */
  function Room(strs: seq<seq<byte>>): nat {
    if strs == [] then 0 else |strs[0]| + 1 + Room(strs[1..])
  }

  /** What init_task_stack takes: two arrays of pointers, the strings, two pointers and a count. */
  function Total(argv: seq<seq<byte>>, envp: seq<seq<byte>>): nat {
    POINTER_SIZE * (|argv| + 1) + POINTER_SIZE * (|envp| + 1) + Room(argv) + Room(envp) + 12
  }

  lemma {:induction false} RoomMore(strs: seq<seq<byte>>, i: nat)
    requires i < |strs|
    ensures Room(strs[..i + 1]) == Room(strs[..i]) + |strs[i]| + 1
    ensures Room(strs[..i + 1]) <= Room(strs)
  {
    if i > 0 {
      assert strs[..i + 1][1..] == strs[1..][..i] && strs[..i][1..] == strs[1..][..i - 1];
      RoomMore(strs[1..], i - 1);
    }
  }

  ghost predicate HoldsString(mem: seq<byte>, at: nat, s: seq<byte>) {
    at + |s| < |mem| && mem[at..at + |s|] == s && mem[at + |s|] == 0
  }

  /** An array of pointers to strings that lie one below the other, the first just below the top. */
  ghost predicate HoldsAll(mem: seq<byte>, base: nat, at: nat, top: nat, strs: seq<seq<byte>>, n: nat)
    requires n <= |strs|
  {
    && at + 4 * n <= |mem| && Room(strs[..n]) <= top
    && forall i | 0 <= i < n :: HoldsOne(mem, base, at, top, strs, i)
  }

  ghost predicate HoldsOne(mem: seq<byte>, base: nat, at: nat, top: nat, strs: seq<seq<byte>>, i: nat)
    requires i < |strs| && at + 4 * i + 4 <= |mem|
  {
    var place := top - Room(strs[..i + 1]);
    place >= 0 && Word(mem, at + 4 * i) == base + place && HoldsString(mem, place, strs[i])
  }

  lemma {:induction false} CharsAre(mem: seq<byte>, at: nat, s: seq<byte>)
    requires HoldsString(mem, at, s) && CString(s)
    ensures Chars(mem, at) == s
    decreases |s|
  {
    if s != [] {
      assert mem[at] == s[0];
      assert mem[at + 1..at + |s|] == mem[at..at + |s|][1..];
      CharsAre(mem, at + 1, s[1..]);
    }
  }

  /** The strings are read back from the array of pointers. */
  lemma {:induction false} StringsAre(mem: seq<byte>, base: nat, at: nat, top: nat, strs: seq<seq<byte>>, i: nat)
    requires base > 0 && i <= |strs| && HoldsAll(mem, base, at, top, strs, |strs|)
    requires forall s | s in strs :: CString(s)
    requires at + 4 * |strs| + 4 <= |mem| && Word(mem, at + 4 * |strs|) == 0
    ensures Strings(mem, base, at + 4 * i) == strs[i..]
    decreases |strs| - i
  {
    hide Word, HoldsString;
    if i < |strs| {
      assert HoldsOne(mem, base, at, top, strs, i);
      CharsAre(mem, top - Room(strs[..i + 1]), strs[i]);
      StringsAre(mem, base, at, top, strs, i + 1);
    }
  }

  /** Nothing that is held is lost when only other bytes change. */
  lemma HoldsStill(mem: seq<byte>, after: seq<byte>, base: nat, at: nat, top: nat, strs: seq<seq<byte>>, n: nat)
    requires n <= |strs| && HoldsAll(mem, base, at, top, strs, n) && |after| == |mem|
    requires forall k | 0 <= k < |mem| && (at <= k < at + 4 * n || top - Room(strs[..n]) <= k < top) :: after[k] == mem[k]
    ensures HoldsAll(after, base, at, top, strs, n)
  {
    forall i | 0 <= i < n
      ensures HoldsOne(after, base, at, top, strs, i)
    {
      assert HoldsOne(mem, base, at, top, strs, i);
      RoomPrefix(strs, i + 1, n);
      RoomMore(strs, i);
      var place := top - Room(strs[..i + 1]);
      assert after[place..place + |strs[i]|] == mem[place..place + |strs[i]|];
    }
  }

  lemma {:induction false} RoomPrefix(strs: seq<seq<byte>>, i: nat, n: nat)
    requires i <= n <= |strs|
    ensures Room(strs[..i]) <= Room(strs[..n])
    decreases n
  {
    if i < n {
      RoomMore(strs, n - 1);
      RoomPrefix(strs, i, n - 1);
    }
  }

  lemma HoldsNone(mem: seq<byte>, base: nat, at: nat, top: nat, strs: seq<seq<byte>>)
    requires at <= |mem|
    ensures HoldsAll(mem, base, at, top, strs, 0)
  {
  }

  /** One more pointer and the string below the others. */
  lemma HoldsMore(mem: seq<byte>, pointed: seq<byte>, after: seq<byte>, base: nat, at: nat, top: nat, strs: seq<seq<byte>>, i: nat)
    requires i < |strs| && HoldsAll(mem, base, at, top, strs, i) && |mem| == |pointed| == |after|
    requires at + 4 * i + 4 <= |mem| && top <= at && Room(strs[..i + 1]) <= top
    requires var place := top - Room(strs[..i + 1]);
      && Word(pointed, at + 4 * i) == base + place && HoldsString(after, place, strs[i])
      && (forall k | 0 <= k < |mem| && !(at + 4 * i <= k < at + 4 * i + 4) :: pointed[k] == mem[k])
      && forall k | 0 <= k < |mem| && !(place <= k <= place + |strs[i]|) :: after[k] == pointed[k]
    ensures HoldsAll(after, base, at, top, strs, i + 1)
  {
    hide HoldsString;
    RoomMore(strs, i);
    HoldsStill(mem, after, base, at, top, strs, i);
    assert HoldsOne(after, base, at, top, strs, i);
  }

  lemma KeptWord(mem: seq<byte>, after: seq<byte>, at: nat)
    requires |mem| == |after| && at + 4 <= |mem| && forall k | at <= k < at + 4 :: after[k] == mem[k]
    ensures Word(after, at) == Word(mem, at)
  {
  }

  /** Words pushed below everything else leave an array readable. */
  lemma ReadBack(mem: seq<byte>, after: seq<byte>, base: nat, at: nat, top: nat, strs: seq<seq<byte>>, end: nat)
    requires base > 0 && |mem| == |after| && forall s | s in strs :: CString(s)
    requires HoldsAll(mem, base, at, top, strs, |strs|) && at + 4 * |strs| + 4 <= |mem| && Word(mem, at + 4 * |strs|) == 0
    requires end <= top - Room(strs) && end <= at && forall k | end <= k < |mem| :: after[k] == mem[k]
    ensures Strings(after, base, at) == strs
  {
    hide Word, HoldsString, HoldsAll, Strings;
    assert strs[..|strs|] == strs;
    HoldsStill(mem, after, base, at, top, strs, |strs|);
    KeptWord(mem, after, at + 4 * |strs|);
    StringsAre(after, base, at, top, strs, 0);
  }

  // ---------- The code ----------

  /** A task's stack page, by offset, and its stack pointer. */
  class Stack {
    const base: nat
    const mem: array<byte>
    var esp: int

    ghost predicate Valid()
      reads this
    {
      base > 0 && base + mem.Length <= ADDRESS_END && 0 <= esp <= mem.Length
    }

    constructor (base: nat, size: nat)
      requires base > 0 && base + size <= ADDRESS_END
      ensures Valid() && this.base == base && mem.Length == size == esp && fresh(mem)
    {
      this.base, esp := base, size;
      mem := new byte[size](_ => 0);
    }

    /** Storing a pointer or a count. */
    method StoreWord(at: nat, w: nat)
      requires at + 4 <= mem.Length && w < ADDRESS_END
      modifies mem
      ensures Word(mem[..], at) == w
      ensures forall k | 0 <= k < mem.Length && !(at <= k < at + 4) :: mem[k] == old(mem[k])
    {
      mem[at], mem[at + 1], mem[at + 2], mem[at + 3] := w % 0x100, w / 0x100 % 0x100, w / 0x1_0000 % 0x100, w / 0x100_0000;
    }

    /** The kernel's own strncpy, which ends what it copied with a NUL. */
    method Strncpy(dest: nat, src: seq<byte>)
      requires CString(src) && dest + |src| < mem.Length
      modifies mem
      ensures HoldsString(mem[..], dest, src)
      ensures forall k | 0 <= k < mem.Length && !(dest <= k <= dest + |src|) :: mem[k] == old(mem[k])
    {
      var i := 0;
      while i < |src|
        invariant i <= |src| && mem[dest..dest + i] == src[..i]
        invariant forall k | 0 <= k < mem.Length && !(dest <= k < dest + i) :: mem[k] == old(mem[k])
      {
        mem[dest + i] := src[i];
        i := i + 1;
      }
      mem[dest + i] := 0;
    }

    /** One of the two loops of init_task_stack, with the null pointer that follows it; false where a write would fall
        below the page. */
    method PushStrings(at: nat, strs: seq<seq<byte>>) returns (ok: bool)
      requires Valid() && esp <= at && at + 4 * |strs| + 4 <= mem.Length && forall s | s in strs :: CString(s)
      modifies this, mem
      ensures ok <==> Room(strs) <= old(esp)
      ensures ok ==> Valid() && esp == old(esp) - Room(strs) && Word(mem[..], at + 4 * |strs|) == 0
      ensures ok ==> HoldsAll(mem[..], base, at, old(esp), strs, |strs|)
      ensures ok ==> forall k | old(esp) <= k < mem.Length && !(at <= k < at + 4 * |strs| + 4) :: mem[k] == old(mem[k])
    {
      hide Word, HoldsString, HoldsAll;
      var i := 0;
      HoldsNone(mem[..], base, at, esp, strs);
      while i < |strs|
        invariant i <= |strs| && Valid() && esp == old(esp) - Room(strs[..i])
        invariant HoldsAll(mem[..], base, at, old(esp), strs, i)
        invariant forall k | old(esp) <= k < mem.Length && !(at <= k < at + 4 * |strs| + 4) :: mem[k] == old(mem[k])
      {
        RoomMore(strs, i);
        var slen := |strs[i]|;
        esp := esp - (slen + 1);
        if esp < 0 {
          return false;
        }
        ghost var before := mem[..];
        StoreWord(at + 4 * i, base + esp);
        ghost var pointed := mem[..];
        Strncpy(esp, strs[i]);
        HoldsMore(before, pointed, mem[..], base, at, old(esp), strs, i);
        i := i + 1;
      }
      assert strs[..|strs|] == strs;
      ghost var filled := mem[..];
      StoreWord(at + 4 * |strs|, 0);
      HoldsStill(filled, mem[..], base, at, old(esp), strs, |strs|);
      ok := true;
    }

    /** The last words: the count below the pointer to the arguments below the pointer to the environment. */
    method PushWords(argc: nat, args: nat, envs: nat) returns (ok: bool)
      requires Valid() && argc < ADDRESS_END && base + args < ADDRESS_END && base + envs < ADDRESS_END
      modifies this, mem
      ensures ok <==> 12 <= old(esp)
      ensures ok ==> Valid() && esp == old(esp) - 12
      ensures ok ==> Word(mem[..], esp) == argc && Word(mem[..], esp + 4) == base + args && Word(mem[..], esp + 8) == base + envs
      ensures ok ==> forall k | old(esp) <= k < mem.Length :: mem[k] == old(mem[k])
    {
      hide Word;
      if esp < 12 {
        return false;
      }
      esp := esp - POINTER_SIZE;
      StoreWord(esp, base + envs);
      esp := esp - POINTER_SIZE;
      ghost var one := mem[..];
      StoreWord(esp, base + args);
      esp := esp - 4;
      ghost var two := mem[..];
      StoreWord(esp, argc);
      KeptWord(one, mem[..], esp + 8);
      KeptWord(two, mem[..], esp + 4);
      ok := true;
    }

    /** init_task_stack */
    method InitTaskStack(argv: seq<seq<byte>>, envp: seq<seq<byte>>) returns (ok: bool)
      requires Valid() && |argv| < ADDRESS_END && (forall s | s in argv :: CString(s)) && forall s | s in envp :: CString(s)
      modifies this, mem
      ensures ok <==> Total(argv, envp) <= old(esp)
      ensures ok ==> Valid() && esp == old(esp) - Total(argv, envp)
      ensures ok ==> old(esp) - esp == 4 * (|argv| + 1) + 4 * (|envp| + 1) + Room(argv) + Room(envp) + 12
      ensures ok ==> Word(mem[..], esp) == |argv|
      ensures ok ==> Word(mem[..], esp + 4) == base + old(esp) - 4 * (|argv| + 1)
      ensures ok ==> Word(mem[..], esp + 8) == base + old(esp) - 4 * (|argv| + 1) - 4 * (|envp| + 1)
      ensures ok ==> base <= Word(mem[..], esp + 4) && Strings(mem[..], base, Word(mem[..], esp + 4) - base) == argv
      ensures ok ==> base <= Word(mem[..], esp + 8) && Strings(mem[..], base, Word(mem[..], esp + 8) - base) == envp
      ensures ok ==> forall k | old(esp) <= k < mem.Length :: mem[k] == old(mem[k])
    {
      hide Word, HoldsString, HoldsAll, HoldsOne, Strings;
      var argc, envc := |argv|, |envp|;
      esp := esp - POINTER_SIZE * (argc + 1);
      var args := esp;
      esp := esp - POINTER_SIZE * (envc + 1);
      var envs := esp;
      if esp < 0 {
        return false;
      }
      ok := PushStrings(args, argv);
      if !ok {
        return;
      }
      ghost var top, one := esp, mem[..];
      ok := PushStrings(envs, envp);
      if !ok {
        return;
      }
      assert argv[..argc] == argv;
      HoldsStill(one, mem[..], base, args, envs, argv, argc);
      KeptWord(one, mem[..], args + 4 * argc);
      ghost var end, two := esp, mem[..];
      ok := PushWords(argc, args, envs);
      if ok {
        ReadBack(two, mem[..], base, args, envs, argv, end);
        ReadBack(two, mem[..], base, envs, top, envp, end);
      }
    }
  }
}
