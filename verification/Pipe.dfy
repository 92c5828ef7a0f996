/** The ring buffer behind a pipe, and the sequence of bytes that it stands for. */
module Pipes {
  import Arithmetic

  /** `writep` is a 32-bit counter; it is reduced to a slot only when it is used. */
  const WORD: nat := 0x1_0000_0000

  // ---------- The bounded sequence ----------

  function Last<T>(s: seq<T>, n: nat): (r: seq<T>)
    ensures |r| <= n && |r| <= |s| && r == s[|s| - |r|..]
  {
    if |s| <= n then s else s[|s| - n..]
  }

  /** How much of the data a write accepts when so many bytes are waiting. */
  function Accepted(open: bool, block: bool, cap: nat, waiting: nat, n: nat): (r: nat)
    ensures r <= n
  {
    if !open then 0 else if block && waiting + n > cap then (if waiting <= cap then cap - waiting else 0) else n
  }

  function Put<T>(contents: seq<T>, cap: nat, data: seq<T>): seq<T> {
    Last(contents + data, cap)
  }

  lemma LastOfMore<T>(s: seq<T>, c: T, cap: nat)
    ensures Last(Last(s, cap) + [c], cap) == Last(s + [c], cap)
  {
  }

  lemma PutMore<T>(contents: seq<T>, data: seq<T>, c: T, cap: nat)
    ensures Put(Put(contents, cap, data), cap, [c]) == Put(contents, cap, data + [c])
  {
    LastOfMore(contents + data, c, cap);
    assert contents + data + [c] == contents + (data + [c]);
  }

  lemma PutNothing<T>(contents: seq<T>, cap: nat)
    requires |contents| <= cap
    ensures Put(contents, cap, []) == contents
  {
    assert contents + [] == contents;
  }

  // ---------- The ring ----------

  function Wrap(size: nat, x: nat): (r: nat)
    requires x < 2 * size
    ensures r < size
  {
    if x < size then x else x - size
  }

  lemma WrapIsMod(size: nat, x: nat)
    requires x < 2 * size
    ensures Wrap(size, x) == x % size
  {
    if x < size {
      Arithmetic.ModUnique(x, size, 0, x);
    } else {
      Arithmetic.ModUnique(x, size, 1, x - size);
    }
  }

  function Window<T>(buf: seq<T>, readp: nat, avail: nat): (r: seq<T>)
    requires readp < |buf| && avail < |buf|
    ensures |r| == avail
  {
    seq(avail, i requires 0 <= i < avail => buf[Wrap(|buf|, readp + i)])
  }

  lemma WindowAt<T>(buf: seq<T>, readp: nat, avail: nat)
    requires readp < |buf| && avail < |buf|
    ensures forall i | 0 <= i < avail :: Window(buf, readp, avail)[i] == buf[Wrap(|buf|, readp + i)]
  {
  }

  lemma StoreGrows<T>(buf: seq<T>, readp: nat, avail: nat, c: T)
    requires readp < |buf| && avail < |buf| - 1
    ensures Window(buf[Wrap(|buf|, readp + avail) := c], readp, avail + 1) == Window(buf, readp, avail) + [c]
  {
    WindowAt(buf, readp, avail);
    WindowAt(buf[Wrap(|buf|, readp + avail) := c], readp, avail + 1);
  }

  lemma StoreMoves<T>(buf: seq<T>, readp: nat, avail: nat, c: T)
    requires readp < |buf| && avail == |buf| - 1
    ensures Window(buf[Wrap(|buf|, readp + avail) := c], Wrap(|buf|, readp + 1), avail) == (Window(buf, readp, avail) + [c])[1..]
  {
    WindowAt(buf, readp, avail);
    WindowAt(buf[Wrap(|buf|, readp + avail) := c], Wrap(|buf|, readp + 1), avail);
  }

  /** Storing at the slot past the window appends; a full ring gives up its oldest byte. */
  lemma StoreAppends<T>(buf: seq<T>, readp: nat, avail: nat, c: T)
    requires readp < |buf| && avail < |buf|
    ensures var after := buf[Wrap(|buf|, readp + avail) := c];
      Put(Window(buf, readp, avail), |buf| - 1, [c])
        == if avail < |buf| - 1 then Window(after, readp, avail + 1) else Window(after, Wrap(|buf|, readp + 1), avail)
  {
    hide Window, Wrap;
    if avail < |buf| - 1 {
      StoreGrows(buf, readp, avail, c);
    } else {
      StoreMoves(buf, readp, avail, c);
    }
  }

  lemma LoadRemoves<T>(buf: seq<T>, readp: nat, avail: nat)
    requires readp < |buf| && 0 < avail < |buf|
    ensures Window(buf, readp, avail)[0] == buf[readp]
    ensures Window(buf, readp, avail)[1..] == Window(buf, Wrap(|buf|, readp + 1), avail - 1)
  {
    WindowAt(buf, readp, avail);
    WindowAt(buf, Wrap(|buf|, readp + 1), avail - 1);
  }

  function Bump(writep: nat): nat {
    if writep + 1 == WORD then 0 else writep + 1
  }

  lemma ModStep(x: nat, size: nat)
    requires size > 0
    ensures (x + 1) % size == Wrap(size, x % size + 1)
  {
    var q, r := x / size, x % size;
    assert x == q * size + r;
    if r + 1 == size {
      assert x + 1 == (q + 1) * size + 0 by {
        assert (q + 1) * size == q * size + size;
      }
      Arithmetic.ModUnique(x + 1, size, q + 1, 0);
    } else {
      Arithmetic.ModUnique(x + 1, size, q, r + 1);
    }
  }

  /** The counter keeps its slot over a step, except where it overflows and the size does not divide its range. */
  lemma BumpSlot(writep: nat, size: nat)
    requires size > 0 && writep < WORD
    ensures Bump(writep) % size == Wrap(size, writep % size + 1) <==> writep + 1 < WORD || WORD % size == 0
  {
    ModStep(writep, size);
    assert 0 % size == 0 by {
      Arithmetic.ModUnique(0, size, 0, 0);
    }
  }

  predicate InStep(size: nat, readp: nat, avail: nat, writep: nat)
    requires size > 0
  {
    writep % size == (readp + avail) % size
  }

  /** One byte: in step it is appended; the step is kept but where the counter overflows. */
  lemma ByteWritten<T>(buf: seq<T>, readp: nat, avail: nat, writep: nat, c: T, readp': nat, avail': nat)
    requires readp < |buf| && avail < |buf| && writep < WORD
    requires avail == |buf| - 1 ==> readp' == (readp + 1) % |buf| && avail' == avail
    requires avail != |buf| - 1 ==> readp' == readp && avail' == avail + 1
    ensures readp' < |buf| && avail' < |buf| && writep % |buf| < |buf|
    ensures InStep(|buf|, readp, avail, writep) ==>
      Window(buf[writep % |buf| := c], readp', avail') == Put(Window(buf, readp, avail), |buf| - 1, [c])
    ensures writep + 1 < WORD ==>
      (InStep(|buf|, readp', avail', Bump(writep)) <==> InStep(|buf|, readp, avail, writep))
    ensures writep + 1 == WORD && InStep(|buf|, readp, avail, writep) ==>
      (InStep(|buf|, readp', avail', Bump(writep)) <==> WORD % |buf| == 0)
  {
    var size := |buf|;
    WrapIsMod(size, readp + 1);
    WrapIsMod(size, readp + avail);
    StoreAppends(buf, readp, avail, c);
    ModStep(readp + avail, size);
    BumpSlot(writep, size);
    assert (readp' + avail') % size == (readp + avail + 1) % size by {
      if readp' < readp {
        Arithmetic.ModAdd(readp' + avail', size, 1);
      }
    }
  }

  // ---------- One line ----------

  class Pipeline {
    const size: nat
    const buf: array<char>
    const open: bool
    const block: bool
    var avail: nat
    var writep: nat
    var readp: nat

    ghost predicate Valid()
      reads this
    {
      buf.Length == size > 0 && avail < size && readp < size && writep < WORD
    }

    /** The next slot to write is the one past the bytes waiting to be read. */
    ghost predicate Synced()
      requires Valid()
      reads this
    {
      InStep(size, readp, avail, writep)
    }

    /** What reads will return. */
    ghost function Contents(): (r: seq<char>)
      requires Valid()
      reads this, buf
      ensures |r| == avail
    {
      Window(buf[..], readp, avail)
    }

    constructor (size: nat, block: bool)
      requires size > 0
      ensures Valid() && Synced() && Contents() == [] && fresh(buf)
      ensures this.size == size && open && this.block == block && writep == 0
    {
      this.size, this.block, open := size, block, true;
      avail, writep, readp := 0, 0, 0;
      buf := new char[size](_ => '\0');
    }

    /** The body of pipe_write's outer loop. */
    method Write(data: seq<char>) returns (ret: nat)
      requires Valid() && |data| < WORD
      modifies this, buf
      ensures Valid() && old(State()).Writes(data, State()) && ret == old(State()).Takes(|data|)
    {
      hide Put, Window, Wrap;
      ret := 0;
      PutNothing(Contents(), size - 1);
      assert data[..0] == [];
      if open {
        var j := 0;
        while j < |data|
          invariant 0 <= ret == j <= |data| && Valid()
          invariant block ==> avail == old(avail) + j
          invariant writep == (if old(writep) + ret < WORD then old(writep) + ret else old(writep) + ret - WORD)
          invariant old(Synced()) ==> (Synced() <==> old(writep) + ret < WORD || WORD % size == 0)
          invariant old(Synced()) && Synced() ==> Contents() == Put(old(Contents()), size - 1, data[..ret])
        {
          ghost var r0, a0, w0, b0 := readp, avail, writep, buf[..];
          if avail == size - 1 {
            if block {
              break;
            } else {
              readp := (readp + 1) % size;
            }
          } else {
            avail := avail + 1;
          }
          var c := writep % size;
          buf[c] := data[j];
          assert buf[..] == b0[c := data[j]];
          ret := ret + 1;
          writep := if writep + 1 == WORD then 0 else writep + 1;
          ByteWritten(b0, r0, a0, w0, data[j], readp, avail);
          PutMore(old(Contents()), data[..j], data[j], size - 1);
          assert data[..j] + [data[j]] == data[..j + 1];
          j := j + 1;
        }
      }
    }

    /** One round of pipeline_read. */
    method ReadByte(out: array<char>, i: nat)
      requires Valid() && avail > 0 && i < out.Length && out != buf
      modifies `avail, `readp, out
      ensures Valid() && avail == old(avail) - 1 && (Synced() <==> old(Synced()))
      ensures Contents() == old(Contents())[1..] && out[..] == old(out[..])[i := old(Contents())[0]]
    {
      hide Window, Wrap, InStep;
      LoadRemoves(buf[..], readp, avail);
      StepKept(size, readp, avail, writep);
      WrapIsMod(size, readp + 1);
      var j := readp;
      out[i] := buf[j];
      readp := (readp + 1) % size;
      avail := avail - 1;
      assert buf[..] == old(buf[..]);
    }

    /** pipeline_read */
    method Read(out: array<char>, n: nat) returns (i: nat)
      requires Valid() && n <= out.Length && out != buf
      modifies this, out
      ensures Valid() && old(State()).Reads(n, State()) && i == |old(State()).Front(n)|
      ensures out[..] == old(State()).Front(n) + old(out[..])[i..]
      ensures i == (if n < old(avail) then n else old(avail)) && Contents() == old(Contents())[i..]
      ensures out[..i] == old(Contents())[..i] && out[i..] == old(out[..])[i..]
    {
      hide Contents, Synced, Valid, Copied, Rest;
      ghost var before := Contents();
      i := 0;
      NothingMoved(before, out[..]);
      while i < n && i < avail + i
        invariant 0 <= i <= n && Valid() && avail + i == old(avail) && writep == old(writep)
        invariant Contents() == Rest(before, i) && (Synced() <==> old(Synced()))
        invariant out[..] == Copied(before, old(out[..]), i)
      {
        Moved(before, old(out[..]), i);
        ReadByte(out, i);
        i := i + 1;
      }
      AllMoved(old(State()), old(out[..]), n, i);
    }

    /** What a caller of the line can see of it. */
    ghost function State(): (line: LineState)
      requires Valid()
      reads this, buf
      ensures line.Wf()
    {
      LineState(open, block, size, avail, writep, Synced(), Contents())
    }
  }

  lemma StepKept(size: nat, readp: nat, avail: nat, writep: nat)
    requires readp < size && 0 < avail < size
    ensures (readp + 1) % size < size
    ensures InStep(size, (readp + 1) % size, avail - 1, writep) <==> InStep(size, readp, avail, writep)
  {
    WrapIsMod(size, readp + 1);
    if readp + 1 == size {
      Arithmetic.ModAdd(avail - 1, size, 1);
    }
  }

  /** A buffer after the first i bytes were copied into it. */
  function Copied<T>(from: seq<T>, to: seq<T>, i: nat): seq<T>
    requires i <= |from| && i <= |to|
  {
    from[..i] + to[i..]
  }

  function Rest<T>(from: seq<T>, i: nat): seq<T>
    requires i <= |from|
  {
    from[i..]
  }

  lemma NothingMoved<T>(from: seq<T>, to: seq<T>)
    ensures Copied(from, to, 0) == to && Rest(from, 0) == from
  {
  }

  lemma Moved<T>(from: seq<T>, to: seq<T>, i: nat)
    requires i < |from| && i < |to|
    ensures Rest(from, i) != [] && Rest(from, i)[1..] == Rest(from, i + 1)
    ensures Copied(from, to, i)[i := Rest(from, i)[0]] == Copied(from, to, i + 1)
    ensures |Copied(from, to, i)| == |to|
  {
  }

  lemma AllMoved(line: LineState, to: seq<char>, n: nat, i: nat)
    requires i == |line.Front(n)| <= |to|
    ensures Copied(line.contents, to, i) == line.Front(n) + to[i..] && Rest(line.contents, i) == line.contents[i..]
  {
  }

  // ---------- A pipe of several lines ----------

  datatype LineState = LineState(open: bool, block: bool, size: nat, avail: nat, writep: nat, synced: bool, contents: seq<char>)
  {
    ghost predicate Wf() {
      size > 0 && |contents| == avail < size && writep < WORD
    }

    ghost function Takes(n: nat): nat
      requires Wf()
    {
      Accepted(open, block, size - 1, avail, n)
    }

    /** What a write makes of a line: the data that was accepted is appended while the line is in step. */
    ghost predicate Writes(data: seq<char>, after: LineState)
      requires Wf()
    {
      && after.Wf() && after.open == open && after.block == block && after.size == size
      && after.writep == (if writep + Takes(|data|) < WORD then writep + Takes(|data|) else writep + Takes(|data|) - WORD)
      && (synced ==> (after.synced <==> writep + Takes(|data|) < WORD || WORD % size == 0))
      && (synced && after.synced ==>
        after.contents == Put(contents, size - 1, data[..Takes(|data|)]))
    }

    /** What a read hands out. */
    ghost function Front(n: nat): seq<char> {
      if n <= |contents| then contents[..n] else contents
    }

    /** What it makes of a line. */
    ghost predicate Reads(n: nat, after: LineState)
      requires Wf()
    {
      after == this.(avail := avail - |Front(n)|, contents := contents[|Front(n)|..])
    }
  }

  /** What is taken is all that fits, or all there is; what is waiting then is the newest of what was waiting and the data. */
  lemma WholeWrite(line: LineState, data: seq<char>, after: LineState)
    requires line.Wf() && line.Writes(data, after)
    ensures line.Takes(|data|) == if !line.open then 0
      else if line.block && |data| > line.size - 1 - line.avail then line.size - 1 - line.avail else |data|
    ensures line.synced && after.synced ==>
      var stream := line.contents + data[..line.Takes(|data|)];
      after.avail == (if |stream| < line.size then |stream| else line.size - 1) && after.contents == stream[|stream| - after.avail..]
  {
  }

  ghost function TotalTakes(lines: seq<LineState>, n: nat): nat
    requires forall line | line in lines :: line.Wf()
  {
    if lines == [] then 0 else TotalTakes(lines[..|lines| - 1], n) + lines[|lines| - 1].Takes(n)
  }

  lemma TotalMore(lines: seq<LineState>, i: nat, n: nat)
    requires i < |lines| && forall line | line in lines :: line.Wf()
    ensures TotalTakes(lines[..i + 1], n) == TotalTakes(lines[..i], n) + lines[i].Takes(n)
    ensures lines[..|lines|] == lines
  {
    assert lines[..i + 1][..i] == lines[..i];
  }

  /** What every line took is added up. */
  lemma {:induction false} TotalParts(a: seq<LineState>, b: seq<LineState>, n: nat)
    requires (forall line | line in a :: line.Wf()) && forall line | line in b :: line.Wf()
    ensures forall line | line in a + b :: line.Wf()
    ensures TotalTakes(a + b, n) == TotalTakes(a, n) + TotalTakes(b, n)
    ensures |a| == 1 ==> TotalTakes(a, n) == a[0].Takes(n)
  {
    if b == [] {
      assert a + b == a;
    } else {
      var last := |b| - 1;
      TotalParts(a, b[..last], n);
      assert (a + b)[..|a + b| - 1] == a + b[..last];
    }
  }

  class Pipe {
    const bufs: seq<Pipeline>

    ghost predicate Valid()
      reads bufs
    {
      Apart() && forall i | 0 <= i < |bufs| :: bufs[i].Valid()
    }

    ghost predicate Apart() {
      forall i, j | 0 <= i < j < |bufs| :: bufs[i] != bufs[j] && bufs[i].buf != bufs[j].buf
    }

    constructor (bufs: seq<Pipeline>)
      ensures this.bufs == bufs
    {
      this.bufs := bufs;
    }

    /** pipe_create: no pipe without outputs. */
    static method Create(outputs: nat, size: nat, block: bool) returns (ret: Pipe?)
      requires size > 0
      ensures ret == null <==> outputs == 0
      ensures ret != null ==> fresh(ret) && |ret.bufs| == outputs && ret.Valid() && forall i | 0 <= i < outputs ::
        fresh(ret.bufs[i]) && fresh(ret.bufs[i].buf) && ret.bufs[i].State() == LineState(true, block, size, 0, 0, true, [])
    {
      ret := null;
      if outputs > 0 {
        var bufs: seq<Pipeline> := [];
        for i := 0 to outputs
          invariant |bufs| == i && forall j | 0 <= j < i :: fresh(bufs[j]) && fresh(bufs[j].buf)
          invariant forall j | 0 <= j < i :: bufs[j].Valid() && bufs[j].State() == LineState(true, block, size, 0, 0, true, [])
          invariant forall j, k | 0 <= j < k < i :: bufs[j] != bufs[k] && bufs[j].buf != bufs[k].buf
        {
          var line := new Pipeline(size, block);
          bufs := bufs + [line];
        }
        ret := new Pipe(bufs);
      }
    }

    ghost function Buffers(): set<array<char>>
    {
      set i | 0 <= i < |bufs| :: bufs[i].buf
    }

    ghost function States(): (r: seq<LineState>)
      requires Valid()
      reads bufs, Buffers()
      ensures |r| == |bufs| && forall i | 0 <= i < |bufs| :: r[i] == bufs[i].State() && r[i].Wf()
    {
      seq(|bufs|, i requires 0 <= i < |bufs| && Valid() reads bufs, Buffers() => bufs[i].State())
    }

    /** pipe_write: every line takes what it can, and the answer is the sum. */
    method Write(data: seq<char>) returns (ret: nat)
      requires Valid() && |data| < WORD
      modifies bufs, Buffers()
      ensures Valid()
      ensures forall i | 0 <= i < |bufs| :: old(States())[i].Writes(data, bufs[i].State())
      ensures ret == TotalTakes(old(States()), |data|)
    {
      hide Pipeline.Valid, Pipeline.Synced, Pipeline.Contents, Pipeline.State, LineState.Writes, LineState.Takes, LineState.Wf, Put, Accepted;
      ret := 0;
      ghost var before := States();
      assert before[..|bufs|] == before;
      for i := 0 to |bufs|
        invariant Valid()
        invariant forall j | 0 <= j < i :: before[j].Writes(data, bufs[j].State())
        invariant forall j | i <= j < |bufs| :: bufs[j].State() == before[j]
        invariant ret == TotalTakes(before[..i], |data|)
      {
        var r := bufs[i].Write(data);
        TotalMore(before, i, |data|);
        ret := ret + r;
      }
    }
  }

  // ---------- What readers get, over whole runs ----------

  datatype Op = WriteOp(data: seq<char>) | ReadOp(n: nat)

  /** One call, as the contracts of Write and Read have it. */
  ghost predicate Steps(before: LineState, op: Op, after: LineState)
    requires before.Wf()
  {
    match op
    case WriteOp(data) => |data| < WORD && before.Writes(data, after)
    case ReadOp(n) => before.Reads(n, after)
  }

  /** A line's states before and after each call. */
  ghost predicate IsRun(states: seq<LineState>, ops: seq<Op>)
    decreases |ops|
  {
    && |states| == |ops| + 1 && states[0].Wf()
    && (ops != [] ==> Steps(states[0], ops[0], states[1]) && IsRun(states[1..], ops[1..]))
  }

  /** The bytes that a call puts in. */
  ghost function Taken(line: LineState, op: Op): seq<char>
    requires line.Wf()
  {
    match op
    case WriteOp(data) => data[..line.Takes(|data|)]
    case ReadOp(_) => []
  }

  /** The bytes that it hands out. */
  ghost function Got(line: LineState, op: Op): seq<char> {
    match op
    case WriteOp(_) => []
    case ReadOp(n) => line.Front(n)
  }

  ghost function AllTaken(states: seq<LineState>, ops: seq<Op>): seq<char>
    requires IsRun(states, ops)
    decreases |ops|
  {
    if ops == [] then [] else Taken(states[0], ops[0]) + AllTaken(states[1..], ops[1..])
  }

  ghost function AllGot(states: seq<LineState>, ops: seq<Op>): seq<char>
    requires IsRun(states, ops)
    decreases |ops|
  {
    if ops == [] then [] else Got(states[0], ops[0]) + AllGot(states[1..], ops[1..])
  }

  /** The line is in step, and its counter will not lose its place: it does not overflow, or the size divides its range. */
  ghost predicate KeepsPlace(states: seq<LineState>, ops: seq<Op>)
    requires IsRun(states, ops)
  {
    states[0].synced && (WORD % states[0].size == 0 || states[0].writep + |AllTaken(states, ops)| < WORD)
  }

  /** Seen from outside, that is exactly when the line is in step all the time. */
  lemma {:induction false} InStepThroughout(states: seq<LineState>, ops: seq<Op>)
    requires IsRun(states, ops)
    ensures KeepsPlace(states, ops) <==> forall line | line in states :: line.synced
    decreases |ops|
  {
    if ops == [] {
      assert forall line | line in states :: line == states[0];
    } else {
      PlaceKept(states, ops);
      InStepThroughout(states[1..], ops[1..]);
      assert states == [states[0]] + states[1..];
    }
  }

  /** A run keeps its place exactly if it does from the next call on and was in step before. */
  lemma PlaceKept(states: seq<LineState>, ops: seq<Op>)
    requires IsRun(states, ops) && ops != []
    ensures KeepsPlace(states, ops) <==> states[0].synced && KeepsPlace(states[1..], ops[1..])
  {
    var before, op, after := states[0], ops[0], states[1];
    assert |AllTaken(states, ops)| == |Taken(before, op)| + |AllTaken(states[1..], ops[1..])|;
    CountedOn(before, op, after);
  }

  lemma CountedOn(before: LineState, op: Op, after: LineState)
    requires before.Wf() && Steps(before, op, after)
    ensures after.Wf() && after.size == before.size && after.block == before.block && |Taken(before, op)| < WORD
    ensures var n := before.writep + |Taken(before, op)|;
      && after.writep == (if n < WORD then n else n - WORD)
      && (before.synced ==> (after.synced <==> n < WORD || WORD % before.size == 0))
  {
  }

  /** One call: what was waiting and what went in is what came out, what was overwritten and what is waiting now. */
  lemma OneCall(before: LineState, op: Op, after: LineState)
    requires before.Wf() && Steps(before, op, after) && before.synced && after.synced
    ensures var stream, got, left := before.contents + Taken(before, op), Got(before, op), after.contents;
      && |got| + |left| <= |stream| && (before.block ==> |got| + |left| == |stream|)
      && stream[..|got|] == got && stream[|stream| - |left|..] == left
  {
  }

  /** What the first call of a run does, and that the rest is a run as good. */
  lemma FirstCall(states: seq<LineState>, ops: seq<Op>)
    requires IsRun(states, ops) && ops != [] && KeepsPlace(states, ops)
    ensures KeepsPlace(states[1..], ops[1..]) && states[1].block == states[0].block
    ensures var stream, got, left := states[0].contents + Taken(states[0], ops[0]), Got(states[0], ops[0]), states[1].contents;
      && |got| + |left| <= |stream| && (states[0].block ==> |got| + |left| == |stream|)
      && stream[..|got|] == got && stream[|stream| - |left|..] == left
  {
    hide Taken, Got, Steps;
    PlaceKept(states, ops);
    CountedOn(states[0], ops[0], states[1]);
    OneCall(states[0], ops[0], states[1]);
  }

  lemma Join<T>(a: seq<T>, b: seq<T>, got: seq<T>, after: seq<T>, more: seq<T>, out: seq<T>)
    requires a + b == got + after && after + more == out
    ensures a + (b + more) == got + out
  {
    assert a + (b + more) == (a + b) + more;
  }

  /** A blocking pipe loses nothing: what was read, and then what is waiting, is what was accepted, in order. */
  lemma {:induction false} BlockingLosesNothing(states: seq<LineState>, ops: seq<Op>)
    requires IsRun(states, ops) && KeepsPlace(states, ops) && states[0].block
    ensures states[0].contents + AllTaken(states, ops) == AllGot(states, ops) + states[|ops|].contents
    decreases |ops|
  {
    hide Taken, Got, Steps, KeepsPlace;
    var contents := states[0].contents;
    if ops == [] {
      assert contents + [] == [] + contents;
    } else {
      var taken, got, after, end := Taken(states[0], ops[0]), Got(states[0], ops[0]), states[1].contents, states[|ops|].contents;
      FirstCall(states, ops);
      assert contents + taken == got + after;
      BlockingLosesNothing(states[1..], ops[1..]);
      var more, gots := AllTaken(states[1..], ops[1..]), AllGot(states[1..], ops[1..]);
      Join(contents, taken, got, after, more, gots + end);
      assert got + (gots + end) == (got + gots) + end;
    }
  }

  ghost predicate EndsWith<T>(s: seq<T>, end: seq<T>) {
    |end| <= |s| && s[|s| - |end|..] == end
  }

  lemma EndsFurther<T>(a: seq<T>, b: seq<T>, after: seq<T>, more: seq<T>, end: seq<T>)
    requires EndsWith(a + b, after) && EndsWith(after + more, end)
    ensures EndsWith(a + (b + more), end)
  {
    assert a + (b + more) == (a + b) + more;
    assert ((a + b) + more)[|a + b| - |after|..] == after + more;
  }

  lemma FirstEnds(states: seq<LineState>, ops: seq<Op>)
    requires IsRun(states, ops) && ops != [] && KeepsPlace(states, ops)
    ensures KeepsPlace(states[1..], ops[1..]) && EndsWith(states[0].contents + Taken(states[0], ops[0]), states[1].contents)
  {
    hide Taken, Got, Steps, KeepsPlace;
    FirstCall(states, ops);
  }

  lemma EndsItself<T>(s: seq<T>)
    ensures EndsWith(s + [], s)
  {
    assert s + [] == s;
  }

  /** Either pipe keeps the newest bytes. */
  lemma {:induction false} NewestAreKept(states: seq<LineState>, ops: seq<Op>)
    requires IsRun(states, ops) && KeepsPlace(states, ops)
    ensures EndsWith(states[0].contents + AllTaken(states, ops), states[|ops|].contents)
    decreases |ops|
  {
    hide Taken, Got, Steps, KeepsPlace, EndsWith;
    if ops == [] {
      EndsItself(states[0].contents);
    } else {
      FirstEnds(states, ops);
      NewestAreKept(states[1..], ops[1..]);
      EndsFurther(states[0].contents, Taken(states[0], ops[0]), states[1].contents, AllTaken(states[1..], ops[1..]), states[|ops|].contents);
    }
  }

  /** a is found in b at these positions, in order. */
  ghost predicate FoundAt<T>(at: seq<nat>, a: seq<T>, b: seq<T>) {
    && |at| == |a| && (forall i | 0 <= i < |at| :: at[i] < |b| && a[i] == b[at[i]])
    && forall i, j | 0 <= i < j < |at| :: at[i] < at[j]
  }

  lemma FoundAfter<T>(a: seq<T>, got: seq<T>, after: seq<T>, more: seq<T>, out: seq<T>, rest: seq<nat>) returns (at: seq<nat>)
    requires |got| + |after| <= |a| && a[..|got|] == got && a[|a| - |after|..] == after
    requires FoundAt(rest, out, after + more)
    ensures FoundAt(at, got + out, a + more)
  {
    var first, skipped := seq(|got|, i => i), |a| - |after|;
    var later := FoundLater(after + more, out, rest, a + more, skipped);
    assert FoundAt(first, got, a + more);
    FoundBoth(first, got, later, out, a + more);
    at := first + later;
  }

  lemma FoundLater<T>(b: seq<T>, a: seq<T>, at: seq<nat>, whole: seq<T>, skipped: nat) returns (later: seq<nat>)
    requires FoundAt(at, a, b) && skipped <= |whole| && whole[skipped..] == b
    ensures FoundAt(later, a, whole) && forall i | 0 <= i < |later| :: later[i] >= skipped
  {
    later := seq(|at|, i requires 0 <= i < |at| => skipped + at[i]);
  }

  lemma FoundBoth<T>(first: seq<nat>, a: seq<T>, later: seq<nat>, b: seq<T>, whole: seq<T>)
    requires FoundAt(first, a, whole) && FoundAt(later, b, whole)
    requires forall i, j | 0 <= i < |first| && 0 <= j < |later| :: first[i] < later[j]
    ensures FoundAt(first + later, a + b, whole)
  {
  }

  /** Either pipe hands out what was accepted in order, never a byte twice, and it still holds the rest. */
  lemma {:induction false} ReadsInOrder(states: seq<LineState>, ops: seq<Op>) returns (at: seq<nat>)
    requires IsRun(states, ops) && KeepsPlace(states, ops)
    ensures FoundAt(at, AllGot(states, ops) + states[|ops|].contents, states[0].contents + AllTaken(states, ops))
    decreases |ops|
  {
    hide Taken, Got, Steps, KeepsPlace, FoundAt;
    var contents := states[0].contents;
    if ops == [] {
      at := InPlace(contents);
    } else {
      var taken, got, after, end := Taken(states[0], ops[0]), Got(states[0], ops[0]), states[1].contents, states[|ops|].contents;
      FirstCall(states, ops);
      var rest := ReadsInOrder(states[1..], ops[1..]);
      var more, gots := AllTaken(states[1..], ops[1..]), AllGot(states[1..], ops[1..]);
      at := FoundAfter(contents + taken, got, after, more, gots + end, rest);
      assert got + (gots + end) == (got + gots) + end;
      assert (contents + taken) + more == contents + (taken + more);
    }
  }

  lemma InPlace<T>(a: seq<T>) returns (at: seq<nat>)
    ensures FoundAt(at, [] + a, a + [])
  {
    at := seq(|a|, i => i);
    assert [] + a == a == a + [];
  }
}
