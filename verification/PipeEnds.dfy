/** The ends of pipes in the tasks' descriptor tables, and the counters that decide when a pipe is freed. */
module PipeEnds {
  import opened Wrappers
  import opened DLists
  import Pipes

  datatype Kind = PIPE_POBJ | PIPELINE_POBJ

  /** A process object: the write or the read end of a pipe, or an open file. */
  datatype Pobj = End(kind: Kind, data: nat) | File

  datatype Shared = Shared(data: nat, references: nat)

  datatype PipeCounts = PipeCounts(readers: int, writers: int)

  type Slots = seq<Option<nat>>

  datatype World = World(
    objs: map<nat, Pobj>,           // process objects by address
    shares: map<nat, Shared>,       // shared_t by address
    pipes: map<nat, PipeCounts>,    // pipe_t by address
    tables: map<nat, Slots>,        // each task's pobjects by pid
    places: map<nat, (nat, nat)>,   // history: the task and the descriptor that an object was put at
    next: nat)                      // addresses from here on are not in use

  // ---------- Copying and freeing one object ----------

  function Bumped(c: PipeCounts, kind: Kind, d: int): PipeCounts {
    match kind
    case PIPE_POBJ => c.(writers := c.writers + d)
    case PIPELINE_POBJ => c.(readers := c.readers + d)
  }

  predicate Backed(w: World, s: nat) {
    s in w.shares && w.shares[s].data in w.pipes
  }

  /** pobj_copy with pipe_obj_ctor and shared_aquire: the copy is at w.next. */
  function Copied(w: World, o: nat): World
    requires o in w.objs && (w.objs[o].End? ==> Backed(w, w.objs[o].data))
  {
    var obj := w.objs[o];
    var copy := w.(objs := w.objs[w.next := obj], next := w.next + 1);
    if obj.File? then copy else
      var share := w.shares[obj.data];
      copy.(
        shares := w.shares[obj.data := share.(references := share.references + 1)],
        pipes := w.pipes[share.data := Bumped(w.pipes[share.data], obj.kind, 1)])
  }

  /** pobj_free with pipe_obj_dtor and shared_release. */
  function Freed(w: World, o: nat): World
    requires o in w.objs && (w.objs[o].End? ==> Backed(w, w.objs[o].data))
  {
    var obj := w.objs[o];
    var gone := w.(objs := w.objs - {o});
    if obj.File? then gone else
      var share := w.shares[obj.data];
      var pipes := w.pipes[share.data := Bumped(w.pipes[share.data], obj.kind, -1)];
      if share.references == 0 then gone.(pipes := pipes)
      else if share.references == 1 then gone.(shares := w.shares - {obj.data}, pipes := pipes - {share.data})
      else gone.(shares := w.shares[obj.data := share.(references := share.references - 1)], pipes := pipes)
  }

  // ---------- The operations ----------

  /** dlist_add of an object to a task's table. */
  function Stored(w: World, pid: nat, o: nat): World
    requires pid in w.tables
  {
    w.(tables := w.tables[pid := Added(w.tables[pid], DEFAULT_BLOCKSIZE, o)],
       places := w.places[o := (pid, Lowest(w.tables[pid]))])
  }

  function MadeFile(w: World): World {
    w.(objs := w.objs[w.next := File], next := w.next + 1)
  }

  /** A pipe with one end of each kind, not yet in a table. */
  function MadePipe(w: World): World {
    var writeEnd, p, s, readEnd := w.next, w.next + 1, w.next + 2, w.next + 3;
    w.(
      objs := w.objs[writeEnd := End(PIPE_POBJ, s)][readEnd := End(PIPELINE_POBJ, s)],
      shares := w.shares[s := Shared(p, 2)],
      pipes := w.pipes[p := PipeCounts(1, 1)],
      next := w.next + 4)
  }

  /** vfs_open, where it succeeds. */
  function Opened(w: World, pid: nat): World
    requires pid in w.tables
  {
    Stored(MadeFile(w), pid, w.next)
  }

  /** make_pipes: the read end takes the first descriptor. */
  function Piped(w: World, pid: nat): World
    requires pid in w.tables
  {
    Stored(Stored(MadePipe(w), pid, w.next + 3), pid, w.next)
  }

  /** vfs_close */
  function Closed(w: World, pid: nat, fd: int): World
    requires Inv(w) && pid in w.tables
  {
    match Looked(w.tables[pid], fd)
    case None => w
    case Some(o) => Freed(w.(tables := w.tables[pid := Removed(w.tables[pid], fd)], places := w.places - {o}), o)
  }

  // ---------- What every operation keeps ----------

  ghost function EndsOf(objs: map<nat, Pobj>, s: nat, kind: Kind): set<nat> {
    set o | o in objs && objs[o] == End(kind, s)
  }

  /** The counters of a pipe are the numbers of its ends, and its references their sum. */
  ghost predicate Counted(w: World, s: nat)
    requires Backed(w, s)
  {
    var share := w.shares[s];
    var counts := w.pipes[share.data];
    && counts.writers == |EndsOf(w.objs, s, PIPE_POBJ)|
    && counts.readers == |EndsOf(w.objs, s, PIPELINE_POBJ)|
    && share.references == counts.readers + counts.writers > 0
  }

  ghost predicate HasShare(w: World, p: nat) {
    exists s :: s in w.shares && w.shares[s].data == p
  }

  ghost predicate Counts(w: World) {
    && (forall s | s in w.shares :: Backed(w, s) && Counted(w, s))
    && (forall s, t | s in w.shares && t in w.shares && s != t :: w.shares[s].data != w.shares[t].data)
    && (forall o | o in w.objs && w.objs[o].End? :: w.objs[o].data in w.shares)
    && (forall p | p in w.pipes :: HasShare(w, p))
    && (forall o | o in w.objs :: o < w.next) && (forall s | s in w.shares :: s < w.next) && forall p | p in w.pipes :: p < w.next
  }

  /** Every object but the loose ones is in exactly one slot of one table. */
  ghost predicate Placed(w: World, loose: set<nat>) {
    && w.places.Keys == w.objs.Keys - loose && loose <= w.objs.Keys
    && (forall pid | pid in w.tables :: Spare(w.tables[pid]))
    && (forall o | o in w.places ::
      w.places[o].0 in w.tables && Looked(w.tables[w.places[o].0], w.places[o].1) == Some(o))
    && forall pid, fd: nat | pid in w.tables && Looked(w.tables[pid], fd).Some? ::
      var o := Looked(w.tables[pid], fd).value; o in w.places && w.places[o] == (pid, fd)
  }

  ghost predicate Inv(w: World) {
    Counts(w) && Placed(w, {})
  }

  lemma EndsWith(objs: map<nat, Pobj>, o: nat, obj: Pobj, s: nat, kind: Kind)
    requires o !in objs
    ensures EndsOf(objs[o := obj], s, kind) == EndsOf(objs, s, kind) + if obj == End(kind, s) then {o} else {}
  {
    var after := objs[o := obj];
    forall x | x in EndsOf(after, s, kind)
      ensures x in EndsOf(objs, s, kind) + if obj == End(kind, s) then {o} else {}
    {
      if x != o {
        assert objs[x] == after[x];
      }
    }
    forall x | x in EndsOf(objs, s, kind)
      ensures x in EndsOf(after, s, kind)
    {
      assert after[x] == objs[x];
    }
  }

  lemma EndsWithout(objs: map<nat, Pobj>, o: nat, s: nat, kind: Kind)
    requires o in objs
    ensures EndsOf(objs - {o}, s, kind) == EndsOf(objs, s, kind) - {o}
    ensures o in EndsOf(objs, s, kind) <==> objs[o] == End(kind, s)
  {
    var after := objs - {o};
    assert forall x | x in after :: after[x] == objs[x];
  }

  /** A new object counts where it is an end, and nowhere else. */
  lemma CountsWith(objs: map<nat, Pobj>, o: nat, obj: Pobj, s: nat)
    requires o !in objs
    ensures |EndsOf(objs[o := obj], s, PIPE_POBJ)| == |EndsOf(objs, s, PIPE_POBJ)| + if obj == End(PIPE_POBJ, s) then 1 else 0
    ensures |EndsOf(objs[o := obj], s, PIPELINE_POBJ)| == |EndsOf(objs, s, PIPELINE_POBJ)| + if obj == End(PIPELINE_POBJ, s) then 1 else 0
  {
    EndsWith(objs, o, obj, s, PIPE_POBJ);
    EndsWith(objs, o, obj, s, PIPELINE_POBJ);
  }

  lemma CountsWithout(objs: map<nat, Pobj>, o: nat, s: nat)
    requires o in objs
    ensures |EndsOf(objs - {o}, s, PIPE_POBJ)| == |EndsOf(objs, s, PIPE_POBJ)| - if objs[o] == End(PIPE_POBJ, s) then 1 else 0
    ensures |EndsOf(objs - {o}, s, PIPELINE_POBJ)| == |EndsOf(objs, s, PIPELINE_POBJ)| - if objs[o] == End(PIPELINE_POBJ, s) then 1 else 0
  {
    EndsWithout(objs, o, s, PIPE_POBJ);
    EndsWithout(objs, o, s, PIPELINE_POBJ);
  }

  lemma SharesStay(w: World, after: World)
    requires forall p | p in w.pipes :: HasShare(w, p)
    requires forall s | s in w.shares :: s in after.shares && after.shares[s].data == w.shares[s].data
    ensures forall p | p in w.pipes :: HasShare(after, p)
  {
    forall p | p in w.pipes
      ensures HasShare(after, p)
    {
      var s :| s in w.shares && w.shares[s].data == p;
      assert after.shares[s].data == p;
    }
  }

  lemma CopiedCounted(w: World, o: nat, s: nat)
    requires Counts(w) && o in w.objs && s in w.shares
    ensures Backed(Copied(w, o), s) && Counted(Copied(w, o), s)
  {
    hide EndsOf, HasShare;
    assert Counted(w, s);
    CountsWith(w.objs, w.next, w.objs[o], s);
  }

  /** Copying an end counts it. */
  lemma CopiedCounts(w: World, o: nat)
    requires Counts(w) && o in w.objs
    ensures Counts(Copied(w, o))
  {
    hide EndsOf, HasShare, Counted;
    var after := Copied(w, o);
    forall s | s in after.shares
      ensures Backed(after, s) && Counted(after, s)
    {
      CopiedCounted(w, o, s);
    }
    SharesStay(w, after);
  }

  lemma FreedCounted(w: World, o: nat, s: nat)
    requires Counts(w) && o in w.objs && s in w.shares
    requires w.objs[o].End? && w.objs[o].data == s ==> w.shares[s].references > 1
    ensures s in Freed(w, o).shares && Backed(Freed(w, o), s) && Counted(Freed(w, o), s)
  {
    hide EndsOf, HasShare;
    assert Counted(w, s);
    CountsWithout(w.objs, o, s);
  }

  /** Freeing an end that is not the last one counts it out. */
  lemma FreedOneOfMany(w: World, o: nat)
    requires Counts(w) && o in w.objs && (w.objs[o].End? ==> w.shares[w.objs[o].data].references > 1)
    ensures Counts(Freed(w, o))
  {
    hide EndsOf, HasShare, Counted;
    var after := Freed(w, o);
    forall s | s in after.shares
      ensures Backed(after, s) && Counted(after, s)
    {
      FreedCounted(w, o, s);
    }
    SharesStay(w, after);
  }

  /** Freeing the last end frees the pipe. */
  lemma FreedLast(w: World, o: nat)
    requires Counts(w) && o in w.objs && w.objs[o].End? && w.shares[w.objs[o].data].references == 1
    ensures Counts(Freed(w, o))
  {
    hide EndsOf, HasShare;
    var after, gone := Freed(w, o), w.objs[o].data;
    assert after.shares == w.shares - {gone};
    forall s | s in after.shares
      ensures Backed(after, s) && Counted(after, s)
    {
      FreedCounted(w, o, s);
    }
    forall x | x in after.objs && after.objs[x].End?
      ensures after.objs[x].data in after.shares
    {
      if w.objs[x].data == gone {
        assert Counted(w, gone);
        OnlyEnd(w, gone, o, x);
      }
    }
    forall p | p in after.pipes
      ensures HasShare(after, p)
    {
      KeepsShare(w, after, gone, p);
    }
  }

  lemma KeepsShare(w: World, after: World, gone: nat, p: nat)
    requires HasShare(w, p) && gone in w.shares && p != w.shares[gone].data && after.shares == w.shares - {gone}
    ensures HasShare(after, p)
  {
    var s :| s in w.shares && w.shares[s].data == p;
    assert after.shares[s].data == p;
  }

  lemma FreedCounts(w: World, o: nat)
    requires Counts(w) && o in w.objs
    ensures Counts(Freed(w, o))
  {
    hide Freed, EndsOf;
    if w.objs[o].End? && w.shares[w.objs[o].data].references == 1 {
      FreedLast(w, o);
    } else {
      assert w.objs[o].End? ==> Counted(w, w.objs[o].data);
      FreedOneOfMany(w, o);
    }
  }

  lemma OnlyEnd(w: World, s: nat, o: nat, x: nat)
    requires Backed(w, s) && Counted(w, s) && o in w.objs && x in w.objs && o != x
    requires w.objs[o].End? && w.objs[x].End? && w.objs[o].data == s == w.objs[x].data
    ensures w.shares[s].references >= 2
  {
    var a, b := EndsOf(w.objs, s, PIPE_POBJ), EndsOf(w.objs, s, PIPELINE_POBJ);
    assert a !! b;
    forall y | y in {o, x}
      ensures y in a + b
    {
      assert w.objs[y] == End(w.objs[y].kind, s);
      assert w.objs[y].kind == PIPE_POBJ || w.objs[y].kind == PIPELINE_POBJ;
    }
    Subset({o, x}, a + b);
  }

  lemma Subset<T>(a: set<T>, b: set<T>)
    requires a <= b
    ensures |a| <= |b|
  {
    assert b == a + (b - a);
  }

  // ---------- Placing objects in the tables ----------

  lemma StoredPlaced(w: World, pid: nat, o: nat, loose: set<nat>)
    requires Placed(w, loose) && o in loose && pid in w.tables
    ensures Placed(Stored(w, pid, o), loose - {o})
  {
    hide Added;
    AddTakesLowest(w.tables[pid], DEFAULT_BLOCKSIZE, o);
  }

  lemma CopiedPlaced(w: World, o: nat)
    requires Counts(w) && Placed(w, {}) && o in w.objs
    ensures Placed(Copied(w, o), {w.next})
  {
  }

  /** A copy put into a table. */
  function Duplicated(w: World, o: nat, pid: nat): (after: World)
    requires o in w.objs && pid in w.tables && (w.objs[o].End? ==> Backed(w, w.objs[o].data))
  {
    Stored(Copied(w, o), pid, w.next)
  }

  lemma SameCounts(w: World, tables: map<nat, Slots>, places: map<nat, (nat, nat)>)
    requires Counts(w)
    ensures Counts(w.(tables := tables, places := places))
  {
    hide EndsOf;
    var after := w.(tables := tables, places := places);
    forall s | s in after.shares
      ensures Backed(after, s) && Counted(after, s)
    {
      assert Counted(w, s);
    }
    SharesStay(w, after);
  }

  lemma DuplicatedKeeps(w: World, o: nat, pid: nat)
    requires Inv(w) && o in w.objs && pid in w.tables
    ensures Inv(Duplicated(w, o, pid))
  {
    hide Counts, Placed, Copied;
    EndBacked(w, o);
    CopiedCounts(w, o);
    CopiedPlaced(w, o);
    var copy, after := Copied(w, o), Duplicated(w, o, pid);
    assert copy.tables == w.tables by { CopiedElsewhere(w, o); }
    StoredPlaced(copy, pid, w.next, {w.next});
    assert {w.next} - {w.next} == {};
    SameCounts(copy, after.tables, after.places);
  }

  lemma CopiedElsewhere(w: World, o: nat)
    requires o in w.objs && (w.objs[o].End? ==> Backed(w, w.objs[o].data))
    ensures Copied(w, o).tables == w.tables && Copied(w, o).places == w.places
    ensures Copied(w, o).pipes.Keys == w.pipes.Keys
  {
  }

  lemma DuplicatedTable(w: World, o: nat, pid: nat)
    requires o in w.objs && pid in w.tables && (w.objs[o].End? ==> Backed(w, w.objs[o].data))
    ensures var after := Duplicated(w, o, pid);
      && after.tables == w.tables[pid := Added(w.tables[pid], DEFAULT_BLOCKSIZE, w.next)]
      && after.objs == w.objs[w.next := w.objs[o]]
  {
  }

  lemma EndBacked(w: World, o: nat)
    requires Counts(w) && o in w.objs
    ensures w.objs[o].End? ==> Backed(w, w.objs[o].data)
  {
  }

  lemma MadeFileCounts(w: World)
    requires Inv(w)
    ensures Counts(MadeFile(w)) && Placed(MadeFile(w), {w.next})
  {
    hide EndsOf, HasShare;
    var made := MadeFile(w);
    forall s | s in made.shares
      ensures Backed(made, s) && Counted(made, s)
    {
      assert Counted(w, s);
      CountsWith(w.objs, w.next, File, s);
    }
    SharesStay(w, made);
  }

  lemma OpenedKeeps(w: World, pid: nat)
    requires Inv(w) && pid in w.tables
    ensures Inv(Opened(w, pid))
  {
    hide Counts, Placed;
    var made, after := MadeFile(w), Opened(w, pid);
    MadeFileCounts(w);
    StoredPlaced(made, pid, w.next, {w.next});
    assert {w.next} - {w.next} == {};
    SameCounts(made, after.tables, after.places);
  }

  lemma NoEnds(w: World, s: nat, kind: Kind)
    requires Counts(w) && s !in w.shares
    ensures EndsOf(w.objs, s, kind) == {}
  {
    hide HasShare, Counted;
  }

  lemma MadePipeCounted(w: World, s: nat)
    requires Inv(w) && s in MadePipe(w).shares
    ensures Backed(MadePipe(w), s) && Counted(MadePipe(w), s)
  {
    hide EndsOf, HasShare;
    var one := w.objs[w.next := End(PIPE_POBJ, w.next + 2)];
    CountsWith(w.objs, w.next, End(PIPE_POBJ, w.next + 2), s);
    CountsWith(one, w.next + 3, End(PIPELINE_POBJ, w.next + 2), s);
    if s in w.shares {
      assert Counted(w, s);
    } else {
      NoEnds(w, s, PIPE_POBJ);
      NoEnds(w, s, PIPELINE_POBJ);
    }
  }

  lemma MadePipeCounts(w: World)
    requires Inv(w)
    ensures Counts(MadePipe(w)) && Placed(MadePipe(w), {w.next, w.next + 3})
  {
    hide EndsOf, HasShare, Counted;
    var made := MadePipe(w);
    forall s | s in made.shares
      ensures Backed(made, s) && Counted(made, s)
    {
      MadePipeCounted(w, s);
    }
    SharesStay(w, made);
    assert HasShare(made, w.next + 1) by {
      NewShare(made, w.next + 2);
    }
  }

  lemma NewShare(w: World, s: nat)
    requires s in w.shares
    ensures HasShare(w, w.shares[s].data)
  {
  }

  /** A new pipe has one end of each kind. */
  lemma PipedKeeps(w: World, pid: nat)
    requires Inv(w) && pid in w.tables
    ensures Inv(Piped(w, pid))
  {
    hide Counts, Placed;
    var made, after := MadePipe(w), Piped(w, pid);
    MadePipeCounts(w);
    var one := Stored(made, pid, w.next + 3);
    StoredPlaced(made, pid, w.next + 3, {w.next, w.next + 3});
    assert {w.next, w.next + 3} - {w.next + 3} == {w.next};
    StoredPlaced(one, pid, w.next, {w.next});
    assert {w.next} - {w.next} == {};
    SameCounts(made, after.tables, after.places);
  }

  lemma ClosedPlaced(w: World, pid: nat, fd: nat, o: nat)
    requires Counts(w) && Placed(w, {}) && pid in w.tables && Looked(w.tables[pid], fd) == Some(o)
    ensures o in w.objs && (w.objs[o].End? ==> Backed(w, w.objs[o].data))
    ensures Placed(Closed(w, pid, fd), {})
  {
    hide Counts, Removed, Looked;
    EndBacked(w, o);
    RemoveEmpties(w.tables[pid], fd);
    var after := Closed(w, pid, fd);
    assert w.places[o] == (pid, fd);
    assert after.objs == w.objs - {o} && after.places == w.places - {o};
    forall q, g: nat | q in after.tables && Looked(after.tables[q], g).Some?
      ensures var x := Looked(after.tables[q], g).value; x in after.places && after.places[x] == (q, g)
    {
      assert Looked(w.tables[q], g) == Looked(after.tables[q], g);
    }
  }

  /** Closing a descriptor drops its object. */
  lemma ClosedKeeps(w: World, pid: nat, fd: int)
    requires Inv(w) && pid in w.tables
    ensures Inv(Closed(w, pid, fd))
  {
    hide Counts, Placed, Freed;
    if Looked(w.tables[pid], fd).Some? {
      var o := Looked(w.tables[pid], fd).value;
      var cut := w.(tables := w.tables[pid := Removed(w.tables[pid], fd)], places := w.places - {o});
      ClosedPlaced(w, pid, fd, o);
      SameCounts(w, cut.tables, cut.places);
      FreedCounts(cut, o);
    }
  }

  // ---------- Spawning and exiting ----------

  /** The loop of init_task from its i-th round: the child gets copies up to the first descriptor that is not there. */
  ghost function Inherited(w: World, cur: nat, pid: nat, fds: seq<int>, i: nat): (after: World)
    requires Inv(w) && cur in w.tables && pid in w.tables
    ensures Inv(after) && after.tables.Keys == w.tables.Keys
    decreases |fds| - i
  {
    hide Inv, Duplicated;
    if i >= |fds| || Looked(w.tables[cur], fds[i]).None? then w else
      var o := Looked(w.tables[cur], fds[i]).value;
      InTable(w, cur, fds[i]);
      DuplicatedKeeps(w, o, pid);
      DuplicatedTable(w, o, pid);
      Inherited(Duplicated(w, o, pid), cur, pid, fds, i + 1)
  }

  lemma InheritedStep(w: World, cur: nat, pid: nat, fds: seq<int>, i: nat)
    requires Inv(w) && cur in w.tables && pid in w.tables && i < |fds|
    ensures Looked(w.tables[cur], fds[i]).None? ==> Inherited(w, cur, pid, fds, i) == w
    ensures Looked(w.tables[cur], fds[i]).Some? ==>
      var next := DuplicatedAt(w, cur, fds[i], pid);
      && Inv(next) && next.tables.Keys == w.tables.Keys
      && Inherited(w, cur, pid, fds, i) == Inherited(next, cur, pid, fds, i + 1)
  {
    hide Inv;
    if Looked(w.tables[cur], fds[i]).Some? {
      var o := Looked(w.tables[cur], fds[i]).value;
      InTable(w, cur, fds[i]);
      DuplicatedKeeps(w, o, pid);
      DuplicatedTable(w, o, pid);
    }
  }

  lemma InheritedAll(w: World, cur: nat, pid: nat, fds: seq<int>)
    requires Inv(w) && cur in w.tables && pid in w.tables
    ensures Inherited(w, cur, pid, fds, |fds|) == w
  {
  }

  ghost function DuplicatedAt(w: World, cur: nat, fd: int, pid: nat): World
    requires Inv(w) && cur in w.tables && pid in w.tables && Looked(w.tables[cur], fd).Some?
  {
    InTable(w, cur, fd);
    Duplicated(w, Looked(w.tables[cur], fd).value, pid)
  }

  /** What a table refers to is an object. */
  lemma InTable(w: World, pid: nat, fd: int)
    requires Inv(w) && pid in w.tables && Looked(w.tables[pid], fd).Some?
    ensures var o := Looked(w.tables[pid], fd).value;
      o in w.objs && (w.objs[o].End? ==> Backed(w, w.objs[o].data)) && 0 <= fd && w.places[o] == (pid, fd)
  {
    hide HasShare, Counted;
    assert 0 <= fd;
  }

  function Started(w: World, pid: nat): World {
    w.(tables := w.tables[pid := Empty(DEFAULT_BLOCKSIZE)])
  }

  lemma StartedKeeps(w: World, pid: nat)
    requires Inv(w) && pid !in w.tables
    ensures Inv(Started(w, pid))
  {
    hide Counts;
    SameCounts(w, Started(w, pid).tables, w.places);
  }

  /** init_task for a new process or thread. */
  ghost function Spawned(w: World, cur: nat, pid: nat, fds: seq<int>): (after: World)
    requires Inv(w) && cur in w.tables && pid !in w.tables
    ensures Inv(after)
  {
    StartedKeeps(w, pid);
    Inherited(Started(w, pid), cur, pid, fds, 0)
  }

  /** Closes the first n descriptors. */
  ghost function ClosedTo(w: World, pid: nat, n: nat): (after: World)
    requires Inv(w) && pid in w.tables
    ensures Inv(after) && after.tables.Keys == w.tables.Keys
  {
    hide Inv, Closed;
    if n == 0 then w else
      ClosedKeeps(ClosedTo(w, pid, n - 1), pid, n - 1);
      ClosedTable(ClosedTo(w, pid, n - 1), pid, n - 1);
      Closed(ClosedTo(w, pid, n - 1), pid, n - 1)
  }

  /** What remove_task_by_pid does to a task's objects. */
  ghost function Exited(w: World, pid: nat): (after: World)
    requires Inv(w) && pid in w.tables
    ensures Inv(after)
  {
    ExitedKeeps(w, pid);
    var closed := ClosedTo(w, pid, |w.tables[pid]|);
    closed.(tables := closed.tables - {pid})
  }

  lemma ClosedTable(w: World, pid: nat, fd: int)
    requires Inv(w) && pid in w.tables
    ensures Closed(w, pid, fd).tables == w.tables[pid := Removed(w.tables[pid], fd)]
  {
    if Looked(w.tables[pid], fd).Some? {
      InTable(w, pid, fd);
    } else {
      assert Removed(w.tables[pid], fd) == w.tables[pid];
      assert w.tables[pid := w.tables[pid]] == w.tables;
    }
  }

  lemma {:induction false} ClosedToTable(w: World, pid: nat, n: nat)
    requires Inv(w) && pid in w.tables && n <= |w.tables[pid]|
    ensures var after := ClosedTo(w, pid, n);
      && after.tables == w.tables[pid := after.tables[pid]] && |after.tables[pid]| == |w.tables[pid]|
      && forall i | 0 <= i < |w.tables[pid]| :: after.tables[pid][i] == if i < n then None else w.tables[pid][i]
  {
    hide Inv, Closed;
    if n == 0 {
      assert w.tables[pid := w.tables[pid]] == w.tables;
    } else {
      ClosedToTable(w, pid, n - 1);
      ClosedTable(ClosedTo(w, pid, n - 1), pid, n - 1);
    }
  }

  lemma ExitedKeeps(w: World, pid: nat)
    requires Inv(w) && pid in w.tables
    ensures var closed := ClosedTo(w, pid, |w.tables[pid]|); Inv(closed.(tables := closed.tables - {pid}))
  {
    hide Counts, ClosedTo;
    var closed := ClosedTo(w, pid, |w.tables[pid]|);
    ClosedToTable(w, pid, |w.tables[pid]|);
    SameCounts(closed, closed.tables - {pid}, closed.places);
    EmptyTableGoes(closed, pid);
  }

  lemma EmptyTableGoes(w: World, pid: nat)
    requires Placed(w, {}) && pid in w.tables && forall i | 0 <= i < |w.tables[pid]| :: w.tables[pid][i] == None
    ensures Placed(w.(tables := w.tables - {pid}), {})
  {
    var after := w.tables - {pid};
    forall o | o in w.places
      ensures w.places[o].0 in after
    {
      assert Looked(w.tables[w.places[o].0], w.places[o].1) == Some(o);
    }
  }

  // ---------- Whole runs ----------

  datatype Op = MakePipes(pid: nat) | Open(pid: nat) | Spawn(cur: nat, pid: nat, fds: seq<int>) | Close(pid: nat, fd: int) | Exit(pid: nat)

  ghost predicate CanDo(w: World, op: Op) {
    match op
    case Spawn(cur, pid, _) => cur in w.tables && pid !in w.tables
    case _ => op.pid in w.tables
  }

  ghost function Do(w: World, op: Op): (after: World)
    requires Inv(w) && CanDo(w, op)
    ensures Inv(after)
  {
    match op
    case MakePipes(pid) => PipedKeeps(w, pid); Piped(w, pid)
    case Open(pid) => OpenedKeeps(w, pid); Opened(w, pid)
    case Spawn(cur, pid, fds) => Spawned(w, cur, pid, fds)
    case Close(pid, fd) => ClosedKeeps(w, pid, fd); Closed(w, pid, fd)
    case Exit(pid) => Exited(w, pid)
  }

  ghost predicate Possible(w: World, run: seq<Op>)
    requires Inv(w)
    decreases |run|
  {
    run == [] || (CanDo(w, run[0]) && Possible(Do(w, run[0]), run[1..]))
  }

  ghost function After(w: World, run: seq<Op>): (after: World)
    requires Inv(w) && Possible(w, run)
    ensures Inv(after)
    decreases |run|
  {
    if run == [] then w else After(Do(w, run[0]), run[1..])
  }

  /** Before any task made a pipe: the first task's table is empty. */
  function Boot(): World {
    World(map[], map[], map[], map[0 := Empty(DEFAULT_BLOCKSIZE)], map[], 0)
  }

  /** A descriptor of a task is an end of a pipe. */
  ghost predicate IsEnd(w: World, pid: nat, fd: nat, kind: Kind, p: nat) {
    && pid in w.tables && Looked(w.tables[pid], fd).Some?
    && var o := Looked(w.tables[pid], fd).value;
      o in w.objs && w.objs[o].End? && w.objs[o].kind == kind && w.objs[o].data in w.shares && w.shares[w.objs[o].data].data == p
  }

  ghost predicate Referred(w: World, p: nat) {
    exists pid, fd, kind :: IsEnd(w, pid, fd, kind, p)
  }

  /** In every reachable state a pipe is allocated exactly while some descriptor of some task is an end of it. */
  lemma PipeLivesWhileReferred(run: seq<Op>, p: nat)
    requires Inv(Boot()) && Possible(Boot(), run)
    ensures var w := After(Boot(), run); p in w.pipes <==> Referred(w, p)
  {
    var w := After(Boot(), run);
    if p in w.pipes {
      SomeEnd(w, p);
    }
  }

  lemma SomeEnd(w: World, p: nat)
    requires Inv(w) && p in w.pipes
    ensures Referred(w, p)
  {
    assert HasShare(w, p);
    var s :| s in w.shares && w.shares[s].data == p;
    assert Counted(w, s);
    var o :| o in EndsOf(w.objs, s, PIPE_POBJ) + EndsOf(w.objs, s, PIPELINE_POBJ);
    assert IsEnd(w, w.places[o].0, w.places[o].1, w.objs[o].kind, p);
  }

  lemma BootInv()
    ensures Inv(Boot())
  {
  }

  /** The descriptors, over all tasks, that are ends of one kind of a pipe. */
  ghost function Descriptors(w: World, p: nat, kind: Kind): set<(nat, nat)> {
    Image(w.places, EndObjs(w, p, kind))
  }

  ghost function EndObjs(w: World, p: nat, kind: Kind): set<nat> {
    set o | o in w.places && IsEnd(w, w.places[o].0, w.places[o].1, kind, p)
  }

  lemma DescriptorsAll(w: World, p: nat, kind: Kind)
    requires Inv(w)
    ensures forall pid: nat, fd: nat :: (pid, fd) in Descriptors(w, p, kind) <==> IsEnd(w, pid, fd, kind, p)
  {
    forall pid: nat, fd: nat | IsEnd(w, pid, fd, kind, p)
      ensures (pid, fd) in Descriptors(w, p, kind)
    {
      InTable(w, pid, fd);
    }
  }

  ghost function Image<A, B>(m: map<A, B>, s: set<A>): set<B> {
    set a | a in s && a in m :: m[a]
  }

  lemma {:induction false} ImageSize<A, B>(m: map<A, B>, s: set<A>)
    requires s <= m.Keys && forall a, b | a in m && b in m && a != b :: m[a] != m[b]
    ensures |Image(m, s)| == |s|
  {
    if s != {} {
      var a :| a in s;
      ImageSize(m, s - {a});
      assert Image(m, s) == Image(m, s - {a}) + {m[a]};
    }
  }

  /** In every reachable state a pipe's counters are the numbers of descriptors that are its ends. */
  lemma CountersCountDescriptors(run: seq<Op>, p: nat)
    requires Inv(Boot()) && Possible(Boot(), run) && p in After(Boot(), run).pipes
    ensures var w := After(Boot(), run);
      && w.pipes[p].writers == |Descriptors(w, p, PIPE_POBJ)| && w.pipes[p].readers == |Descriptors(w, p, PIPELINE_POBJ)|
      && exists s :: s in w.shares && w.shares[s] == Shared(p, w.pipes[p].readers + w.pipes[p].writers)
  {
    var w := After(Boot(), run);
    assert HasShare(w, p);
    var s :| s in w.shares && w.shares[s].data == p;
    assert Counted(w, s);
    EndsAreDescriptors(w, s, PIPE_POBJ);
    EndsAreDescriptors(w, s, PIPELINE_POBJ);
  }

  lemma EndsAreDescriptors(w: World, s: nat, kind: Kind)
    requires Inv(w) && s in w.shares
    ensures |EndsOf(w.objs, s, kind)| == |Descriptors(w, w.shares[s].data, kind)|
  {
    hide Counts;
    var ends, p := EndsOf(w.objs, s, kind), w.shares[s].data;
    forall o | o in w.places
      ensures o in ends <==> IsEnd(w, w.places[o].0, w.places[o].1, kind, p)
    {
      SameShare(w, o, s);
    }
    ImageSize(w.places, ends);
    assert EndObjs(w, p, kind) == ends;
  }

  lemma SameShare(w: World, o: nat, s: nat)
    requires Counts(w) && o in w.objs && s in w.shares
    ensures w.objs[o].End? ==> w.objs[o].data in w.shares && (w.shares[w.objs[o].data].data == w.shares[s].data ==> w.objs[o].data == s)
  {
    hide Counted, HasShare;
  }

  // ---------- What a child gets ----------

  /** The first of the given descriptors, from the i-th, that is not there. */
  function Missing(table: Slots, fds: seq<int>, i: nat): (j: nat)
    requires i <= |fds|
    ensures i <= j <= |fds| && (forall k | i <= k < j :: Looked(table, fds[k]).Some?) && (j < |fds| ==> Looked(table, fds[j]).None?)
    decreases |fds| - i
  {
    if i == |fds| || Looked(table, fds[i]).None? then i else Missing(table, fds, i + 1)
  }

  /** A descriptor of the child is a copy of one of the parent's. */
  ghost predicate IsCopy(w: World, cur: nat, fd: int, after: World, pid: nat, k: nat) {
    && cur in w.tables && pid in after.tables && Looked(w.tables[cur], fd).Some? && Looked(after.tables[pid], k).Some?
    && var o, copy := Looked(w.tables[cur], fd).value, Looked(after.tables[pid], k).value;
      o in w.objs && copy in after.objs && after.objs[copy] == w.objs[o]
  }

  ghost predicate Keeps(w: World, after: World) {
    && (forall o | o in w.objs :: o in after.objs && after.objs[o] == w.objs[o])
    && forall s | s in w.shares :: s in after.shares && after.shares[s].data == w.shares[s].data
  }

  /** The first i descriptors of a table are taken and no other. */
  ghost predicate Filled(slots: Slots, i: nat) {
    forall k: int :: Looked(slots, k).Some? <==> 0 <= k < i
  }

  /** One round: the copy is at the child's i-th descriptor. */
  lemma InheritedRound(w: World, cur: nat, pid: nat, fds: seq<int>, i: nat)
    requires Inv(w) && cur in w.tables && pid in w.tables && cur != pid && i < |fds| < |w.tables[pid]|
    requires Filled(w.tables[pid], i) && Looked(w.tables[cur], fds[i]).Some?
    ensures var next := DuplicatedAt(w, cur, fds[i], pid);
      && Inv(next) && next.tables == w.tables[pid := next.tables[pid]] && |fds| < |next.tables[pid]| && Filled(next.tables[pid], i + 1)
      && (forall k: nat | k < i :: Looked(next.tables[pid], k) == Looked(w.tables[pid], k))
      && IsCopy(w, cur, fds[i], next, pid, i) && Keeps(w, next)
      && Inherited(w, cur, pid, fds, i) == Inherited(next, cur, pid, fds, i + 1)
  {
    hide Inv, Added, Keeps, Duplicated;
    var o := Looked(w.tables[cur], fds[i]).value;
    InheritedStep(w, cur, pid, fds, i);
    InTable(w, cur, fds[i]);
    DuplicatedKeepsOthers(w, o, pid);
    DuplicatedTable(w, o, pid);
    TableSpare(w, pid);
    LowestAt(w.tables[pid], i);
    AddTakesLowest(w.tables[pid], DEFAULT_BLOCKSIZE, w.next);
    NextUnused(w);
  }

  /** A copy made later is a copy of the same object. */
  lemma CopyLater(w: World, next: World, cur: nat, fd: int, after: World, pid: nat, k: nat)
    requires Inv(w) && cur in w.tables && cur in next.tables && next.tables[cur] == w.tables[cur] && Keeps(w, next)
    requires IsCopy(next, cur, fd, after, pid, k)
    ensures IsCopy(w, cur, fd, after, pid, k)
  {
    hide Inv;
    InTable(w, cur, fd);
  }

  lemma DuplicatedKeepsOthers(w: World, o: nat, pid: nat)
    requires Inv(w) && o in w.objs && pid in w.tables && (w.objs[o].End? ==> Backed(w, w.objs[o].data))
    ensures Keeps(w, Duplicated(w, o, pid))
  {
    hide Placed, Counted, HasShare;
  }

  lemma KeepsSelf(w: World)
    ensures Keeps(w, w)
  {
  }

  lemma KeepsTwice(w: World, next: World, after: World)
    requires Keeps(w, next) && Keeps(next, after)
    ensures Keeps(w, after)
  {
  }

  lemma {:induction false} InheritedEnds(w: World, cur: nat, pid: nat, fds: seq<int>, i: nat)
    requires Inv(w) && cur in w.tables && pid in w.tables && cur != pid && i <= |fds| < |w.tables[pid]| && Filled(w.tables[pid], i)
    ensures var after, stop := Inherited(w, cur, pid, fds, i), Missing(w.tables[cur], fds, i);
      && after.tables == w.tables[pid := after.tables[pid]] && Keeps(w, after) && Filled(after.tables[pid], stop)
      && (forall k: nat | k < i :: Looked(after.tables[pid], k) == Looked(w.tables[pid], k))
      && forall k | i <= k < stop :: IsCopy(w, cur, fds[k], after, pid, k)
    decreases |fds| - i
  {
    hide Inv, Duplicated, DuplicatedAt, Filled, Looked, IsCopy, Keeps;
    if i == |fds| || Looked(w.tables[cur], fds[i]).None? {
      KeepsSelf(w);
      assert w.tables[pid := w.tables[pid]] == w.tables;
    } else {
      var next := DuplicatedAt(w, cur, fds[i], pid);
      InheritedRound(w, cur, pid, fds, i);
      InheritedEnds(next, cur, pid, fds, i + 1);
      KeepsTwice(w, next, Inherited(w, cur, pid, fds, i));
      var after, stop := Inherited(w, cur, pid, fds, i), Missing(w.tables[cur], fds, i);
      forall k | i <= k < stop
        ensures IsCopy(w, cur, fds[k], after, pid, k)
      {
        if k == i {
          SameCopy(w, cur, fds[i], next, after, pid, i);
        } else {
          CopyLater(w, next, cur, fds[k], after, pid, k);
        }
      }
    }
  }

  lemma SameCopy(w: World, cur: nat, fd: int, next: World, after: World, pid: nat, k: nat)
    requires IsCopy(w, cur, fd, next, pid, k) && Keeps(next, after)
    requires pid in after.tables && Looked(after.tables[pid], k) == Looked(next.tables[pid], k)
    ensures IsCopy(w, cur, fd, after, pid, k)
  {
  }

  lemma LowestAt(slots: Slots, i: nat)
    requires i < |slots| && forall k: int :: Looked(slots, k).Some? <==> 0 <= k < i
    ensures Lowest(slots) == i
  {
    assert Looked(slots, i).None?;
    forall j | 0 <= j < i
      ensures slots[j].Some?
    {
      assert Looked(slots, j).Some?;
    }
    LowestIs(slots, i);
  }

  lemma TableSpare(w: World, pid: nat)
    requires Inv(w) && pid in w.tables
    ensures Spare(w.tables[pid])
  {
  }

  lemma NextUnused(w: World)
    requires Inv(w)
    ensures w.next !in w.objs
  {
  }

  /** A child's descriptors are copies of the named ones of its parent, up to the first that is not there; nothing else is. */
  lemma SpawnCopiesDescriptors(w: World, cur: nat, pid: nat, fds: seq<int>)
    requires Inv(w) && cur in w.tables && pid !in w.tables && |fds| == 3
    ensures var after, stop := Spawned(w, cur, pid, fds), Missing(w.tables[cur], fds, 0);
      && after.tables == w.tables[pid := after.tables[pid]] && Keeps(w, after) && Filled(after.tables[pid], stop)
      && forall k | 0 <= k < stop :: IsCopy(w, cur, fds[k], after, pid, k)
  {
    hide Inv;
    StartedKeeps(w, pid);
    InheritedEnds(Started(w, pid), cur, pid, fds, 0);
  }

  // ---------- What the other descriptors see ----------

  /** A descriptor answers as before: the same object, an end of the same pipe. */
  ghost predicate SameAnswer(w: World, after: World, pid: nat, fd: nat) {
    && pid in w.tables && pid in after.tables && Looked(after.tables[pid], fd) == Looked(w.tables[pid], fd)
    && (Looked(w.tables[pid], fd).Some? ==>
      var o := Looked(w.tables[pid], fd).value; o in w.objs && o in after.objs && after.objs[o] == w.objs[o])
    && forall kind, p :: IsEnd(after, pid, fd, kind, p) <==> IsEnd(w, pid, fd, kind, p)
  }

  /** A reference that is still there refers to the same pipe. */
  ghost predicate SameData(w: World, after: World) {
    forall s | s in w.shares && s in after.shares :: after.shares[s].data == w.shares[s].data
  }

  lemma SameObject(w: World, after: World, pid: nat, fd: nat)
    requires Inv(w) && Inv(after) && SameData(w, after)
    requires pid in w.tables && pid in after.tables && Looked(after.tables[pid], fd) == Looked(w.tables[pid], fd)
    requires Looked(w.tables[pid], fd).Some? ==>
      var o := Looked(w.tables[pid], fd).value; o in w.objs && o in after.objs && after.objs[o] == w.objs[o]
    ensures SameAnswer(w, after, pid, fd)
  {
    hide Placed, Counted, HasShare;
  }

  /** make_pipes hands out the two lowest empty descriptors: the first is a read end, the second a write end of a new pipe. */
  lemma PipedEnds(w: World, pid: nat, readFd: nat, writeFd: nat)
    requires Inv(w) && pid in w.tables
    requires readFd == Lowest(w.tables[pid]) && writeFd == Lowest(Added<nat>(w.tables[pid], DEFAULT_BLOCKSIZE, w.next + 3))
    ensures var after, p := Piped(w, pid), w.next + 1;
      && p !in w.pipes && IsEnd(after, pid, readFd, PIPELINE_POBJ, p) && IsEnd(after, pid, writeFd, PIPE_POBJ, p)
      && readFd < writeFd && (forall fd | 0 <= fd < writeFd :: Looked(w.tables[pid], fd).None? <==> fd == readFd)
      && Looked(w.tables[pid], writeFd).None?
      && forall q: nat, fd: nat | q in w.tables && (q, fd) != (pid, readFd) && (q, fd) != (pid, writeFd) :: SameAnswer(w, after, q, fd)
  {
    hide Inv, Added, Looked, IsEnd, SameAnswer;
    var slots := w.tables[pid];
    var one := Added<nat>(slots, DEFAULT_BLOCKSIZE, w.next + 3);
    PipedKeeps(w, pid);
    PipeUnused(w);
    TableSpare(w, pid);
    AddTakesLowest<nat>(slots, DEFAULT_BLOCKSIZE, w.next + 3);
    AddTakesLowest<nat>(one, DEFAULT_BLOCKSIZE, w.next);
    PipedObjects(w, pid);
    assert IsEnd(Piped(w, pid), pid, readFd, PIPELINE_POBJ, w.next + 1) by { EndAt(Piped(w, pid), pid, readFd, w.next + 3, w.next + 2); }
    assert IsEnd(Piped(w, pid), pid, writeFd, PIPE_POBJ, w.next + 1) by { EndAt(Piped(w, pid), pid, writeFd, w.next, w.next + 2); }
    forall q: nat, fd: nat | q in w.tables && (q, fd) != (pid, readFd) && (q, fd) != (pid, writeFd)
      ensures SameAnswer(w, Piped(w, pid), q, fd)
    {
      if Looked(w.tables[q], fd).Some? {
        InTable(w, q, fd);
      }
      SameObject(w, Piped(w, pid), q, fd);
    }
  }

  lemma PipedIs(w: World, pid: nat)
    requires pid in w.tables
    ensures Piped(w, pid) == Stored(Stored(MadePipe(w), pid, w.next + 3), pid, w.next)
  {
  }

  lemma EndAt(w: World, pid: nat, fd: nat, o: nat, s: nat)
    requires pid in w.tables && Looked(w.tables[pid], fd) == Some(o) && o in w.objs && w.objs[o].End? && w.objs[o].data == s && s in w.shares
    ensures IsEnd(w, pid, fd, w.objs[o].kind, w.shares[s].data)
  {
  }

  lemma PipedObjects(w: World, pid: nat)
    requires Inv(w) && pid in w.tables
    ensures var after, one := Piped(w, pid), Added<nat>(w.tables[pid], DEFAULT_BLOCKSIZE, w.next + 3);
      && after.tables == w.tables[pid := Added<nat>(one, DEFAULT_BLOCKSIZE, w.next)]
      && after.objs == w.objs[w.next := End(PIPE_POBJ, w.next + 2)][w.next + 3 := End(PIPELINE_POBJ, w.next + 2)]
      && after.shares == w.shares[w.next + 2 := Shared(w.next + 1, 2)]
      && (forall o | o in w.objs :: o in after.objs && after.objs[o] == w.objs[o]) && SameData(w, after)
  {
    hide Placed, Counted, HasShare, Added;
  }

  /** open takes the lowest empty descriptor for the file, and nothing else changes its answer. */
  lemma OpenedFile(w: World, pid: nat)
    requires Inv(w) && pid in w.tables
    ensures var after, fd := Opened(w, pid), Lowest(w.tables[pid]);
      && Looked(w.tables[pid], fd).None? && (forall lower | 0 <= lower < fd :: Looked(w.tables[pid], lower).Some?)
      && Looked(after.tables[pid], fd) == Some(w.next) && w.next in after.objs && after.objs[w.next] == File
      && forall q: nat, other: nat | q in w.tables && (q, other) != (pid, fd) :: SameAnswer(w, after, q, other)
  {
    hide Inv, Added, Looked, SameAnswer;
    var after, fd := Opened(w, pid), Lowest(w.tables[pid]);
    OpenedKeeps(w, pid);
    NextUnused(w);
    TableSpare(w, pid);
    AddTakesLowest(w.tables[pid], DEFAULT_BLOCKSIZE, w.next);
    forall q: nat, other: nat | q in w.tables && (q, other) != (pid, fd)
      ensures SameAnswer(w, after, q, other)
    {
      if Looked(w.tables[q], other).Some? {
        InTable(w, q, other);
      }
      SameObject(w, after, q, other);
    }
  }

  /** close empties the descriptor, and nothing else changes its answer. */
  lemma ClosedOne(w: World, pid: nat, fd: nat)
    requires Inv(w) && pid in w.tables
    ensures var after := Closed(w, pid, fd);
      && pid in after.tables && Looked(after.tables[pid], fd).None?
      && forall q: nat, other: nat | q in w.tables && (q, other) != (pid, fd) :: SameAnswer(w, after, q, other)
  {
    hide Inv, SameAnswer, Looked, Removed;
    var after := Closed(w, pid, fd);
    ClosedKeeps(w, pid, fd);
    ClosedTable(w, pid, fd);
    TableSpare(w, pid);
    RemoveEmpties(w.tables[pid], fd);
    ClosedObjects(w, pid, fd);
    forall q: nat, other: nat | q in w.tables && (q, other) != (pid, fd)
      ensures SameAnswer(w, after, q, other)
    {
      if Looked(w.tables[q], other).Some? {
        InTable(w, q, other);
        if Looked(w.tables[pid], fd).Some? {
          InTable(w, pid, fd);
        }
      }
      SameObject(w, after, q, other);
    }
  }

  lemma ClosedObjects(w: World, pid: nat, fd: nat)
    requires Inv(w) && pid in w.tables
    ensures var after := Closed(w, pid, fd);
      && SameData(w, after)
      && after.objs == if Looked(w.tables[pid], fd).Some? then w.objs - {Looked(w.tables[pid], fd).value} else w.objs
  {
    hide Inv, Looked, Removed;
    if Looked(w.tables[pid], fd).Some? {
      InTable(w, pid, fd);
    }
  }

  lemma SameTwice(w: World, next: World, after: World, pid: nat, fd: nat)
    requires SameAnswer(w, next, pid, fd) && SameAnswer(next, after, pid, fd)
    ensures SameAnswer(w, after, pid, fd)
  {
  }

  lemma SameNow(w: World, pid: nat, fd: nat)
    requires Inv(w) && pid in w.tables
    ensures SameAnswer(w, w, pid, fd)
  {
    hide Inv;
    if Looked(w.tables[pid], fd).Some? {
      InTable(w, pid, fd);
    }
  }

  lemma {:induction false} ClosedToOthers(w: World, pid: nat, n: nat, q: nat, fd: nat)
    requires Inv(w) && pid in w.tables && q in w.tables && q != pid
    ensures SameAnswer(w, ClosedTo(w, pid, n), q, fd)
  {
    hide Inv, Closed, SameAnswer;
    if n == 0 {
      SameNow(w, q, fd);
    } else {
      var closed := ClosedTo(w, pid, n - 1);
      ClosedToOthers(w, pid, n - 1, q, fd);
      ClosedOne(closed, pid, n - 1);
      SameTwice(w, closed, ClosedTo(w, pid, n), q, fd);
    }
  }

  /** An ending task loses its table, and no other task's descriptor changes its answer. */
  lemma ExitedAlone(w: World, pid: nat)
    requires Inv(w) && pid in w.tables
    ensures var after := Exited(w, pid);
      after.tables.Keys == w.tables.Keys - {pid} && forall q: nat, fd: nat | q in after.tables :: SameAnswer(w, after, q, fd)
  {
    hide Inv, SameAnswer, ClosedTo;
    forall q: nat, fd: nat | q in w.tables && q != pid
      ensures SameAnswer(w, Exited(w, pid), q, fd)
    {
      ClosedToOthers(w, pid, |w.tables[pid]|, q, fd);
      SameTable(w, ClosedTo(w, pid, |w.tables[pid]|), Exited(w, pid), q, fd);
    }
  }

  lemma SameTable(w: World, next: World, after: World, pid: nat, fd: nat)
    requires SameAnswer(w, next, pid, fd) && pid in after.tables && after.tables[pid] == next.tables[pid]
    requires after.objs == next.objs && after.shares == next.shares
    ensures SameAnswer(w, after, pid, fd)
  {
  }

  /** Spawning changes no other task's descriptor's answer. */
  lemma SpawnedAlone(w: World, cur: nat, pid: nat, fds: seq<int>, q: nat, fd: nat)
    requires Inv(w) && cur in w.tables && pid !in w.tables && |fds| == 3 && q in w.tables
    ensures SameAnswer(w, Spawned(w, cur, pid, fds), q, fd)
  {
    hide Inv, SameAnswer, Spawned;
    SpawnCopiesDescriptors(w, cur, pid, fds);
    if Looked(w.tables[q], fd).Some? {
      InTable(w, q, fd);
    }
    SameObject(w, Spawned(w, cur, pid, fds), q, fd);
  }

  // ---------- The kernel's code ----------

  const PIPE_SIZE: nat := 256
  const ERROR_TRY_AGAIN: int := 9
  const ERROR_NOT_FOUND: int := 6
  const ERROR_INVALID_ARGUMENT: int := 2

  function HalfMade(w: World, readers: int, writers: int): World {
    w.(objs := w.objs[w.next := End(PIPE_POBJ, w.next + 2)], shares := w.shares[w.next + 2 := Shared(w.next + 1, 1)],
       pipes := w.pipes[w.next + 1 := PipeCounts(readers, writers)], next := w.next + 3)
  }

  /** Copying the write end, making the copy a read end and setting both counters gives the whole pipe. */
  lemma HalfMadeEnd(w: World, readers: int, writers: int)
    ensures var half, s, p := HalfMade(w, readers, writers), w.next + 2, w.next + 1;
      && half.objs[w.next] == End(PIPE_POBJ, s) && Backed(half, s)
      && var copied := Copied(half, w.next);
      && w.next in copied.objs && copied.objs[w.next] == End(PIPE_POBJ, s)
      && s in copied.shares && copied.shares[s].data == p && p in copied.pipes
      && var read := copied.objs[w.next + 3 := End(PIPELINE_POBJ, s)];
      var one := copied.pipes[p := copied.pipes[p].(readers := 1)];
      copied.(objs := read, pipes := one[p := one[p].(writers := 1)]) == MadePipe(w)
  {
    HalfCopied(w, readers, writers);
    var p := w.next + 1;
    var counts := PipeCounts(readers, writers + 1);
    hide HalfMade, Copied;
    Twice(w.shares, w.next + 2, Shared(p, 1), Shared(p, 2));
    Twice(w.pipes, p, PipeCounts(readers, writers), counts);
    Twice(w.pipes, p, counts, counts.(readers := 1));
    Twice(w.pipes, p, counts.(readers := 1), PipeCounts(1, 1));
    Twice(w.objs[w.next := End(PIPE_POBJ, w.next + 2)], w.next + 3, End(PIPE_POBJ, w.next + 2), End(PIPELINE_POBJ, w.next + 2));
  }

  lemma HalfCopied(w: World, readers: int, writers: int)
    ensures var half, s, p := HalfMade(w, readers, writers), w.next + 2, w.next + 1;
      && half.objs[w.next] == End(PIPE_POBJ, s) && Backed(half, s)
      && Copied(half, w.next) == w.(
        objs := w.objs[w.next := End(PIPE_POBJ, s)][w.next + 3 := End(PIPE_POBJ, s)],
        shares := w.shares[s := Shared(p, 1)][s := Shared(p, 2)],
        pipes := w.pipes[p := PipeCounts(readers, writers)][p := PipeCounts(readers, writers + 1)],
        next := w.next + 4)
  {
  }

  lemma Twice<K, V>(m: map<K, V>, k: K, a: V, b: V)
    ensures m[k := a][k := b] == m[k := b]
  {
  }

  lemma MadeElsewhere(w: World)
    ensures MadePipe(w).tables == w.tables && MadePipe(w).pipes.Keys == w.pipes.Keys + {w.next + 1}
  {
  }

  lemma PipeUnused(w: World)
    requires Inv(w)
    ensures w.next + 1 !in w.pipes
  {
  }

  lemma NothingClosed(w: World, pid: nat)
    requires Inv(w) && pid in w.tables
    ensures ClosedTo(w, pid, 0) == w
  {
  }

  /** Freeing the next object of the table, which is left as it is, against closing its descriptor. */
  lemma ClosedOneMore(w: World, pid: nat, i: nat)
    requires Inv(w) && pid in w.tables && i < |w.tables[pid]|
    ensures var closed, slot := ClosedTo(w, pid, i), Looked(w.tables[pid], i);
      && (slot.None? ==> ClosedTo(w, pid, i + 1) == closed)
      && (slot.Some? ==>
        var o, here := slot.value, closed.(tables := w.tables, places := closed.places - {slot.value});
        && o in here.objs && (here.objs[o].End? ==> Backed(here, here.objs[o].data))
        && ClosedTo(w, pid, i + 1).(tables := w.tables) == Freed(here, o))
  {
    hide Inv, Freed, Closed;
    var closed := ClosedTo(w, pid, i);
    ClosedToTable(w, pid, i);
    if Looked(w.tables[pid], i).Some? {
      InTable(closed, pid, i);
      ClosedElsewhere(closed, w.tables, pid, i);
    } else {
      NothingToClose(closed, pid, i);
    }
  }

  lemma NothingToClose(w: World, pid: nat, i: nat)
    requires Inv(w) && pid in w.tables && Looked(w.tables[pid], i).None?
    ensures Closed(w, pid, i) == w
  {
  }

  /** Closing a descriptor, but for the tables, is freeing its object. */
  lemma ClosedElsewhere(w: World, tables: map<nat, Slots>, pid: nat, i: nat)
    requires Inv(w) && pid in w.tables && Looked(w.tables[pid], i).Some?
    requires var o := Looked(w.tables[pid], i).value; o in w.objs && (w.objs[o].End? ==> Backed(w, w.objs[o].data))
    ensures var o := Looked(w.tables[pid], i).value;
      Closed(w, pid, i).(tables := tables) == Freed(w.(tables := tables, places := w.places - {o}), o)
  {
    hide Inv, Looked, Removed;
  }

  lemma WritersIffEnd(w: World, s: nat)
    requires Inv(w) && s in w.shares
    ensures Backed(w, s)
    ensures w.pipes[w.shares[s].data].writers >= 1 <==> exists pid: nat, fd: nat :: IsEnd(w, pid, fd, PIPE_POBJ, w.shares[s].data)
  {
    hide Counts, Placed;
    CountedHere(w, s);
    EndsAreDescriptors(w, s, PIPE_POBJ);
    var p := w.shares[s].data;
    SomeDescriptor(w, p, PIPE_POBJ);
  }

  lemma SomeDescriptor(w: World, p: nat, kind: Kind)
    requires Inv(w)
    ensures |Descriptors(w, p, kind)| >= 1 <==> exists pid: nat, fd: nat :: IsEnd(w, pid, fd, kind, p)
  {
    hide Inv, IsEnd, Descriptors;
    DescriptorsAll(w, p, kind);
    var all := Descriptors(w, p, kind);
    if |all| >= 1 {
      var d :| d in all;
      assert (d.0, d.1) == d;
      assert IsEnd(w, d.0, d.1, kind, p);
    }
    if exists pid: nat, fd: nat :: IsEnd(w, pid, fd, kind, p) {
      var pid: nat, fd: nat :| IsEnd(w, pid, fd, kind, p);
      assert (pid, fd) in all;
    }
  }

  lemma EndHere(w: World, o: nat)
    requires Inv(w) && o in w.objs && w.objs[o].End?
    ensures Backed(w, w.objs[o].data)
  {
  }

  lemma CountedHere(w: World, s: nat)
    requires Inv(w) && s in w.shares
    ensures Backed(w, s) && Counted(w, s)
  {
  }

  /** A line as make_pipe_pobj makes it, and as it stays. */
  ghost predicate LineOk(line: Pipes.Pipeline)
    reads line
  {
    line.Valid() && line.Synced() && line.size == PIPE_SIZE && line.open && !line.block
  }

  ghost predicate EmptyLine(line: Pipes.Pipeline)
    reads line, line.buf
  {
    LineOk(line) && line.Contents() == []
  }

  class Kernel {
    var objs: map<nat, Pobj>
    var shares: map<nat, Shared>
    var pipes: map<nat, PipeCounts>
    var lines: map<nat, Pipes.Pipeline>
    var tables: map<nat, Slots>
    ghost var places: map<nat, (nat, nat)>
    var next: nat

    ghost function State(): World
      reads this
    {
      World(objs, shares, pipes, tables, places, next)
    }

    /** Each pipe has a line of its own. */
    ghost predicate LinesOk()
      reads this, lines.Values
    {
      && lines.Keys == pipes.Keys && (forall p | p in lines :: LineOk(lines[p]))
      && forall p, q | p in lines && q in lines && p != q :: lines[p] != lines[q] && lines[p].buf != lines[q].buf
    }

    ghost predicate Valid()
      reads this, lines.Values
    {
      Inv(State()) && LinesOk()
    }

    constructor ()
      ensures Valid() && State() == Boot()
    {
      objs, shares, pipes, lines := map[], map[], map[], map[];
      tables, places, next := map[0 := Empty(DEFAULT_BLOCKSIZE)], map[], 0;
      new;
      BootInv();
    }

    method SharedAquire(ptr: nat)
      requires ptr in shares
      modifies this`shares
      ensures shares == old(shares)[ptr := old(shares[ptr]).(references := old(shares[ptr]).references + 1)]
    {
      shares := shares[ptr := shares[ptr].(references := shares[ptr].references + 1)];
    }

    method SharedRelease(ptr: nat)
      requires ptr in shares
      modifies this`shares, this`pipes, this`lines
      ensures var share := old(shares[ptr]);
        if share.references == 1 then
          shares == old(shares) - {ptr} && pipes == old(pipes) - {share.data} && lines == old(lines) - {share.data}
        else
          && pipes == old(pipes) && lines == old(lines)
          && shares == old(shares)[ptr := share.(references := if share.references == 0 then 0 else share.references - 1)]
    {
      if shares[ptr].references != 0 {
        shares := shares[ptr := shares[ptr].(references := shares[ptr].references - 1)];
        if shares[ptr].references == 0 {
          pipes, lines := pipes - {shares[ptr].data}, lines - {shares[ptr].data};
          shares := shares - {ptr};
        }
      }
    }

    /** pobj_copy */
    method PobjCopy(o: nat) returns (ret: nat)
      requires o in objs && (objs[o].End? ==> Backed(State(), objs[o].data))
      modifies this`objs, this`shares, this`pipes, this`next
      ensures ret == old(next) && State() == Copied(old(State()), o)
    {
      ret, next := next, next + 1;
      match objs[o]
      case File =>
        objs := objs[ret := File];
      case End(kind, data) =>
        // pipe_obj_ctor
        objs := objs[ret := End(kind, data)];
        SharedAquire(data);
        var temp := shares[data].data;
        match kind {
          case PIPE_POBJ => pipes := pipes[temp := pipes[temp].(writers := pipes[temp].writers + 1)];
          case PIPELINE_POBJ => pipes := pipes[temp := pipes[temp].(readers := pipes[temp].readers + 1)];
        }
    }

    /** pobj_free */
    method PobjFree(o: nat)
      requires o in objs && (objs[o].End? ==> Backed(State(), objs[o].data))
      modifies this`objs, this`shares, this`pipes, this`lines
      ensures State() == Freed(old(State()), o)
      ensures pipes.Keys <= old(pipes.Keys)
      ensures old(lines.Keys == pipes.Keys) ==> lines == old(lines) - (old(pipes.Keys) - pipes.Keys)
    {
      match objs[o] {
        case File =>
        case End(kind, data) =>
          // pipe_obj_dtor
          var temp := shares[data].data;
          match kind {
            case PIPE_POBJ => pipes := pipes[temp := pipes[temp].(writers := pipes[temp].writers - 1)];
            case PIPELINE_POBJ => pipes := pipes[temp := pipes[temp].(readers := pipes[temp].readers - 1)];
          }
          SharedRelease(data);
          assert old(shares[data].references) == 0 ==> shares == old(shares);
      }
      objs := objs - {o};
    }

    /** dlist_add on a task's table. */
    method TableAdd(pid: nat, o: nat) returns (fd: nat)
      requires pid in tables
      modifies this`tables, this`places
      ensures State() == Stored(old(State()), pid, o) && fd == Lowest(old(tables[pid]))
    {
      fd := Lowest(tables[pid]);
      places := places[o := (pid, fd)];
      tables := tables[pid := Added(tables[pid], DEFAULT_BLOCKSIZE, o)];
    }

    /** make_pipe_pobj: the counters of a pipe_t from kmalloc are not set yet, and the read end is still to be made. */
    method MakePipePobj() returns (ret: nat, ghost readers: int, ghost writers: int)
      modifies this
      ensures ret == old(next) && State() == HalfMade(old(State()), readers, writers)
      ensures var p := old(next) + 1;
        && p in lines && lines == old(lines)[p := lines[p]] && fresh(lines[p]) && fresh(lines[p].buf)
        && EmptyLine(lines[p])
    {
      ret := next;
      var p, s := next + 1, next + 2;
      var line := new Pipes.Pipeline(PIPE_SIZE, false);
      var r, w := *, *;
      next := next + 3;
      objs := objs[ret := End(PIPE_POBJ, s)];
      pipes, lines := pipes[p := PipeCounts(r, w)], lines[p := line];
      shares := shares[s := Shared(p, 1)];
      readers, writers := r, w;
    }

    /** make_pipes up to where it hands out descriptors. */
    method MakeEnds() returns (readEnd: nat, writeEnd: nat)
      requires Inv(State())
      modifies this
      ensures writeEnd == old(next) && readEnd == old(next) + 3 && State() == MadePipe(old(State()))
      ensures tables == old(tables) && pipes.Keys == old(pipes.Keys) + {old(next) + 1}
      ensures var p := old(next) + 1;
        && p in lines && lines == old(lines)[p := lines[p]] && fresh(lines[p]) && fresh(lines[p].buf)
        && EmptyLine(lines[p])
    {
      hide Inv, Copied, MadePipe, LineOk, EmptyLine;
      ghost var before := State();
      MadeElsewhere(before);
      ghost var readers, writers;
      writeEnd, readers, writers := MakePipePobj();
      HalfMadeEnd(before, readers, writers);
      readEnd := PobjCopy(writeEnd);
      var s := objs[writeEnd].data;
      objs := objs[readEnd := End(PIPELINE_POBJ, s)];
      var temp := shares[s].data;
      pipes := pipes[temp := pipes[temp].(readers := 1)];
      pipes := pipes[temp := pipes[temp].(writers := 1)];
    }

    method PutEnds(pid: nat, readEnd: nat, writeEnd: nat) returns (readFd: nat, writeFd: nat)
      requires pid in tables
      modifies this`tables, this`places
      ensures State() == Stored(Stored(old(State()), pid, readEnd), pid, writeEnd)
      ensures readFd == Lowest(old(tables[pid])) && writeFd == Lowest(Added(old(tables[pid]), DEFAULT_BLOCKSIZE, readEnd))
    {
      readFd := TableAdd(pid, readEnd);
      writeFd := TableAdd(pid, writeEnd);
    }

    /** make_pipes */
    method MakePipes(pid: nat) returns (readFd: nat, writeFd: nat)
      requires Valid() && pid in tables
      modifies this
      ensures var p := old(next) + 1; p in lines && lines == old(lines)[p := lines[p]] && EmptyLine(lines[p])
      ensures readFd == Lowest(old(tables[pid])) && writeFd == Lowest(Added<nat>(old(tables[pid]), DEFAULT_BLOCKSIZE, old(next) + 3))
      ensures Valid() && State() == Piped(old(State()), pid)
      ensures var p := old(next) + 1;
        && p !in old(pipes) && IsEnd(State(), pid, readFd, PIPELINE_POBJ, p) && IsEnd(State(), pid, writeFd, PIPE_POBJ, p)
      ensures readFd < writeFd && Looked(old(tables[pid]), writeFd).None?
      ensures forall fd | 0 <= fd < writeFd :: Looked(old(tables[pid]), fd).None? <==> fd == readFd
      ensures forall q: nat, fd: nat | q in old(tables) && (q, fd) != (pid, readFd) && (q, fd) != (pid, writeFd) ::
        SameAnswer(old(State()), State(), q, fd)
    {
      hide Inv, Added, MadePipe, Stored, Pipes.Pipeline.Contents, LineOk, IsEnd, SameAnswer, Looked, Piped;
      ghost var before := State();
      PipedKeeps(State(), pid);
      PipeUnused(State());
      var readEnd, writeEnd := MakeEnds();
      readFd, writeFd := PutEnds(pid, readEnd, writeEnd);
      PipedIs(before, pid);
      PipedEnds(before, pid, readFd, writeFd);
    }

    /** One round of the loop of init_task: false where the parent has nothing at the descriptor. */
    method Inherit(cur: nat, pid: nat, fd: int) returns (copied: bool)
      requires Valid() && cur in tables && pid in tables
      modifies this
      ensures lines == old(lines) && copied == old(Looked(tables[cur], fd)).Some?
      ensures !copied ==> State() == old(State())
      ensures copied ==> State() == DuplicatedAt(old(State()), cur, fd, pid)
      ensures Valid() && tables.Keys == old(tables.Keys)
    {
      hide Inv, Copied, Stored;
      var nfobj := Looked(tables[cur], fd);
      copied := nfobj.Some?;
      if copied {
        InTable(State(), cur, fd);
        DuplicatedKeeps(State(), nfobj.value, pid);
        DuplicatedTable(State(), nfobj.value, pid);
        CopiedElsewhere(State(), nfobj.value);
        var nftemp := PobjCopy(nfobj.value);
        var added := TableAdd(pid, nftemp);
      }
    }

    /** The loop of init_task, for a task whose table is new. */
    method InitTask(cur: nat, pid: nat, fds: Option<seq<int>>)
      requires Valid() && cur in tables && pid !in tables && (fds.Some? ==> |fds.value| == 3)
      modifies this
      ensures lines == old(lines)
      ensures Valid() && State() == Spawned(old(State()), cur, pid, if fds.Some? then fds.value else [0, 1, 2])
    {
      hide Inv, DuplicatedAt, Inherited;
      ghost var named := if fds.Some? then fds.value else [0, 1, 2];
      StartedKeeps(State(), pid);
      tables := tables[pid := Empty(DEFAULT_BLOCKSIZE)];
      ghost var started := State();
      var i := 0;
      while i < 3
        invariant i <= 3 && Valid() && cur in tables && pid in tables && lines == old(lines)
        invariant Inherited(started, cur, pid, named, 0) == Inherited(State(), cur, pid, named, i)
      {
        InheritedStep(State(), cur, pid, named, i);
        var copied := Inherit(cur, pid, if fds.Some? then fds.value[i] else i);
        if !copied {
          break;
        }
        i := i + 1;
      }
      if i == 3 {
        InheritedAll(State(), cur, pid, named);
      }
    }

    /** vfs_get_pobj */
    method VfsGetPobj(pid: nat, pnode: int) returns (ret: int, obj: nat)
      requires pid in tables
      ensures ret == (if !(0 <= pnode < |tables[pid]|) then -ERROR_INVALID_ARGUMENT
        else if tables[pid][pnode].None? then -ERROR_NOT_FOUND else 0)
      ensures ret == 0 <==> Looked(tables[pid], pnode) == Some(obj)
    {
      ret, obj := 0, next;
      if 0 <= pnode < |tables[pid]| {
        match Looked(tables[pid], pnode)
        case Some(o) => obj := o;
        case None => ret := -ERROR_NOT_FOUND;
      } else {
        ret := -ERROR_INVALID_ARGUMENT;
      }
    }

    /** vfs_close; an open file's driver has its own answer. */
    method VfsClose(pid: nat, pnode: int, driver: int) returns (ret: int)
      requires Valid() && pid in tables
      modifies this
      ensures Valid() && State() == Closed(old(State()), pid, pnode)
      ensures lines == old(lines) - (old(pipes.Keys) - pipes.Keys)
      ensures ret == match Looked(old(tables[pid]), pnode)
        case None => if 0 <= pnode < |old(tables[pid])| then -ERROR_NOT_FOUND else -ERROR_INVALID_ARGUMENT
        case Some(o) => if o in old(objs) && old(objs)[o].File? then driver else 0
    {
      hide Inv, Freed;
      ClosedKeeps(State(), pid, pnode);
      var obj;
      ret, obj := VfsGetPobj(pid, pnode);
      if ret >= 0 {
        InTable(State(), pid, pnode);
        ret := if objs[obj].End? then 0 else driver;
        tables := tables[pid := Removed(tables[pid], pnode)];
        places := places - {obj};
        PobjFree(obj);
      }
    }

    method FreeEntry(pid: nat, i: nat, ghost before: World)
      requires Inv(before) && pid in before.tables && i < |before.tables[pid]| && tables == before.tables
      requires State() == ClosedTo(before, pid, i).(tables := before.tables) && lines.Keys == pipes.Keys
      modifies `objs, `shares, `pipes, `lines, `places
      ensures pipes.Keys <= old(pipes.Keys) && lines == old(lines) - (old(pipes.Keys) - pipes.Keys)
      ensures State() == ClosedTo(before, pid, i + 1).(tables := before.tables)
    {
      hide Inv, Freed, ClosedTo;
      var objptr := Looked(tables[pid], i);
      ClosedOneMore(before, pid, i);
      if objptr.Some? {
        places := places - {objptr.value};
        PobjFree(objptr.value);
      }
    }

    /** How remove_task_by_pid frees a task's objects; the table is not touched before it is freed. */
    method RemoveObjects(pid: nat)
      requires Valid() && pid in tables
      modifies this
      ensures lines == old(lines) - (old(pipes.Keys) - pipes.Keys)
      ensures Valid() && State() == Exited(old(State()), pid)
    {
      hide Inv, ClosedTo;
      ghost var before := State();
      FreeEntries(pid);
      ClosedToTable(before, pid, |before.tables[pid]|);
      tables := tables - {pid};
      ghost var after := Exited(before, pid);
      assert State() == after;
    }

    /** The loop over the table. */
    method FreeEntries(pid: nat)
      requires Inv(State()) && pid in tables && lines.Keys == pipes.Keys
      modifies `objs, `shares, `pipes, `lines, `places
      ensures State() == ClosedTo(old(State()), pid, |old(tables[pid])|).(tables := old(tables))
      ensures pipes.Keys <= old(pipes.Keys) && lines.Keys == pipes.Keys && lines == old(lines) - (old(pipes.Keys) - pipes.Keys)
    {
      hide Inv, ClosedTo;
      ghost var before := State();
      var nobjs, i := |tables[pid]|, 0;
      NothingClosed(before, pid);
      while i < nobjs
        invariant i <= nobjs == |before.tables[pid]| && tables == before.tables
        invariant State() == ClosedTo(before, pid, i).(tables := before.tables)
        invariant pipes.Keys <= before.pipes.Keys && lines.Keys == pipes.Keys
        invariant lines == old(lines) - (before.pipes.Keys - pipes.Keys)
      {
        FreeEntry(pid, i, before);
        i := i + 1;
      }
    }

    /** The pipe that an end belongs to. */
    ghost function Target(o: nat): nat
      requires Inv(State()) && o in objs && objs[o].End?
      reads this
    {
      EndHere(State(), o);
      shares[objs[o].data].data
    }

    /** pipe_vfs_read: an empty read is the end of the file only when no descriptor is a write end any more. */
    method PipeVfsRead(o: nat, out: array<char>, length: nat) returns (ret: int)
      requires Valid() && o in objs && objs[o].End? && length <= out.Length && forall p | p in lines :: lines[p].buf != out
      modifies lines[Target(o)], out
      ensures Valid() && State() == old(State()) && lines == old(lines)
      ensures var line := lines[Target(o)];
        var n := if length <= |old(line.Contents())| then length else |old(line.Contents())|;
        && line.Contents() == old(line.Contents())[n..] && out[..] == old(line.Contents())[..n] + old(out[..])[n..]
        && (n > 0 ==> ret == n)
        && (length == 0 ==> ret == 0)
        && (n == 0 && length > 0 ==>
          ret == if exists pid: nat, fd: nat :: IsEnd(State(), pid, fd, PIPE_POBJ, Target(o)) then -ERROR_TRY_AGAIN else 0)
    {
      hide Inv, Pipes.Pipeline.Contents, Pipes.InStep, IsEnd;
      EndHere(State(), o);
      var temp := shares[objs[o].data].data;
      WritersIffEnd(State(), objs[o].data);
      ret := lines[temp].Read(out, length);
      if length != 0 && ret == 0 && pipes[temp].writers >= 1 {
        ret := -ERROR_TRY_AGAIN;
      }
    }

    /** pipe_vfs_write: it takes all the data and never has the writer try again; the oldest bytes make room. */
    method PipeVfsWrite(o: nat, data: seq<char>) returns (ret: int)
      requires Valid() && o in objs && objs[o].End? && |data| < Pipes.WORD
      modifies lines[Target(o)], lines[Target(o)].buf
      ensures Valid() && State() == old(State()) && lines == old(lines) && ret == |data|
      ensures lines[Target(o)].Contents() == Pipes.Last(old(lines[Target(o)].Contents()) + data, PIPE_SIZE - 1)
    {
      hide Inv, Pipes.Pipeline.Contents, Pipes.InStep;
      EndHere(State(), o);
      var temp := shares[objs[o].data].data;
      ret := lines[temp].Write(data);
      assert data[..ret] == data;
      var readers := pipes[temp].readers;
      if |data| != 0 && ret == 0 && readers > 1 {
        ret := -ERROR_TRY_AGAIN;
      }
    }
  }
}
