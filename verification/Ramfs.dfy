/** The file system kept in memory: a table of inodes, and directories that name them. */
module Ramfs {
  import opened Wrappers
  import opened DLists
  import Paths

  const ERROR_NOT_DIRECTORY: int := 3
  const ERROR_NOT_FOUND: int := 6

  datatype Dirent = Dirent(name: string, inode: nat)

  /** What info.type says of data: a table of directory entries, or a file's bytes. */
  datatype Content = Dir(entries: seq<Option<Dirent>>) | Bytes

  datatype RNode = RNode(name: string, inode: nat, content: Content, mount: Option<nat>)

  datatype Fs = Fs(
    nodes: seq<Option<RNode>>,
    nnodes: nat,
    places: seq<(nat, nat)>)      // history: the directory and the slot where each inode was entered

  predicate Exists(fs: Fs, i: nat) {
    i < |fs.nodes| && fs.nodes[i].Some?
  }

  predicate IsDir(fs: Fs, i: nat) {
    Exists(fs, i) && fs.nodes[i].value.content.Dir?
  }

  function EntryAt(fs: Fs, dir: nat, slot: nat): Option<Dirent> {
    if IsDir(fs, dir) then Looked(fs.nodes[dir].value.content.entries, slot) else None
  }

  // ---------- Names ----------

  predicate Named(slot: Option<Dirent>, name: string) {
    slot.Some? && slot.value.name == name
  }

  /** The first slot of that name, or the length. */
  function FindSlot(entries: seq<Option<Dirent>>, name: string): (s: nat)
    ensures s <= |entries| && forall j | 0 <= j < s :: !Named(entries[j], name)
    ensures s < |entries| ==> Named(entries[s], name)
  {
    if entries == [] || Named(entries[0], name) then 0 else 1 + FindSlot(entries[1..], name)
  }

  function FindEntry(entries: seq<Option<Dirent>>, name: string): Option<nat> {
    var s := FindSlot(entries, name);
    if s < |entries| then Some(entries[s].value.inode) else None
  }

  /** All entries come before all empty slots, as nothing is ever removed from a directory. */
  ghost predicate Packed(entries: seq<Option<Dirent>>) {
    Spare(entries) && forall s | Lowest(entries) <= s < |entries| :: entries[s].None?
  }

  /** A new entry is found exactly if the name was not there, and no other name is found differently. */
  lemma AddedEntry(entries: seq<Option<Dirent>>, e: Dirent, name: string)
    requires Packed(entries)
    ensures var after := Added(entries, DEFAULT_BLOCKSIZE, e);
      && Packed(after)
      && FindEntry(after, name) == if FindEntry(entries, name).Some? then FindEntry(entries, name)
        else if name == e.name then Some(e.inode) else None
  {
    var after, i := Added(entries, DEFAULT_BLOCKSIZE, e), Lowest(entries);
    LowestIs(after, i + 1);
    var s, t := FindSlot(entries, name), FindSlot(after, name);
    assert s < |entries| ==> s < i && after[s] == entries[s];
    assert forall j | 0 <= j < i :: after[j] == entries[j];
    if s < |entries| {
      assert !(s < t) && !(t < s);
    } else if name == e.name {
      assert Named(after[i], name) && !(i < t) && !(t < i);
    }
  }

  // ---------- The tree ----------

  ghost predicate NodeOk(fs: Fs, i: nat)
    requires Exists(fs, i)
  {
    var node := fs.nodes[i].value;
    node.inode == i && (node.content.Dir? ==> Packed(node.content.entries))
  }

  /** An entry names a node of a larger inode than its directory's, and is the only one of that node. */
  ghost predicate EntryOk(fs: Fs, dir: nat, slot: nat) {
    EntryAt(fs, dir, slot).Some? ==>
      var e := EntryAt(fs, dir, slot).value;
      && dir < e.inode < |fs.places| && Exists(fs, e.inode) && fs.nodes[e.inode].value.name == e.name
      && fs.places[e.inode] == (dir, slot)
  }

  ghost predicate Entered(fs: Fs, i: nat)
    requires i < |fs.places| && Exists(fs, i)
  {
    EntryAt(fs, fs.places[i].0, fs.places[i].1) == Some(Dirent(fs.nodes[i].value.name, i))
  }

  /** Every node but the root is entered exactly once, in a directory of a smaller inode. */
  ghost predicate Tree(fs: Fs) {
    && Spare(fs.nodes) && 1 <= |fs.places| == fs.nnodes < |fs.nodes| && IsDir(fs, 0)
    && (forall i: nat :: Exists(fs, i) <==> i < fs.nnodes)
    && (forall i: nat | i < fs.nnodes :: NodeOk(fs, i))
    && (forall dir: nat, slot: nat :: EntryOk(fs, dir, slot))
    && forall i: nat | 0 < i < fs.nnodes :: Entered(fs, i)
  }

  // ---------- The operations ----------

  /** ramfs_add_node: the new inode is the lowest free one. */
  function AddedNode(fs: Fs, dir: nat, name: string, content: Content): Fs
    requires IsDir(fs, dir)
  {
    var inode, d := Lowest(fs.nodes), fs.nodes[dir].value;
    var entries := Added(d.content.entries, DEFAULT_BLOCKSIZE, Dirent(name, inode));
    Fs(Added(fs.nodes, DEFAULT_BLOCKSIZE, RNode(name, inode, content, None))[dir := Some(d.(content := Dir(entries)))],
       fs.nnodes + 1, fs.places + [(dir, Lowest(d.content.entries))])
  }

  function FindIn(fs: Fs, dir: nat, name: string): Option<nat> {
    if IsDir(fs, dir) then FindEntry(fs.nodes[dir].value.content.entries, name) else None
  }

  /** create_ramfs, before its first directory. */
  function Bare(): Fs {
    Fs(Empty<RNode>(DEFAULT_BLOCKSIZE)[0 := Some(RNode("root", 0, Dir(Empty(DEFAULT_BLOCKSIZE)), None))], 1, [(0, 0)])
  }

  datatype Op = Open(dir: nat, name: string, create: bool) | Mkdir(dir: nat, name: string) | Mount(inode: nat, mount: nat)

  /** What an operation makes of the file system. Open leaves it alone where the name is found. */
  function Done(fs: Fs, op: Op): Fs {
    match op
    case Open(dir, name, create) =>
      if IsDir(fs, dir) && create && FindIn(fs, dir, name).None? then AddedNode(fs, dir, name, Bytes) else fs
    case Mkdir(dir, name) => if IsDir(fs, dir) then AddedNode(fs, dir, name, Dir(Empty(DEFAULT_BLOCKSIZE))) else fs
    case Mount(inode, mount) =>
      if Exists(fs, inode) then fs.(nodes := fs.nodes[inode := Some(fs.nodes[inode].value.(mount := Some(mount)))]) else fs
  }

  // ---------- What every operation keeps ----------

  /** Where the table and the directories change. */
  lemma AddedShape(fs: Fs, dir: nat, name: string, content: Content)
    requires Tree(fs) && IsDir(fs, dir) && (content.Dir? ==> content.entries == Empty(DEFAULT_BLOCKSIZE))
    ensures var after, n, d := AddedNode(fs, dir, name, content), fs.nnodes, fs.nodes[dir].value;
      && (forall i: nat :: Exists(after, i) <==> i <= n)
      && (forall i: nat | i <= n :: after.nodes[i] == if i == n then Some(RNode(name, n, content, None))
          else if i == dir then Some(d.(content := Dir(Added(d.content.entries, DEFAULT_BLOCKSIZE, Dirent(name, n)))))
          else fs.nodes[i])
      && Spare(after.nodes) && n + 1 < |after.nodes|
  {
    hide NodeOk, EntryOk, Entered;
    var after, n := AddedNode(fs, dir, name, content), fs.nnodes;
    LowestNode(fs);
    AddTakesLowest(fs.nodes, DEFAULT_BLOCKSIZE, RNode(name, n, content, None));
    forall i: nat
      ensures Exists(after, i) <==> i <= n
      ensures i <= n ==> Exists(fs, i) || i == n
    {
      assert Exists(fs, i) <==> i < n;
    }
    assert !Exists(after, |after.nodes| - 1);
  }

  lemma AddedEntryAt(fs: Fs, dir: nat, name: string, content: Content, d: nat, slot: nat)
    requires Tree(fs) && IsDir(fs, dir) && (content.Dir? ==> content.entries == Empty(DEFAULT_BLOCKSIZE))
    ensures EntryAt(AddedNode(fs, dir, name, content), d, slot)
      == if d == dir && slot == Lowest(fs.nodes[dir].value.content.entries) then Some(Dirent(name, fs.nnodes)) else EntryAt(fs, d, slot)
  {
    hide EntryOk, Entered;
    AddedShape(fs, dir, name, content);
    var entries := fs.nodes[dir].value.content.entries;
    assert Exists(fs, dir) && NodeOk(fs, dir);
    AddTakesLowest(entries, DEFAULT_BLOCKSIZE, Dirent(name, fs.nnodes));
    assert Exists(fs, d) <==> d < fs.nnodes;
  }

  lemma AddedNodeOk(fs: Fs, dir: nat, name: string, content: Content, i: nat)
    requires Tree(fs) && IsDir(fs, dir) && (content.Dir? ==> content.entries == Empty(DEFAULT_BLOCKSIZE)) && i <= fs.nnodes
    ensures Exists(AddedNode(fs, dir, name, content), i) && NodeOk(AddedNode(fs, dir, name, content), i)
  {
    hide EntryOk, Entered;
    AddedShape(fs, dir, name, content);
    if i < fs.nnodes {
      assert NodeOk(fs, i);
      if i == dir {
        AddedEntry(fs.nodes[dir].value.content.entries, Dirent(name, fs.nnodes), name);
      }
    }
  }

  /** A new node keeps the tree. */
  lemma AddedKeeps(fs: Fs, dir: nat, name: string, content: Content)
    requires Tree(fs) && IsDir(fs, dir) && (content.Dir? ==> content.entries == Empty(DEFAULT_BLOCKSIZE))
    ensures Tree(AddedNode(fs, dir, name, content))
  {
    hide NodeOk;
    var after, n := AddedNode(fs, dir, name, content), fs.nnodes;
    AddedShape(fs, dir, name, content);
    assert after.nnodes == n + 1 == |after.places|;
    forall i: nat | i < n + 1
      ensures NodeOk(after, i)
    {
      AddedNodeOk(fs, dir, name, content, i);
    }
    forall d: nat, slot: nat
      ensures EntryOk(after, d, slot)
    {
      AddedEntryAt(fs, dir, name, content, d, slot);
      assert EntryOk(fs, d, slot);
    }
    forall i: nat | 0 < i < n + 1
      ensures Entered(after, i)
    {
      AddedEntryAt(fs, dir, name, content, after.places[i].0, after.places[i].1);
      if i < n {
        assert Entered(fs, i);
        assert EntryOk(fs, dir, Lowest(fs.nodes[dir].value.content.entries));
      }
    }
  }

  lemma LowestNode(fs: Fs)
    requires Tree(fs)
    ensures Lowest(fs.nodes) == fs.nnodes
  {
    forall j: nat | j < fs.nnodes
      ensures fs.nodes[j].Some?
    {
      assert Exists(fs, j);
    }
    assert !Exists(fs, fs.nnodes);
    LowestIs(fs.nodes, fs.nnodes);
  }

  lemma BareTree()
    ensures Tree(Bare())
  {
    var fs := Bare();
    LowestIs(Empty<Dirent>(DEFAULT_BLOCKSIZE), 0);
    assert NodeOk(fs, 0);
  }

  /** Every operation keeps the tree. */
  lemma DoneKeeps(fs: Fs, op: Op)
    requires Tree(fs)
    ensures Tree(Done(fs, op))
  {
    hide Tree, AddedNode;
    match op
    case Open(dir, name, create) =>
      if IsDir(fs, dir) {
        AddedKeeps(fs, dir, name, Bytes);
      }
    case Mkdir(dir, name) =>
      if IsDir(fs, dir) {
        AddedKeeps(fs, dir, name, Dir(Empty(DEFAULT_BLOCKSIZE)));
      }
    case Mount(inode, mount) => MountKeeps(fs, inode, mount);
  }

  lemma MountKeeps(fs: Fs, inode: nat, mount: nat)
    requires Tree(fs)
    ensures Tree(Done(fs, Mount(inode, mount)))
  {
    var after := Done(fs, Mount(inode, mount));
    forall i: nat
      ensures Exists(after, i) <==> i < fs.nnodes
    {
      assert Exists(fs, i) <==> i < fs.nnodes;
    }
    forall i: nat | i < fs.nnodes
      ensures NodeOk(after, i)
    {
      assert NodeOk(fs, i);
    }
    forall dir: nat, slot: nat
      ensures EntryOk(after, dir, slot)
    {
      assert EntryOk(fs, dir, slot);
    }
    forall i: nat | 0 < i < fs.nnodes
      ensures Entered(after, i)
    {
      assert Entered(fs, i);
    }
  }

  // ---------- Whole runs ----------

  function After(fs: Fs, run: seq<Op>): Fs
    decreases |run|
  {
    if run == [] then fs else After(Done(fs, run[0]), run[1..])
  }

  /** create_ramfs: the root and its directory "test". */
  function Created(): Fs {
    Done(Bare(), Mkdir(0, "test"))
  }

  lemma CreatedTree()
    ensures Tree(Created())
  {
    BareTree();
    DoneKeeps(Bare(), Mkdir(0, "test"));
  }

  lemma {:induction false} AlwaysTree(fs: Fs, run: seq<Op>)
    requires Tree(fs)
    ensures Tree(After(fs, run))
    decreases |run|
  {
    if run != [] {
      DoneKeeps(fs, run[0]);
      AlwaysTree(Done(fs, run[0]), run[1..]);
    }
  }

  /** The directories above a node, from the root down to it. */
  function Ancestors(fs: Fs, i: nat): (path: seq<nat>)
    requires ParentsFirst(fs)
    ensures path != [] && path[|path| - 1] == i
  {
    if i == 0 || i >= |fs.places| then [i] else Ancestors(fs, fs.places[i].0) + [i]
  }

  predicate ParentsFirst(fs: Fs) {
    forall j | 0 < j < |fs.places| :: fs.places[j].0 < j
  }

  /** A directory has an entry of a larger inode. */
  ghost predicate Contains(fs: Fs, dir: nat, i: nat) {
    dir < i && exists slot :: EntryAt(fs, dir, slot).Some? && EntryAt(fs, dir, slot).value.inode == i
  }

  ghost predicate FromRoot(fs: Fs, path: seq<nat>) {
    path != [] && path[0] == 0 && forall k | 1 <= k < |path| :: Contains(fs, path[k - 1], path[k])
  }

  /** Whatever was done, every node is reached from the root, one directory containing the next. */
  lemma EveryNodeHangsFromTheRoot(run: seq<Op>, i: nat)
    requires Exists(After(Created(), run), i)
    ensures var fs := After(Created(), run);
      ParentsFirst(fs) && FromRoot(fs, Ancestors(fs, i))
  {
    hide After, Created;
    var fs := After(Created(), run);
    CreatedTree();
    AlwaysTree(Created(), run);
    HasParents(fs);
    AncestorsLinked(fs, i);
  }

  lemma HasParents(fs: Fs)
    requires Tree(fs)
    ensures ParentsFirst(fs)
  {
    forall j | 0 < j < |fs.places|
      ensures fs.places[j].0 < j
    {
      assert Entered(fs, j) && EntryOk(fs, fs.places[j].0, fs.places[j].1);
    }
  }

  lemma {:induction false} AncestorsLinked(fs: Fs, i: nat)
    requires Tree(fs) && Exists(fs, i) && ParentsFirst(fs)
    ensures FromRoot(fs, Ancestors(fs, i))
  {
    hide NodeOk, EntryOk;
    if i > 0 {
      var parent := fs.places[i].0;
      assert Exists(fs, parent);
      AncestorsLinked(fs, parent);
      assert Entered(fs, i);
      assert Contains(fs, parent, i);
      FromRootFurther(fs, Ancestors(fs, parent), i);
    }
  }

  lemma FromRootFurther(fs: Fs, path: seq<nat>, i: nat)
    requires FromRoot(fs, path) && Contains(fs, path[|path| - 1], i)
    ensures FromRoot(fs, path + [i])
  {
    hide Contains;
    var more := path + [i];
    forall k | 1 <= k < |more|
      ensures Contains(fs, more[k - 1], more[k])
    {
    }
  }

  // ---------- Opening and looking up ----------

  /** What ramfs_open_node answers: an inode or an error. */
  function OpenResult(fs: Fs, dir: nat, name: string, create: bool): int {
    if !IsDir(fs, dir) then -ERROR_NOT_DIRECTORY
    else if FindIn(fs, dir, name).Some? then FindIn(fs, dir, name).value
    else if create then Lowest(fs.nodes) else -ERROR_NOT_FOUND
  }

  /** What a new node changes for lookups: its name, in its directory, where that was not there. */
  lemma AddedFinds(fs: Fs, dir: nat, name: string, content: Content, d: nat, other: string)
    requires Tree(fs) && IsDir(fs, dir) && (content.Dir? ==> content.entries == Empty(DEFAULT_BLOCKSIZE))
    ensures FindIn(AddedNode(fs, dir, name, content), d, other)
      == if d == dir && other == name && FindIn(fs, dir, name).None? then Some(fs.nnodes) else FindIn(fs, d, other)
  {
    hide EntryOk, Entered;
    AddedShape(fs, dir, name, content);
    assert Exists(fs, dir) && NodeOk(fs, dir) && (Exists(fs, d) <==> d < fs.nnodes);
    AddedEntry(fs.nodes[dir].value.content.entries, Dirent(name, fs.nnodes), other);
    if d == fs.nnodes && content.Dir? {
      assert forall j | 0 <= j < |content.entries| :: !Named(content.entries[j], other);
    }
  }

  /** A name that is found stays found, at the same inode, whatever is done. */
  lemma {:induction false} NameStays(fs: Fs, run: seq<Op>, dir: nat, name: string)
    requires Tree(fs) && FindIn(fs, dir, name).Some?
    ensures FindIn(After(fs, run), dir, name) == FindIn(fs, dir, name)
    decreases |run|
  {
    hide Tree, AddedNode;
    if run != [] {
      var op := run[0];
      if op.Open? && IsDir(fs, op.dir) {
        AddedFinds(fs, op.dir, op.name, Bytes, dir, name);
      } else if op.Mkdir? && IsDir(fs, op.dir) {
        AddedFinds(fs, op.dir, op.name, Dir(Empty(DEFAULT_BLOCKSIZE)), dir, name);
      }
      DoneKeeps(fs, op);
      NameStays(Done(fs, op), run[1..], dir, name);
    }
  }

  /** Opening with creation gives an inode that every later lookup and open of the name gives again, creating nothing. */
  lemma OpenIsIdempotent(fs: Fs, dir: nat, name: string, run: seq<Op>, create: bool)
    requires Tree(fs) && IsDir(fs, dir)
    ensures var r, after := OpenResult(fs, dir, name, true), After(Done(fs, Open(dir, name, true)), run);
      && r >= 0 && FindIn(after, dir, name) == Some(r)
      && OpenResult(after, dir, name, create) == r && Done(after, Open(dir, name, create)) == after
  {
    hide Tree, AddedNode;
    var created := Done(fs, Open(dir, name, true));
    LowestNode(fs);
    AddedFinds(fs, dir, name, Bytes, dir, name);
    DoneKeeps(fs, Open(dir, name, true));
    NameStays(created, run, dir, name);
  }

  /** What opening makes: a file of that name if there was none and it may be created, and nothing otherwise. */
  lemma OpenMakesAFile(fs: Fs, dir: nat, name: string, create: bool)
    requires Tree(fs)
    ensures var after := Done(fs, Open(dir, name, create));
      if create && IsDir(fs, dir) && FindIn(fs, dir, name).None? then
        && Exists(after, fs.nnodes) && after.nodes[fs.nnodes] == Some(RNode(name, fs.nnodes, Bytes, None))
        && FindIn(after, dir, name) == Some(fs.nnodes)
      else after == fs
  {
    hide EntryOk, NodeOk, Entered;
    if create && IsDir(fs, dir) && FindIn(fs, dir, name).None? {
      AddedShape(fs, dir, name, Bytes);
      AddedFinds(fs, dir, name, Bytes, dir, name);
    }
  }

  /** mkdir does not look for the name first: the new directory is found exactly if the name was free. */
  lemma MkdirFound(fs: Fs, dir: nat, name: string)
    requires Tree(fs) && IsDir(fs, dir)
    ensures var after := Done(fs, Mkdir(dir, name));
      && IsDir(after, fs.nnodes) && after.nodes[fs.nnodes].value.name == name && (forall other :: FindIn(after, fs.nnodes, other).None?)
      && (FindIn(after, dir, name) == Some(fs.nnodes) <==> FindIn(fs, dir, name).None?)
  {
    hide EntryOk, NodeOk, Entered;
    AddedShape(fs, dir, name, Dir(Empty(DEFAULT_BLOCKSIZE)));
    AddedFinds(fs, dir, name, Dir(Empty(DEFAULT_BLOCKSIZE)), dir, name);
    if FindIn(fs, dir, name).Some? {
      FoundExists(fs, dir, name);
    }
  }

  lemma FoundExists(fs: Fs, dir: nat, name: string)
    requires Tree(fs) && FindIn(fs, dir, name).Some?
    ensures FindIn(fs, dir, name).value < fs.nnodes
  {
    var entries := fs.nodes[dir].value.content.entries;
    assert EntryOk(fs, dir, FindSlot(entries, name));
  }

  lemma CreatedHasTest()
    ensures IsDir(Created(), 1) && forall name :: FindIn(Created(), 0, name) == if name == "test" then Some(1) else None
  {
    hide Tree, AddedNode;
    BareTree();
    MkdirFound(Bare(), 0, "test");
    forall name
      ensures FindIn(Created(), 0, name) == if name == "test" then Some(1) else None
    {
      AddedFinds(Bare(), 0, "test", Dir(Empty(DEFAULT_BLOCKSIZE)), 0, name);
    }
  }

  // ---------- As the driver of path lookup ----------

  /** ramfs_get_node, as a node of the file system numbered id. */
  function GetNode(fs: Fs, id: nat, i: nat): Paths.Node
    requires Exists(fs, i)
  {
    Paths.Node(fs.nodes[i].value.inode, 0, id, fs.nodes[i].value.mount, 0)
  }

  /** ramfs_node_lookup for the nodes of this file system, beside whatever drives the others. */
  function RamLookup(fs: Fs, id: nat, other: Paths.Lookup): Paths.Lookup {
    (n: Paths.Node, name, flags) => if n.fs != id then other(n, name, flags) else NodeAnswer(fs, n, name)
  }

  function NodeAnswer(fs: Fs, n: Paths.Node, name: string): Paths.Answer {
    if !IsDir(fs, n.inode) then Paths.Answer(-ERROR_NOT_DIRECTORY, n)
    else match FindIn(fs, n.inode, name)
      case Some(i) => Paths.Answer(0, if Exists(fs, i) then GetNode(fs, n.fs, i) else n)
      case None => Paths.Answer(-ERROR_NOT_FOUND, n)
  }

  lemma RamLookupIs(fs: Fs, id: nat, other: Paths.Lookup, n: Paths.Node, name: string, flags: int)
    ensures RamLookup(fs, id, other)(n, name, flags) == if n.fs != id then other(n, name, flags) else NodeAnswer(fs, n, name)
    ensures NodeAnswer(fs, n, name).ret == 0 <==> FindIn(fs, n.inode, name).Some?
  {
  }

  /** Creating a file changes no lookup that succeeds. */
  lemma AnswersStay(fs: Fs, dir: nat, name: string, id: nat, other: Paths.Lookup, n: Paths.Node, component: string, flags: int)
    requires Tree(fs) && IsDir(fs, dir) && RamLookup(fs, id, other)(n, component, flags).ret == 0
    ensures RamLookup(Done(fs, Open(dir, name, true)), id, other)(n, component, flags) == RamLookup(fs, id, other)(n, component, flags)
  {
    hide NodeOk, EntryOk, Entered, RamLookup;
    RamLookupIs(fs, id, other, n, component, flags);
    RamLookupIs(Done(fs, Open(dir, name, true)), id, other, n, component, flags);
    if n.fs == id && FindIn(fs, dir, name).None? {
      AddedShape(fs, dir, name, Bytes);
      AddedFinds(fs, dir, name, Bytes, n.inode, component);
      FoundExists(fs, n.inode, component);
      assert Exists(fs, n.inode) <==> n.inode < fs.nnodes;
      var i, after := FindIn(fs, n.inode, component).value, Done(fs, Open(dir, name, true));
      assert Exists(fs, i) <==> i < fs.nnodes;
      assert FindIn(after, n.inode, component) == Some(i) && IsDir(after, n.inode);
      assert GetNode(after, id, i) == GetNode(fs, id, i);
    }
  }

  lemma {:induction false} WalkStays(fs: Fs, dir: nat, name: string, id: nat, other: Paths.Lookup, roots: nat -> Paths.Node,
                                     n: Paths.Node, names: seq<string>, flags: int)
    requires Tree(fs) && IsDir(fs, dir) && Paths.Walk(RamLookup(fs, id, other), roots, n, names, flags).Resolved?
    ensures Paths.Walk(RamLookup(Done(fs, Open(dir, name, true)), id, other), roots, n, names, flags)
      == Paths.Walk(RamLookup(fs, id, other), roots, n, names, flags)
    decreases |names|
  {
    hide Tree, RamLookup, Done;
    if names != [] {
      if names[0] == "." {
        WalkStays(fs, dir, name, id, other, roots, n, names[1..], flags);
      } else {
        AnswersStay(fs, dir, name, id, other, n, names[0], flags);
        var answer := RamLookup(fs, id, other)(n, names[0], flags);
        WalkStays(fs, dir, name, id, other, roots, Paths.Crossed(answer.node, roots), names[1..], flags);
      }
    }
  }

  /** A file created in the directory that a path leads to is found by that path and its name, at the inode that open gave. */
  lemma CreatedFileIsFound(fs: Fs, id: nat, other: Paths.Lookup, roots: nat -> Paths.Node, root: Paths.Node, path: string, name: string,
                           flags: int, there: Paths.Node)
    requires Tree(fs) && path != "" && path[|path| - 1] != '/'
    requires Paths.Found(RamLookup(fs, id, other), roots, path, root, flags) == Paths.Resolved(there)
    requires there.fs == id && IsDir(fs, there.inode)
    requires '/' !in name && name != "" && name != "." && |name| < Paths.MAX_FILENAME_SIZE
    ensures var r, after := OpenResult(fs, there.inode, name, true), Done(fs, Open(there.inode, name, true));
      && r >= 0 && Exists(after, r) && GetNode(after, id, r).inode == r
      && Paths.Found(RamLookup(after, id, other), roots, path + "/" + name, root, flags)
        == Paths.Resolved(match after.nodes[r].value.mount case Some(m) => roots(m) case None => GetNode(after, id, r))
  {
    hide Done, Paths.Components, RamLookup;
    var after := Done(fs, Open(there.inode, name, true));
    WalkStays(fs, there.inode, name, id, other, roots, root, Paths.Components(path), flags);
    Paths.LookupJoin(RamLookup(after, id, other), roots, path, name, root, flags);
    Paths.OneName(name);
    OpenIsIdempotent(fs, there.inode, name, [], true);
    DoneKeeps(fs, Open(there.inode, name, true));
    FoundThere(after, there.inode, name);
    RamLookupIs(after, id, other, there, name, flags);
    Paths.WalkOne(RamLookup(after, id, other), roots, name, there, flags);
  }

  lemma FoundThere(fs: Fs, dir: nat, name: string)
    requires Tree(fs) && FindIn(fs, dir, name).Some?
    ensures IsDir(fs, dir) && Exists(fs, FindIn(fs, dir, name).value)
    ensures fs.nodes[FindIn(fs, dir, name).value].value.inode == FindIn(fs, dir, name).value
  {
    FoundExists(fs, dir, name);
    var i := FindIn(fs, dir, name).value;
    assert Exists(fs, i) && NodeOk(fs, i);
  }

  // ---------- Mounting ----------

  /** The mounts of other file systems lead to their own nodes, and their drivers answer with none of this one's. */
  ghost predicate Apart(id: nat, other: Paths.Lookup, roots: nat -> Paths.Node) {
    && (forall m :: roots(m).fs != id)
    && forall n: Paths.Node, name, flags :: n.fs != id ==> other(n, name, flags).node.fs != id
  }

  /** Mounting changes what a lookup answers only in that its inode carries the mount. */
  lemma MountAnswers(fs: Fs, i: nat, m: nat, n: Paths.Node, name: string)
    requires Tree(fs) && Exists(fs, i)
    ensures var after, before := NodeAnswer(Done(fs, Mount(i, m)), n, name), NodeAnswer(fs, n, name);
      after == if before.ret == 0 && before.node.inode == i then before.(node := before.node.(mount := Some(m))) else before
  {
    hide NodeOk, EntryOk, Entered;
    if FindIn(fs, n.inode, name).Some? {
      FoundThere(fs, n.inode, name);
    }
  }

  /** A lookup goes down the tree. */
  lemma Down(fs: Fs, n: Paths.Node, name: string)
    requires Tree(fs) && NodeAnswer(fs, n, name).ret == 0
    ensures NodeAnswer(fs, n, name).node.fs == n.fs && n.inode < NodeAnswer(fs, n, name).node.inode
  {
    FoundThere(fs, n.inode, name);
    var entries := fs.nodes[n.inode].value.content.entries;
    assert EntryOk(fs, n.inode, FindSlot(entries, name));
  }

  /** Who has left this file system does not come back. */
  lemma {:induction false} Away(fs: Fs, id: nat, other: Paths.Lookup, roots: nat -> Paths.Node, n: Paths.Node, names: seq<string>, flags: int)
    requires Apart(id, other, roots) && n.fs != id && Paths.Walk(RamLookup(fs, id, other), roots, n, names, flags).Resolved?
    ensures Paths.Walk(RamLookup(fs, id, other), roots, n, names, flags).node.fs != id
    decreases |names|
  {
    hide RamLookup;
    if names != [] {
      if names[0] == "." {
        Away(fs, id, other, roots, n, names[1..], flags);
      } else {
        RamLookupIs(fs, id, other, n, names[0], flags);
        var answer := RamLookup(fs, id, other)(n, names[0], flags);
        Away(fs, id, other, roots, Paths.Crossed(answer.node, roots), names[1..], flags);
      }
    }
  }

  predicate AllDots(names: seq<string>) {
    names == [] || (names[0] == "." && AllDots(names[1..]))
  }

  /** Where a walk goes that stays in this file system: down, unless all its names are ".". */
  lemma {:induction false} GoesDown(fs: Fs, id: nat, other: Paths.Lookup, roots: nat -> Paths.Node, n: Paths.Node, names: seq<string>, flags: int)
    requires Tree(fs) && Apart(id, other, roots) && n.fs == id
    requires var r := Paths.Walk(RamLookup(fs, id, other), roots, n, names, flags); r.Resolved? && r.node.fs == id
    ensures var there := Paths.Walk(RamLookup(fs, id, other), roots, n, names, flags).node;
      if AllDots(names) then there == n else n.inode < there.inode
    decreases |names|
  {
    hide RamLookup, Tree, NodeAnswer;
    if names != [] {
      if names[0] == "." {
        GoesDown(fs, id, other, roots, n, names[1..], flags);
      } else {
        RamLookupIs(fs, id, other, n, names[0], flags);
        var answer := RamLookup(fs, id, other)(n, names[0], flags);
        var next := Paths.Crossed(answer.node, roots);
        Down(fs, n, names[0]);
        if next.fs != id {
          Away(fs, id, other, roots, next, names[1..], flags);
        }
        GoesDown(fs, id, other, roots, next, names[1..], flags);
      }
    }
  }

  lemma {:induction false} OnlyDots(lookup: Paths.Lookup, roots: nat -> Paths.Node, n: Paths.Node, names: seq<string>, flags: int)
    requires AllDots(names)
    ensures Paths.Walk(lookup, roots, n, names, flags) == Paths.Resolved(n)
    decreases |names|
  {
    if names != [] {
      OnlyDots(lookup, roots, n, names[1..], flags);
    }
  }

  lemma {:induction false} MountedWalk(fs: Fs, i: nat, m: nat, id: nat, other: Paths.Lookup, roots: nat -> Paths.Node,
                                       n: Paths.Node, names: seq<string>, flags: int)
    requires Tree(fs) && Exists(fs, i) && Apart(id, other, roots) && n.fs == id && n.inode != i
    requires var r := Paths.Walk(RamLookup(fs, id, other), roots, n, names, flags); r.Resolved? && r.node.fs == id && r.node.inode == i
    ensures Paths.Walk(RamLookup(Done(fs, Mount(i, m)), id, other), roots, n, names, flags) == Paths.Resolved(roots(m))
    decreases |names|
  {
    hide RamLookup, Tree, NodeAnswer, Done;
    if names[0] == "." {
      MountedWalk(fs, i, m, id, other, roots, n, names[1..], flags);
    } else {
      var after := Done(fs, Mount(i, m));
      RamLookupIs(fs, id, other, n, names[0], flags);
      RamLookupIs(after, id, other, n, names[0], flags);
      MountAnswers(fs, i, m, n, names[0]);
      var answer := NodeAnswer(fs, n, names[0]);
      var next := Paths.Crossed(answer.node, roots);
      Down(fs, n, names[0]);
      if next.fs != id {
        Away(fs, id, other, roots, next, names[1..], flags);
      }
      GoesDown(fs, id, other, roots, next, names[1..], flags);
      if next.inode == i {
        OnlyDots(RamLookup(after, id, other), roots, roots(m), names[1..], flags);
      } else {
        MountedWalk(fs, i, m, id, other, roots, next, names[1..], flags);
      }
    }
  }

  /** After a mount, every path that led to its inode leads to the root of what is mounted. */
  lemma MountedIsEntered(fs: Fs, i: nat, m: nat, id: nat, other: Paths.Lookup, roots: nat -> Paths.Node, root: Paths.Node, path: string,
                         flags: int, there: Paths.Node)
    requires Tree(fs) && Exists(fs, i) && Apart(id, other, roots) && root.fs == id && root.inode != i
    requires Paths.Found(RamLookup(fs, id, other), roots, path, root, flags) == Paths.Resolved(there)
    requires there.fs == id && there.inode == i
    ensures Paths.Found(RamLookup(Done(fs, Mount(i, m)), id, other), roots, path, root, flags) == Paths.Resolved(roots(m))
  {
    hide RamLookup, Tree, Done;
    MountedWalk(fs, i, m, id, other, roots, root, Paths.Components(path), flags);
  }

  // ---------- The code ----------

  class RamFs {
    var nodes: seq<Option<RNode>>
    var nnodes: nat
    ghost var places: seq<(nat, nat)>

    ghost function State(): Fs
      reads this
    {
      Fs(nodes, nnodes, places)
    }

    ghost predicate Valid()
      reads this
    {
      Tree(State())
    }

    /** create_ramfs */
    constructor ()
      ensures Valid() && State() == Created()
      ensures IsDir(State(), 1) && forall name :: FindIn(State(), 0, name) == if name == "test" then Some(1) else None
    {
      nodes := Empty<RNode>(DEFAULT_BLOCKSIZE)[0 := Some(RNode("root", 0, Dir(Empty(DEFAULT_BLOCKSIZE)), None))];
      nnodes, places := 1, [(0, 0)];
      new;
      BareTree();
      CreatedHasTest();
      var ret := MkdirNode(0, "test");
    }

    /** ramfs_dir_findnode */
    method DirFindNode(dir: nat, name: string) returns (ret: int)
      requires IsDir(State(), dir)
      ensures ret == match FindIn(State(), dir, name) case Some(i) => i case None => -1
    {
      var dlist := nodes[dir].value.content.entries;
      ret := -1;
      var listptr := 0;
      while listptr < |dlist|
        invariant 0 <= listptr <= FindSlot(dlist, name)
      {
        if dlist[listptr].Some? {
          var dirbuf := dlist[listptr].value;
          if name == dirbuf.name {
            ret := dirbuf.inode;
            return;
          }
        }
        listptr := listptr + 1;
      }
    }

    /** ramfs_node_lookup, for a node that a lookup has given. */
    method NodeLookup(n: Paths.Node, name: string) returns (ret: int, buf: Paths.Node)
      requires Valid() && Exists(State(), n.inode)
      ensures Paths.Answer(ret, buf) == NodeAnswer(State(), n, name)
      ensures ret == if !IsDir(State(), n.inode) then -ERROR_NOT_DIRECTORY
        else if FindIn(State(), n.inode, name).None? then -ERROR_NOT_FOUND else 0
      ensures ret == 0 ==>
        && buf.fs == n.fs && FindIn(State(), n.inode, name) == Some(buf.inode)
        && Exists(State(), buf.inode) && buf.mount == nodes[buf.inode].value.mount
    {
      buf := n;
      if nodes[n.inode].value.content.Dir? {
        var inode := DirFindNode(n.inode, name);
        if inode >= 0 {
          FoundThere(State(), n.inode, name);
          buf := Paths.Node(nodes[inode].value.inode, 0, n.fs, nodes[inode].value.mount, 0);
          ret := 0;
        } else {
          ret := -ERROR_NOT_FOUND;
        }
      } else {
        ret := -ERROR_NOT_DIRECTORY;
      }
    }

    /** ramfs_add_node; what data becomes is set by the callers. */
    method AddNode(dir: nat, name: string, content: Content) returns (inode: nat)
      requires Valid() && IsDir(State(), dir) && (content.Dir? ==> content.entries == Empty(DEFAULT_BLOCKSIZE))
      modifies this
      ensures Valid() && State() == AddedNode(old(State()), dir, name, content) && inode == old(nnodes)
    {
      AddedKeeps(State(), dir, name, content);
      LowestNode(State());
      AddedShape(State(), dir, name, content);
      inode := Lowest(nodes);
      places := places + [(dir, Lowest(nodes[dir].value.content.entries))];
      var d := nodes[dir].value;
      nodes := Added(nodes, DEFAULT_BLOCKSIZE, RNode(name, inode, content, None));
      nnodes := nnodes + 1;
      nodes := nodes[dir := Some(d.(content := Dir(Added(d.content.entries, DEFAULT_BLOCKSIZE, Dirent(name, inode)))))];
    }

    /** ramfs_open_node */
    method OpenNode(dir: nat, path: string, create: bool) returns (ret: int)
      requires Valid() && Exists(State(), dir)
      modifies this
      ensures Valid() && State() == Done(old(State()), Open(dir, path, create))
      ensures ret == OpenResult(old(State()), dir, path, create)
      ensures ret == match FindIn(old(State()), dir, path)
        case Some(i) => i
        case None => if !IsDir(old(State()), dir) then -ERROR_NOT_DIRECTORY else if create then old(nnodes) else -ERROR_NOT_FOUND
    {
      hide Tree, AddedNode;
      if nodes[dir].value.content.Dir? {
        var inode := DirFindNode(dir, path);
        if inode >= 0 {
          ret := inode;
        } else if create {
          LowestNode(State());
          ret := AddNode(dir, path, Bytes);
        } else {
          ret := -ERROR_NOT_FOUND;
        }
      } else {
        ret := -ERROR_NOT_DIRECTORY;
      }
    }

    /** ramfs_mkdir_node */
    method MkdirNode(dir: nat, name: string) returns (ret: int)
      requires Valid() && Exists(State(), dir)
      modifies this
      ensures Valid() && State() == Done(old(State()), Mkdir(dir, name))
      ensures ret == if IsDir(old(State()), dir) then 0 else -ERROR_NOT_DIRECTORY
    {
      hide Tree, AddedNode;
      if nodes[dir].value.content.Dir? {
        var inode := AddNode(dir, name, Dir(Empty(DEFAULT_BLOCKSIZE)));
        ret := 0;
      } else {
        ret := -ERROR_NOT_DIRECTORY;
      }
    }

    /** ramfs_mount_node, with the number of the mount that was registered. */
    method MountNode(inode: nat, mount: nat) returns (ret: int)
      requires Valid() && Exists(State(), inode)
      modifies this
      ensures Valid() && State() == Done(old(State()), Mount(inode, mount)) && ret == 0
      ensures nodes == old(nodes)[inode := Some(old(nodes)[inode].value.(mount := Some(mount)))] && nnodes == old(nnodes)
    {
      MountKeeps(State(), inode, mount);
      nodes := nodes[inode := Some(nodes[inode].value.(mount := Some(mount)))];
      ret := 0;
    }
  }
}
