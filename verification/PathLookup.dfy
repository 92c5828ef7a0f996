/** Finding the node that a path names, across mounted file systems. */
module Paths {
  import opened Wrappers

  const MAX_FILENAME_SIZE: nat := 256
  const ERROR_NOT_FOUND: int := 6
  const ERROR_INVALID_PATH: int := 7

  /** A file_node_t; a mount is known by its number, and its root node by roots. */
  datatype Node = Node(inode: nat, flags: int, fs: nat, mount: Option<nat>, data: nat)

  /** What a driver's lookup answers: an error, or zero and the node it has written. */
  datatype Answer = Answer(ret: int, node: Node)

  /** VFS_FUNCTION( node, lookup, ... ) as the file system of each node answers it. */
  type Lookup = (Node, string, int) -> Answer

  /** Fault: namebuf has no room for the name's end, or there is no node to start at. */
  datatype Outcome = Resolved(node: Node) | Failed(ret: int) | Fault

  // ---------- What a path means ----------

  /** The length of the first component. */
  function First(path: string): (i: nat)
    ensures i <= |path| && (i < |path| ==> path[i] == '/') && forall j | 0 <= j < i :: path[j] != '/'
  {
    if path == "" || path[0] == '/' then 0 else 1 + First(path[1..])
  }

  /** What is left after the first component and the slash behind it. */
  function Rest(path: string): (rest: string)
    ensures path != "" ==> |rest| < |path|
  {
    var i := First(path);
    if i < |path| then path[i + 1..] else ""
  }

  /** The components of a path. One that is empty counts, except behind the last slash. */
  function Components(path: string): seq<string>
    decreases |path|
  {
    if path == "" then [] else [path[..First(path)]] + Components(Rest(path))
  }

  function Crossed(node: Node, roots: nat -> Node): Node {
    if node.mount.Some? then roots(node.mount.value) else node
  }

  /** One directory level after the other, from a node. */
  function Walk(lookup: Lookup, roots: nat -> Node, node: Node, names: seq<string>, flags: int): Outcome
    decreases |names|
  {
    if names == [] then Resolved(node)
    else if |names[0]| >= MAX_FILENAME_SIZE then Fault
    else if names[0] == "." then Walk(lookup, roots, node, names[1..], flags)
    else
      var answer := lookup(node, names[0], flags);
      if answer.ret != 0 then Failed(answer.ret) else Walk(lookup, roots, Crossed(answer.node, roots), names[1..], flags)
  }

  function Found(lookup: Lookup, roots: nat -> Node, path: string, node: Node, flags: int): Outcome {
    Walk(lookup, roots, node, Components(path), flags)
  }

  // ---------- The laws of lookup ----------

  lemma {:induction false} WalkFurther(lookup: Lookup, roots: nat -> Node, node: Node, a: seq<string>, b: seq<string>, flags: int)
    ensures Walk(lookup, roots, node, a + b, flags) == match Walk(lookup, roots, node, a, flags)
      case Resolved(there) => Walk(lookup, roots, there, b, flags)
      case failure => failure
    decreases |a|
  {
    if a == [] {
      assert a + b == b;
    } else {
      assert (a + b)[1..] == a[1..] + b;
      if |a[0]| < MAX_FILENAME_SIZE {
        if a[0] == "." {
          WalkFurther(lookup, roots, node, a[1..], b, flags);
        } else {
          WalkFurther(lookup, roots, Crossed(lookup(node, a[0], flags).node, roots), a[1..], b, flags);
        }
      }
    }
  }

  lemma {:induction false} FirstIs(path: string, i: nat)
    requires i <= |path| && (i < |path| ==> path[i] == '/') && forall j | 0 <= j < i :: path[j] != '/'
    ensures First(path) == i
  {
    if i > 0 {
      FirstIs(path[1..], i - 1);
    }
  }

  predicate EndsOpen(p: string) {
    p == "" || p[|p| - 1] == '/'
  }

  lemma JoinFirst(p: string, q: string)
    ensures var path, i := p + "/" + q, First(p);
      && First(path) == i && path[..i] == p[..i]
      && Rest(path) == if i == |p| then q else Rest(p) + "/" + q
  {
    hide First;
    var path, i := p + "/" + q, First(p);
    Cut(p, q, i);
    FirstIs(path, i);
  }

  lemma Cut(p: string, q: string, i: nat)
    requires i <= |p|
    ensures var path := p + "/" + q;
      && path[..i] == p[..i] && path[i] == (if i < |p| then p[i] else '/') && (forall j | 0 <= j < i :: path[j] == p[j])
      && path[i + 1..] == if i == |p| then q else p[i + 1..] + "/" + q
  {
    var path := p + "/" + q;
    if i == |p| {
      assert path[i + 1..] == q;
    } else {
      assert path == p + ("/" + q);
      assert path[i + 1..] == p[i + 1..] + ("/" + q);
      assert p[i + 1..] + ("/" + q) == p[i + 1..] + "/" + q;
    }
  }

  function Gap(p: string): seq<string> {
    if EndsOpen(p) then [""] else []
  }

  lemma Regroup(name: string, rest: seq<string>, gap: seq<string>, more: seq<string>)
    ensures [name] + (rest + gap + more) == ([name] + rest) + gap + more
  {
  }

  /** Joining two paths joins their components; a slash behind nothing, or behind another slash, adds an empty one. */
  lemma {:induction false} ComponentsJoin(p: string, q: string)
    ensures Components(p + "/" + q) == Components(p) + Gap(p) + Components(q)
    decreases |p|
  {
    hide First, Rest;
    var path := p + "/" + q;
    var i := First(p);
    JoinFirst(p, q);
    if p == "" {
      assert path[..i] == "";
    } else if i == |p| {
      OneComponent(p);
    } else {
      ComponentsJoin(Rest(p), q);
      SameEnd(p);
      Regroup(p[..i], Components(Rest(p)), Gap(p), Components(q));
    }
  }

  lemma OneComponent(p: string)
    requires p != "" && First(p) == |p|
    ensures Components(p) == [p] && Gap(p) == []
  {
    assert p[..|p|] == p && Rest(p) == "";
  }

  lemma SameEnd(p: string)
    requires p != "" && First(p) < |p|
    ensures Gap(Rest(p)) == Gap(p)
  {
  }

  /** Looking up p/q is looking up q from where p leads; the first failure is the answer. */
  lemma LookupJoin(lookup: Lookup, roots: nat -> Node, p: string, q: string, node: Node, flags: int)
    requires p != "" && p[|p| - 1] != '/'
    ensures Found(lookup, roots, p + "/" + q, node, flags) == match Found(lookup, roots, p, node, flags)
      case Resolved(there) => Found(lookup, roots, q, there, flags)
      case failure => failure
  {
    hide Components, Walk;
    ComponentsJoin(p, q);
    assert Components(p) + Gap(p) == Components(p);
    WalkFurther(lookup, roots, node, Components(p), Components(q), flags);
  }

  function Joined(names: seq<string>): string {
    if names == [] then "" else if |names| == 1 then names[0] else names[0] + "/" + Joined(names[1..])
  }

  /** Any names but a last empty one can be looked up, and come back as they were. */
  lemma {:induction false} ComponentsOfJoined(names: seq<string>)
    requires forall i | 0 <= i < |names| :: '/' !in names[i]
    ensures Components(Joined(names)) == names <==> names == [] || names[|names| - 1] != ""
    decreases |names|
  {
    hide First, Rest;
    if |names| == 1 {
      OneName(names[0]);
    } else if |names| > 1 {
      NoSlash(names[0]);
      JoinFirst(names[0], Joined(names[1..]));
      ComponentsOfJoined(names[1..]);
      assert names[0][..|names[0]|] == names[0];
      SameTail(names[0], Components(Joined(names[1..])), names);
    }
  }

  lemma NoSlash(name: string)
    requires '/' !in name
    ensures First(name) == |name|
  {
    FirstIs(name, |name|);
  }

  lemma OneName(name: string)
    requires '/' !in name
    ensures Components(name) == if name == "" then [] else [name]
  {
    NoSlash(name);
    if name != "" {
      OneComponent(name);
    }
  }

  lemma SameTail(name: string, tail: seq<string>, names: seq<string>)
    requires names != [] && names[0] == name
    ensures [name] + tail == names <==> tail == names[1..]
  {
    assert ([name] + tail)[1..] == tail;
    assert names == [names[0]] + names[1..];
  }

  /** A name leads to what its driver answers, or to the root of what is mounted there; "." leads nowhere else. */
  lemma FoundName(lookup: Lookup, roots: nat -> Node, name: string, node: Node, flags: int)
    requires name != "" && '/' !in name
    ensures var answer := lookup(node, name, flags);
      Found(lookup, roots, name, node, flags) ==
        if |name| >= MAX_FILENAME_SIZE then Fault
        else if name == "." then Resolved(node)
        else if answer.ret != 0 then Failed(answer.ret)
        else match answer.node.mount
          case Some(m) => Resolved(roots(m))
          case None => Resolved(answer.node)
  {
    hide Components;
    OneName(name);
    WalkOne(lookup, roots, name, node, flags);
  }

  lemma WalkOne(lookup: Lookup, roots: nat -> Node, name: string, node: Node, flags: int)
    ensures var answer := lookup(node, name, flags);
      Walk(lookup, roots, node, [name], flags) ==
        if |name| >= MAX_FILENAME_SIZE then Fault
        else if name == "." then Resolved(node)
        else if answer.ret != 0 then Failed(answer.ret) else Resolved(Crossed(answer.node, roots))
  {
    assert [name][1..] == [];
  }

  /** And the rest of a path is looked up from there. */
  lemma FoundFurther(lookup: Lookup, roots: nat -> Node, name: string, rest: string, node: Node, flags: int)
    requires '/' !in name
    ensures var answer := lookup(node, name, flags);
      Found(lookup, roots, name + "/" + rest, node, flags) ==
        if |name| >= MAX_FILENAME_SIZE then Fault
        else if name == "." then Found(lookup, roots, rest, node, flags)
        else if answer.ret != 0 then Failed(answer.ret)
        else match answer.node.mount
          case Some(m) => Found(lookup, roots, rest, roots(m), flags)
          case None => Found(lookup, roots, rest, answer.node, flags)
    ensures Found(lookup, roots, "", node, flags) == Resolved(node)
  {
    hide Components;
    ComponentsJoin(name, rest);
    OneName(name);
    assert Components(name + "/" + rest) == [name] + Components(rest);
    assert ([name] + Components(rest))[1..] == Components(rest);
    assert Components("") == [] by { OneName(""); }
  }

  // ---------- The code ----------

  /** Where a file_node_t pointer of the lookup points. */
  datatype Pointer = Start | RootOf(mount: nat) | Buffer(i: nat)

  class FileNode {
    var value: Node

    constructor (value: Node)
      ensures this.value == value
    {
      this.value := value;
    }
  }

  predicate InBounds(p: Pointer) {
    p.Buffer? ==> p.i < 2
  }

  function Deref(p: Pointer, start: Node, roots: nat -> Node, nodebufs: array<Node>): Node
    requires InBounds(p) && nodebufs.Length == 2
    reads nodebufs
  {
    match p
    case Start => start
    case RootOf(m) => roots(m)
    case Buffer(i) => nodebufs[i]
  }

  /** The driver's lookup: it may go on reading its node after it has begun to write the buffer, so they must differ. */
  method CallLookup(lookup: Lookup, roots: nat -> Node, start: Node, nodebufs: array<Node>, move: Pointer, current: nat,
                    name: string, flags: int) returns (ret: int)
    requires nodebufs.Length == 2 && current < 2 && InBounds(move) && move != Buffer(current)
    modifies nodebufs
    ensures var answer := lookup(old(Deref(move, start, roots, nodebufs)), name, flags);
      ret == answer.ret && nodebufs[..] == old(nodebufs[..])[current := answer.node]
  {
    var answer := lookup(Deref(move, start, roots, nodebufs), name, flags);
    nodebufs[current], ret := answer.node, answer.ret;
  }

  /** Copies one component to namebuf; there is no room for the NUL behind 256 characters. */
  method CopyName(path: string, namebuf: array<char>) returns (i: nat, overrun: bool)
    requires namebuf.Length == MAX_FILENAME_SIZE
    modifies namebuf
    ensures overrun <==> First(path) >= MAX_FILENAME_SIZE
    ensures !overrun ==> i == First(path) < MAX_FILENAME_SIZE && namebuf[..i] == path[..i]
  {
    i := 0;
    while i < 256 && i < |path| && path[i] != '/'
      invariant i <= 256 && i <= |path| && i <= First(path) && namebuf[..i] == path[..i]
    {
      namebuf[i] := path[i];
      i := i + 1;
    }
    overrun := i == 256;
    if !overrun {
      FirstIs(path, i);
      namebuf[i] := '\0';
    }
  }

  /** file_lookup_relative, for a path and a buffer that are not null. */
  method LookupFrom(lookup: Lookup, roots: nat -> Node, path: string, node: Node, buf: FileNode, flags: int) returns (r: Outcome)
    modifies buf
    ensures r == Found(lookup, roots, path, node, flags)
    ensures buf.value == if r.Resolved? then r.node else old(buf.value)
  {
    var namebuf := new char[MAX_FILENAME_SIZE](_ => '\0');
    var nodebufs := new Node[2](_ => Node(0, 0, 0, None, 0));
    var move, current, lastbuf := Start, 0, 1;
    var pathptr := path;
    while pathptr != ""
      invariant current < 2 && lastbuf == 1 - current && InBounds(move) && move != Buffer(current)
      invariant Walk(lookup, roots, Deref(move, node, roots, nodebufs), Components(pathptr), flags) == Found(lookup, roots, path, node, flags)
      invariant buf.value == old(buf.value)
      decreases |pathptr|
    {
      var i, overrun := CopyName(pathptr, namebuf);
      if overrun {
        return Fault;
      }
      var name := namebuf[..i];
      assert Components(pathptr) == [name] + Components(Rest(pathptr));
      pathptr := if i < |pathptr| then pathptr[i + 1..] else pathptr[i..];
      if name == "." {
        continue;
      }
      var ret := CallLookup(lookup, roots, node, nodebufs, move, current, name, flags);
      if ret != 0 {
        return Failed(ret);
      }
      if nodebufs[current].mount.Some? {
        move := RootOf(nodebufs[current].mount.value);
      } else {
        move := Buffer(current);
      }
      current := lastbuf;
      lastbuf := 1 - lastbuf;
    }
    buf.value := Deref(move, node, roots, nodebufs);
    r := Resolved(buf.value);
  }

  /** file_lookup_relative */
  method FileLookupRelative(lookup: Lookup, roots: nat -> Node, path: Option<string>, node: Option<Node>, buf: FileNode?, flags: int)
      returns (r: Outcome)
    modifies buf
    ensures path.None? || buf == null ==> r == Failed(-ERROR_INVALID_PATH)
    ensures path.Some? && buf != null ==>
      && r == (if node.None? then Fault else Found(lookup, roots, path.value, node.value, flags))
      && buf.value == if r.Resolved? then r.node else old(buf.value)
  {
    if path.None? || buf == null {
      return Failed(-ERROR_INVALID_PATH);
    }
    if node.None? {
      return Fault;
    }
    r := LookupFrom(lookup, roots, path.value, node.value, buf, flags);
  }

  /** file_lookup: from the root where the path begins with a slash, from the current directory otherwise. */
  method FileLookup(lookup: Lookup, roots: nat -> Node, path: Option<string>, root: Option<Node>, cwd: Option<Node>, buf: FileNode, flags: int)
      returns (r: Outcome)
    modifies buf
    ensures path.None? ==> r == Failed(-ERROR_INVALID_PATH)
    ensures path.Some? ==>
      var absolute := path.value != "" && path.value[0] == '/';
      var from := if absolute || cwd.None? then root else cwd;
      r == if from.None? then Fault
           else Found(lookup, roots, if absolute then path.value[1..] else path.value, from.value, flags)
    ensures buf.value == if r.Resolved? then r.node else old(buf.value)
  {
    r := Failed(-ERROR_INVALID_PATH);
    if path.Some? {
      if path.value != "" && path.value[0] == '/' {
        if root.None? {
          return Fault;
        }
        var rest := path.value[1..];
        if rest != "" {
          r := FileLookupRelative(lookup, roots, Some(rest), root, buf, flags);
        } else {
          buf.value := root.value;
          r := Resolved(root.value);
        }
      } else {
        var from := if cwd.Some? then cwd else root;
        r := FileLookupRelative(lookup, roots, path, from, buf, flags);
      }
    }
  }

  /** file_lookup_absolute: the same as file_lookup for a path from the root; any other path is not found. */
  method FileLookupAbsolute(lookup: Lookup, roots: nat -> Node, path: string, root: Option<Node>, buf: FileNode, flags: int)
      returns (r: Outcome)
    modifies buf
    ensures root.None? || path == "" || path[0] != '/' ==> r == Failed(-ERROR_NOT_FOUND)
    ensures root.Some? && path != "" && path[0] == '/' ==> r == Found(lookup, roots, path[1..], root.value, flags)
    ensures buf.value == if r.Resolved? then r.node else old(buf.value)
  {
    if root.None? || path == "" || path[0] != '/' {
      r := Failed(-ERROR_NOT_FOUND);
    } else {
      r := FileLookupRelative(lookup, roots, Some(path[1..]), root, buf, flags);
    }
  }
}
