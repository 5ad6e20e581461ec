/** The tree operations of pkg/fs/client/meta/default.go, with what the backing file system answers as a
    parameter, and what any sequence of them keeps. */
module MetaOperations {
  import opened Dependencies
  import opened InodeTree
  import opened InodeHandles

  /** What GetAttr of the backing file system says of a path. */
  datatype Attr = NoAttr | Attr(isDir: bool)

  datatype Op =
    | Lookup(parent: Ino, name: string, attr: Attr)
    | MakeDir(parent: Ino, name: string, made: bool, attr: Attr) // Mkdir and Mknod
    | Create(parent: Ino, name: string, made: bool, attr: Attr)
    | Remove(parent: Ino, name: string, removed: bool)           // Unlink and Rmdir
    | Rename(parent: Ino, name: string, parentDst: Ino, nameDst: string, sameUfs: bool, renamed: bool, attr: Attr)

  /** The nodes and the next number. */
  datatype Nodes = Nodes(tree: Tree, next: Ino)

  ghost predicate NodesOk(s: Nodes) { TreeOk(s.tree, s.next) }

  /** Callers name directories that are filed, and give names that are one path component. */
  predicate OpOk(s: Nodes, op: Op) {
    && op.parent in s.tree && NameOk(op.name)
    && (op.MakeDir? || op.Create? ==> s.tree[op.parent].isDir)
    && (op.Rename? ==> op.parentDst in s.tree && s.tree[op.parentDst].isDir && NameOk(op.nameDst))
  }

  function Grown(s: Nodes, p: Ino, name: string, isDir: bool): Nodes
    requires p in s.tree
  {
    Nodes(AddedChild(s.tree, s.next, p, name, isDir), s.next + 1)
  }

  ghost function Step(s: Nodes, op: Op): Nodes
    requires NodesOk(s) && OpOk(s, op)
  {
    RemovedIsOk(s.tree, s.next, op.parent, op.name);
    match op
    case Lookup(p, name, attr) =>
      if !s.tree[p].isDir || attr.NoAttr? || name in s.tree[p].child then s else Grown(s, p, name, attr.isDir)
    case MakeDir(p, name, made, _) => if made then Grown(s, p, name, true) else s
    case Create(p, name, made, _) => if made then Grown(s, p, name, false) else s
    case Remove(p, name, removed) => if removed then s.(tree := RemovedChild(s.tree, p, name)) else s
    case Rename(p, name, q, nameDst, sameUfs, renamed, attr) =>
      if !sameUfs || !renamed || attr.NoAttr? then s
      else Grown(s.(tree := RemovedChild(s.tree, p, name)), q, nameDst, attr.isDir)
  }

  /** No number goes to a second node: what was there keeps its name and kind, what is new is numbered
      from the old counter on. */
  ghost predicate Keeps(s: Nodes, t: Nodes) {
    && s.next <= t.next
    && (forall i | i in s.tree :: i in t.tree && t.tree[i].name == s.tree[i].name && t.tree[i].isDir == s.tree[i].isDir)
    && (forall i | i in t.tree && i !in s.tree :: s.next <= i)
  }

  lemma GrownKeeps(s: Nodes, p: Ino, name: string, isDir: bool)
    requires NodesOk(s) && p in s.tree && s.tree[p].isDir && NameOk(name)
    ensures NodesOk(Grown(s, p, name, isDir)) && Keeps(s, Grown(s, p, name, isDir))
  {
    AddedIsOk(s.tree, s.next, p, name, isDir);
  }

  lemma RemovedKeepsKind(t: Tree, p: Ino, name: string, q: Ino)
    requires p in t && q in t && (name in t[p].child ==> t[p].child[name] in t)
    ensures var u := RemovedChild(t, p, name); q in u && u[q].isDir == t[q].isDir && u[q].name == t[q].name
  {
  }

  lemma RemovedKeeps(s: Nodes, p: Ino, name: string)
    requires NodesOk(s) && p in s.tree
    ensures name in s.tree[p].child ==> s.tree[p].child[name] in s.tree
    ensures NodesOk(s.(tree := RemovedChild(s.tree, p, name))) && Keeps(s, s.(tree := RemovedChild(s.tree, p, name)))
  {
    RemovedIsOk(s.tree, s.next, p, name);
    RemovedAddsNothing(s.tree, p, name);
    forall q | q in s.tree
      ensures var t := RemovedChild(s.tree, p, name);
              q in t && t[q].name == s.tree[q].name && t[q].isDir == s.tree[q].isDir
    {
      RemovedKeepsKind(s.tree, p, name, q);
    }
  }

  lemma RemovedAddsNothing(t: Tree, p: Ino, name: string)
    requires p in t && (name in t[p].child ==> t[p].child[name] in t)
    ensures RemovedChild(t, p, name).Keys == t.Keys
  {
  }

  lemma StepKeeps(s: Nodes, op: Op)
    requires NodesOk(s) && OpOk(s, op)
    ensures NodesOk(Step(s, op)) && Keeps(s, Step(s, op))
  {
    RemovedKeeps(s, op.parent, op.name);
    if Step(s, op) == s {
    } else if op.Rename? {
      GrownKeeps(s.(tree := RemovedChild(s.tree, op.parent, op.name)), op.parentDst, op.nameDst, op.attr.isDir);
    } else if !op.Remove? {
      GrownKeeps(s, op.parent, op.name, if op.Lookup? then op.attr.isDir else op.MakeDir?);
    }
  }

  /** There is a new node under this entry: numbered next, of this kind and without children. */
  ghost predicate HasNew(s: Nodes, t: Nodes, p: Ino, name: string, isDir: bool) {
    && t.next == s.next + 1 && s.next in t.tree && t.tree[s.next] == Node(name, p, isDir, map[])
    && p in t.tree && name in t.tree[p].child && t.tree[p].child[name] == s.next
  }

  /** What each operation makes: a directory for Mkdir and Mknod, a file for Create, and what the backing
      store reports for Lookup and Rename, which also takes the old entry away. */
  lemma StepMakes(s: Nodes, op: Op)
    requires NodesOk(s) && OpOk(s, op)
    ensures op.MakeDir? && op.made ==> HasNew(s, Step(s, op), op.parent, op.name, true)
    ensures op.Create? && op.made ==> HasNew(s, Step(s, op), op.parent, op.name, false)
    ensures op.Lookup? && s.tree[op.parent].isDir && op.attr.Attr? && op.name !in s.tree[op.parent].child ==>
              HasNew(s, Step(s, op), op.parent, op.name, op.attr.isDir)
    ensures op.Lookup? && op.name in s.tree[op.parent].child ==> Step(s, op) == s
    ensures op.Remove? && op.removed ==>
              && Step(s, op).next == s.next && op.parent in Step(s, op).tree
              && op.name !in Step(s, op).tree[op.parent].child
    ensures op.Rename? && op.sameUfs && op.renamed && op.attr.Attr? ==>
              && HasNew(s, Step(s, op), op.parentDst, op.nameDst, op.attr.isDir)
              && (op.parent != op.parentDst || op.name != op.nameDst ==>
                    op.name !in Step(s, op).tree[op.parent].child)
  {
    RemovedIsOk(s.tree, s.next, op.parent, op.name);
    assert s.next !in s.tree;
  }

  ghost predicate OpsOk(s: Nodes, ops: seq<Op>)
    requires NodesOk(s)
    decreases |ops|
  {
    ops == [] || (OpOk(s, ops[0]) && NodesOk(Step(s, ops[0])) && OpsOk(Step(s, ops[0]), ops[1..]))
  }

  ghost function After(s: Nodes, ops: seq<Op>): Nodes
    requires NodesOk(s) && OpsOk(s, ops)
    decreases |ops|
  {
    if ops == [] then s else After(Step(s, ops[0]), ops[1..])
  }

  lemma {:induction false} AfterKeeps(s: Nodes, ops: seq<Op>)
    requires NodesOk(s) && OpsOk(s, ops)
    ensures NodesOk(After(s, ops)) && Keeps(s, After(s, ops))
    decreases |ops|
  {
    if ops != [] {
      StepKeeps(s, ops[0]);
      AfterKeeps(Step(s, ops[0]), ops[1..]);
    }
  }

  /** After any sequence of operations the path of every reachable inode leads back to it, and no two
      reachable inodes share a path. */
  lemma PathsAlwaysLeadBack(ops: seq<Op>, i: Ino, j: Ino)
    requires TreeOk(InitialTree(), 2) && OpsOk(Nodes(InitialTree(), 2), ops)
    requires var t := After(Nodes(InitialTree(), 2), ops).tree; Reachable(t, i) && Reachable(t, j)
    ensures var s := After(Nodes(InitialTree(), 2), ops);
            && NodesOk(s) && i in s.tree && j in s.tree
            && Follow(s.tree, ROOT, NonEmpty(Split(PathText(Segments(s.tree, s.next, i)), '/'))) == i
            && (PathText(Segments(s.tree, s.next, i)) == PathText(Segments(s.tree, s.next, j)) ==> i == j)
  {
    var s := After(Nodes(InitialTree(), 2), ops);
    AfterKeeps(Nodes(InitialTree(), 2), ops);
    PathLeadsBack(s.tree, s.next, i);
    PathLeadsBack(s.tree, s.next, j);
  }

  /** A path of which a part is missing is answered all the same, with the inode of another path. */
  lemma MissingPartIsIgnored()
    ensures var t := AddedChild(InitialTree(), 2, ROOT, "x", false);
            && TreeOk(t, 3) && !Reachable(t, 3)
            && Follow(t, ROOT, ["gone", "x"]) == 2
            && !exists i :: Leads(t, ROOT, ["gone", "x"], i)
  {
    InitialIsOk();
    AddedIsOk(InitialTree(), 2, ROOT, "x", false);
    var t := AddedChild(InitialTree(), 2, ROOT, "x", false);
    if Reachable(t, 3) {
      PathLeadsBack(t, 3, 3);
    }
    assert ["gone", "x"][1..] == ["x"] && ["x"][1..] == [];
    assert Follow(t, 2, []) == 2;
    assert Follow(t, ROOT, ["x"]) == 2;
    assert "gone" !in t[ROOT].child;
    forall i
      ensures !Leads(t, ROOT, ["gone", "x"], i)
    {
    }
  }

  /** Lookup links a new child a second time, which changes nothing. */
  lemma AddedTwice(t: Tree, next: Ino, p: Ino, name: string, isDir: bool)
    requires p in t && p != next
    ensures var u := AddedChild(t, next, p, name, isDir);
            u[p := u[p].(child := u[p].child[name := next])][next := u[next].(parent := p)] == u
  {
    var u := AddedChild(t, next, p, name, isDir);
    assert u[p].child[name := next] == u[p].child;
    assert u[p].(child := u[p].child) == u[p] && u[next].(parent := p) == u[next];
  }

  class DefaultMeta {
    const inodeHandle: InodeHandle

    constructor ()
      ensures fresh(inodeHandle) && fresh(inodeHandle.Repr) && inodeHandle.Valid()
      ensures State() == Nodes(InitialTree(), 2)
    {
      inodeHandle := new InodeHandle();
    }

    ghost function State(): Nodes
      reads inodeHandle
    {
      Nodes(inodeHandle.view, inodeHandle.nextNodeID)
    }

    method DoLookup(parent: Ino, name: string, attr: Attr) returns (inode: Ino)
      requires inodeHandle.Valid() && OpOk(State(), Lookup(parent, name, attr))
      modifies inodeHandle, inodeHandle.Repr
      ensures inodeHandle.Valid() && fresh(inodeHandle.Repr - old(inodeHandle.Repr))
      ensures State() == Step(old(State()), Lookup(parent, name, attr))
      ensures inode != 0 <==> old(State()).tree[parent].isDir && attr.Attr?
      ensures inode != 0 ==> name in State().tree[parent].child && State().tree[parent].child[name] == inode
    {
      assert inodeHandle.Shows(parent);
      if !inodeHandle.handles[parent].isDir {
        return 0;
      }
      if attr.NoAttr? {
        return 0;
      }
      inode := inodeHandle.GetChild(parent, name);
      if inode == 0 {
        inode := LookupNew(parent, name, attr.isDir);
      }
    }

    method LookupNew(parent: Ino, name: string, isDir: bool) returns (inode: Ino)
      requires inodeHandle.Valid() && parent in State().tree && State().tree[parent].isDir && NameOk(name)
      modifies inodeHandle, inodeHandle.Repr
      ensures inodeHandle.Valid() && fresh(inodeHandle.Repr - old(inodeHandle.Repr))
      ensures State() == Grown(old(State()), parent, name, isDir) && inode == old(State()).next
    {
      AddedIsOk(inodeHandle.view, inodeHandle.nextNodeID, parent, name, isDir);
      inode := inodeHandle.NewChild(parent, name, isDir);
      AddedTwice(old(inodeHandle.view), inode, parent, name, isDir);
      inodeHandle.AddChild(parent, name, inode);
    }

    /** Mknod, Mkdir and Create. The node is made before its attributes are asked for, so it stays when
        that fails and the call returns an error. */
    method DoMake(parent: Ino, name: string, isDir: bool, made: bool, attr: Attr) returns (inode: Ino, failed: bool)
      requires inodeHandle.Valid() && parent in State().tree && State().tree[parent].isDir && NameOk(name)
      modifies inodeHandle, inodeHandle.Repr
      ensures inodeHandle.Valid() && fresh(inodeHandle.Repr - old(inodeHandle.Repr))
      ensures State() == if made then Grown(old(State()), parent, name, isDir) else old(State())
      ensures failed <==> !made || attr.NoAttr?
      ensures made ==> inode == old(State()).next && inode !in old(State()).tree
    {
      if !made {
        return 0, true;
      }
      inode := inodeHandle.NewChild(parent, name, isDir);
      failed := attr.NoAttr?;
    }

    method DoRemove(parent: Ino, name: string, removed: bool)
      requires inodeHandle.Valid() && OpOk(State(), Remove(parent, name, removed))
      modifies inodeHandle, inodeHandle.Repr
      ensures inodeHandle.Valid() && inodeHandle.Repr == old(inodeHandle.Repr)
      ensures State() == Step(old(State()), Remove(parent, name, removed))
    {
      if removed {
        var _ := inodeHandle.RmChild(parent, name);
      }
    }

    /** The node under the new name is a new one: a renamed directory starts out without children. */
    method DoRename(parentSrc: Ino, nameSrc: string, parentDst: Ino, nameDst: string,
                    sameUfs: bool, renamed: bool, attr: Attr) returns (inode: Ino)
      requires inodeHandle.Valid()
      requires OpOk(State(), Rename(parentSrc, nameSrc, parentDst, nameDst, sameUfs, renamed, attr))
      modifies inodeHandle, inodeHandle.Repr
      ensures inodeHandle.Valid() && fresh(inodeHandle.Repr - old(inodeHandle.Repr))
      ensures State() == Step(old(State()), Rename(parentSrc, nameSrc, parentDst, nameDst, sameUfs, renamed, attr))
      ensures inode == if sameUfs && renamed && attr.Attr? then old(State()).next else 0
    {
      inode := 0;
      if !sameUfs || !renamed || attr.NoAttr? {
        return;
      }
      RemovedKeeps(State(), parentSrc, nameSrc);
      inode := Replant(parentSrc, nameSrc, parentDst, nameDst, attr.isDir);
    }

    method Replant(parentSrc: Ino, nameSrc: string, parentDst: Ino, nameDst: string, isDir: bool) returns (inode: Ino)
      requires inodeHandle.Valid()
      requires parentSrc in State().tree
      requires parentDst in State().tree && State().tree[parentDst].isDir && NameOk(nameDst)
      requires nameSrc in State().tree[parentSrc].child ==> State().tree[parentSrc].child[nameSrc] in State().tree
      modifies inodeHandle, inodeHandle.Repr
      ensures inodeHandle.Valid() && fresh(inodeHandle.Repr - old(inodeHandle.Repr))
      ensures inode == old(State()).next
      ensures State() ==
              Grown(old(State()).(tree := RemovedChild(old(State()).tree, parentSrc, nameSrc)), parentDst, nameDst,
                    isDir)
    {
      RemovedKeepsKind(State().tree, parentSrc, nameSrc, parentDst);
      Uproot(parentSrc, nameSrc);
      inode := Plant(parentDst, nameDst, isDir);
    }

    method Uproot(parent: Ino, name: string)
      requires inodeHandle.Valid() && parent in State().tree
      requires name in State().tree[parent].child ==> State().tree[parent].child[name] in State().tree
      modifies inodeHandle, inodeHandle.Repr
      ensures inodeHandle.Valid() && inodeHandle.Repr == old(inodeHandle.Repr)
      ensures State() == old(State()).(tree := RemovedChild(old(State()).tree, parent, name))
    {
      var _ := inodeHandle.RmChild(parent, name);
    }

    method Plant(parent: Ino, name: string, isDir: bool) returns (inode: Ino)
      requires inodeHandle.Valid() && parent in State().tree && State().tree[parent].isDir && NameOk(name)
      modifies inodeHandle, inodeHandle.Repr
      ensures inodeHandle.Valid() && fresh(inodeHandle.Repr - old(inodeHandle.Repr))
      ensures inode == old(State()).next && State() == Grown(old(State()), parent, name, isDir)
    {
      inode := inodeHandle.NewChild(parent, name, isDir);
    }

    method Do(op: Op)
      requires inodeHandle.Valid() && OpOk(State(), op)
      modifies inodeHandle, inodeHandle.Repr
      ensures inodeHandle.Valid() && fresh(inodeHandle.Repr - old(inodeHandle.Repr))
      ensures State() == Step(old(State()), op)
    {
      match op
      case Lookup(p, name, attr) => var _ := DoLookup(p, name, attr);
      case MakeDir(p, name, made, attr) => var _, _ := DoMake(p, name, true, made, attr);
      case Create(p, name, made, attr) => var _, _ := DoMake(p, name, false, made, attr);
      case Remove(p, name, removed) => DoRemove(p, name, removed);
      case Rename(p, name, q, nameDst, sameUfs, renamed, attr) =>
        var _ := DoRename(p, name, q, nameDst, sameUfs, renamed, attr);
    }

    method Run(ops: seq<Op>)
      requires inodeHandle.Valid() && OpsOk(State(), ops)
      modifies inodeHandle, inodeHandle.Repr
      ensures inodeHandle.Valid() && fresh(inodeHandle.Repr - old(inodeHandle.Repr))
      ensures State() == After(old(State()), ops)
      decreases |ops|
    {
      if ops != [] {
        Do(ops[0]);
        Run(ops[1..]);
      }
    }

    /** PathToInode undoes InodeToPath on every inode that can be reached from the root. */
    method RoundTrip(i: Ino) returns (back: Inode?)
      requires inodeHandle.Valid() && Reachable(State().tree, i)
      ensures i in inodeHandle.handles && back == inodeHandle.handles[i]
    {
      PathLeadsBack(State().tree, State().next, i);
      var path := inodeHandle.InodeToPath(i);
      back := inodeHandle.PathToInode(path);
    }
  }
}
