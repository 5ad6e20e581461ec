/** Inode and InodeHandle of pkg/fs/client/meta/inode.go with their pointers and maps, and the tree
    operations of default.go on top of them. */
module InodeHandles {
  import opened Dependencies
  import opened InodeTree

  class Inode {
    const inode: Ino
    const name: string
    const isDir: bool // child is not nil
    var parent: Inode?
    var child: map<string, Ino>

    constructor (inode: Ino, name: string, isDir: bool)
      ensures this.inode == inode && this.name == name && this.isDir == isDir
      ensures parent == null && child == map[]
    {
      this.inode, this.name, this.isDir := inode, name, isDir;
      parent, child := null, map[];
    }
  }

  class InodeHandle {
    var handles: map<Ino, Inode>
    var nextNodeID: Ino
    ghost var view: Tree       // what the nodes hold
    ghost var Repr: set<Inode> // the nodes

    /** The node filed under i has this number, and the view is right about it. */
    ghost predicate Shows(i: Ino)
      requires i in handles && i in view
      reads `handles, `view, `Repr, Repr
    {
      var n, v := handles[i], view[i];
      && n in Repr && n.inode == i && n.name == v.name && n.isDir == v.isDir && n.child == v.child
      && (if v.parent == 0 then n.parent == null else v.parent in handles && n.parent == handles[v.parent])
    }

    ghost predicate Filed()
      reads `handles, `view, `Repr, Repr
    {
      handles.Keys == view.Keys && forall i | i in handles :: Shows(i)
    }

    ghost predicate Valid()
      reads this, Repr
    {
      Filed() && TreeOk(view, nextNodeID)
    }

    /** NewInodeHandle and InitRootNode. */
    constructor ()
      ensures Valid() && view == InitialTree() && nextNodeID == 2 && fresh(Repr)
    {
      handles, nextNodeID, view, Repr := map[], 2, InitialTree(), {};
      new;
      var root := new Inode(ROOT, "", true);
      handles, Repr := map[ROOT := root], {root};
      InitialIsOk();
    }

    // ---- single assignments ----

    method NewInode(name: string, isDir: bool) returns (i: Ino)
      requires Filed() && nextNodeID !in handles && 0 !in handles && nextNodeID != 0
      modifies `handles, `nextNodeID, `view, `Repr
      ensures Filed() && i == old(nextNodeID) && nextNodeID == i + 1
      ensures i in handles && handles == old(handles)[i := handles[i]]
      ensures Repr == old(Repr) + {handles[i]} && fresh(handles[i])
      ensures view == old(view)[i := Node(name, 0, isDir, map[])]
    {
      i := nextNodeID;
      var node := new Inode(i, name, isDir);
      handles, Repr := handles[i := node], Repr + {node};
      nextNodeID := nextNodeID + 1;
      view := view[i := Node(name, 0, isDir, map[])];
      forall j | j in handles && j != i
        ensures Shows(j)
      {
        assert old(Shows(j));
      }
    }

    method SetEntry(p: Ino, name: string, c: Ino)
      requires Filed() && p in handles
      modifies `view, handles[p]
      ensures Filed() && view == old(view)[p := old(view)[p].(child := old(view)[p].child[name := c])]
    {
      var n := handles[p];
      assert Shows(p);
      view := view[p := view[p].(child := view[p].child[name := c])];
      n.child := n.child[name := c];
    }

    method DeleteEntry(p: Ino, name: string)
      requires Filed() && p in handles
      modifies `view, handles[p]
      ensures Filed() && view == old(view)[p := old(view)[p].(child := old(view)[p].child - {name})]
    {
      var n := handles[p];
      assert Shows(p);
      n.child := n.child - {name};
      view := view[p := view[p].(child := view[p].child - {name})];
      assert Shows(p);
    }

    method SetParent(c: Ino, p: Ino)
      requires Filed() && c in handles && (p == 0 || p in handles)
      modifies `view, handles[c]
      ensures Filed() && view == old(view)[c := old(view)[c].(parent := p)]
    {
      var n := handles[c];
      assert Shows(c);
      n.parent := if p == 0 then null else handles[p];
      view := view[c := view[c].(parent := p)];
      assert Shows(c);
    }

    // ---- the tree operations ----

    method AddChild(p: Ino, name: string, c: Ino)
      requires Filed() && p in handles && c in handles && p != c && p != 0
      modifies `view, handles[p], handles[c]
      ensures Filed()
      ensures view ==
              old(view)[p := old(view)[p].(child := old(view)[p].child[name := c])][c := old(view)[c].(parent := p)]
    {
      SetEntry(p, name, c);
      SetParent(c, p);
    }

    /** NewChild: a node of the next number, linked both ways. */
    method NewChild(p: Ino, name: string, isDir: bool) returns (i: Ino)
      requires Valid() && p in handles && view[p].isDir && NameOk(name)
      modifies this, Repr
      ensures Valid() && i == old(nextNodeID) && nextNodeID == i + 1
      ensures i in handles && handles == old(handles)[i := handles[i]] && Repr == old(Repr) + {handles[i]}
      ensures fresh(handles[i])
      ensures view == AddedChild(old(view), i, p, name, isDir)
    {
      AddedIsOk(view, nextNodeID, p, name, isDir);
      i := NewLinked(p, name, isDir);
    }

    method NewLinked(p: Ino, name: string, isDir: bool) returns (i: Ino)
      requires Filed() && nextNodeID !in handles && 0 !in handles && nextNodeID != 0 && p in handles
      modifies this, Repr
      ensures Filed() && i == old(nextNodeID) && nextNodeID == i + 1
      ensures i in handles && handles == old(handles)[i := handles[i]] && Repr == old(Repr) + {handles[i]}
      ensures fresh(handles[i])
      ensures view == AddedChild(old(view), i, p, name, isDir)
    {
      ghost var was := view;
      i := NewInode(name, isDir);
      assert p in handles && p != i && p != 0;
      Link(i, p, name);
      AddedIs(was, i, p, name, isDir);
    }

    method Link(i: Ino, p: Ino, name: string)
      requires Filed() && i in handles && p in handles && p != i && p != 0
      modifies `view, Repr
      ensures Filed() && view == Linked(old(view), i, p, name)
    {
      assert Shows(p) && Shows(i);
      SetParent(i, p);
      AddChild(p, name, i);
    }

    method RmChild(p: Ino, name: string) returns (child: Ino)
      requires Valid() && p in handles
      modifies `view, Repr
      ensures Valid()
      ensures child == if name in old(view)[p].child then old(view)[p].child[name] else 0
      ensures old(RemovalFits(p, name)) && view == RemovedChild(old(view), p, name)
    {
      RemovedIsOk(view, nextNodeID, p, name);
      child := GetChild(p, name);
      if child != 0 {
        Detach(p, name, child);
      }
    }

    method GetChild(p: Ino, name: string) returns (child: Ino)
      requires Valid() && p in handles
      ensures child == if name in view[p].child then view[p].child[name] else 0
      ensures child == 0 <==> name !in view[p].child
    {
      assert Shows(p);
      assert name in view[p].child ==> EntryOk(view, p, name);
      child := if name in handles[p].child then handles[p].child[name] else 0;
    }

    method Detach(p: Ino, name: string, child: Ino)
      requires Filed() && p in handles && p != child
      requires child in view && name in view[p].child && child == view[p].child[name]
      modifies `view, Repr
      ensures Filed() && view == RemovedChild(old(view), p, name)
    {
      assert Shows(p) && Shows(child);
      DeleteEntry(p, name);
      SetParent(child, 0);
    }

    ghost predicate RemovalFits(p: Ino, name: string)
      reads `view
    {
      p in view && (name in view[p].child ==> view[p].child[name] in view)
    }

    /** InodeToPath: collect the names up the parent chain, then write them out backwards. */
    method InodeToPath(i: Ino) returns (path: string)
      requires Valid() && i in handles
      ensures path == PathText(Segments(view, nextNodeID, i))
    {
      var inode := handles[i];
      assert Shows(i);
      if inode.parent == null {
        return "/";
      }
      var segments := NamesUp(i);
      assert segments != [];
      path := "";
      var k := |segments| - 1;
      assert segments[..k + 1] == segments;
      while k >= 0
        invariant -1 <= k < |segments|
        invariant path + Joined(Reversed(segments[..k + 1])) == Joined(Reversed(segments))
      {
        assert segments[..k + 1] == segments[..k] + [segments[k]];
        ReversedSnoc(segments[..k], segments[k]);
        assert ([segments[k]] + Reversed(segments[..k]))[1..] == Reversed(segments[..k]);
        path := path + "/" + segments[k];
        k := k - 1;
      }
      assert segments[..0] == [];
      assert path + "" == path;
      ReversedLength(segments);
    }

    method NamesUp(i: Ino) returns (segments: seq<string>)
      requires Valid() && i in handles
      ensures Reversed(segments) == Segments(view, nextNodeID, i)
      ensures view[i].parent != 0 ==> segments != []
    {
      segments := [];
      ghost var at: Ino := i;
      var inode := handles[i];
      assert Segments(view, nextNodeID, i) + [] == Segments(view, nextNodeID, i);
      while inode.parent != null
        invariant at in handles && handles[at] == inode && at <= i && (at != i ==> segments != [])
        invariant Segments(view, nextNodeID, i) == Segments(view, nextNodeID, at) + Reversed(segments)
        decreases at
      {
        assert Shows(at);
        ReversedSnoc(segments, inode.name);
        segments := segments + [inode.name];
        at, inode := view[at].parent, inode.parent;
      }
      assert Shows(at);
      assert [] + Reversed(segments) == Reversed(segments);
    }

    /** PathToInode: follow the nonempty pieces from the root, passing over what is not there. */
    method PathToInode(path: string) returns (result: Inode?)
      requires Valid()
      ensures var i := Follow(view, ROOT, NonEmpty(Split(path, '/')));
              i in handles && result == handles[i]
    {
      var parent: Ino := ROOT;
      var ss := Split(path, '/');
      assert ss[0..] == ss;
      for k := 0 to |ss|
        invariant parent in handles
        invariant Follow(view, parent, NonEmpty(ss[k..])) == Follow(view, ROOT, NonEmpty(ss))
      {
        assert ss[k..][0] == ss[k] && ss[k..][1..] == ss[k + 1..];
        if |ss[k]| == 0 {
          assert NonEmpty(ss[k..]) == NonEmpty(ss[k + 1..]);
          continue;
        }
        assert NonEmpty(ss[k..])[0] == ss[k] && NonEmpty(ss[k..])[1..] == NonEmpty(ss[k + 1..]);
        var inode := handles[parent];
        assert Shows(parent);
        if ss[k] in inode.child {
          assert EntryOk(view, parent, ss[k]);
          parent := inode.child[ss[k]];
        }
      }
      assert NonEmpty(ss[|ss|..]) == [];
      result := handles[parent];
    }
  }

  ghost function Linked(t: Tree, i: Ino, p: Ino, name: string): Tree
    requires i in t && p in t && i != p
  {
    var u := t[i := t[i].(parent := p)];
    u[p := u[p].(child := u[p].child[name := i])][i := u[i].(parent := p)]
  }

  lemma AddedIs(t: Tree, i: Ino, p: Ino, name: string, isDir: bool)
    requires p in t && p != i
    ensures Linked(t[i := Node(name, 0, isDir, map[])], i, p, name) == AddedChild(t, i, p, name, isDir)
  {
  }

  function Reversed(s: seq<string>): seq<string> { if s == [] then [] else Reversed(s[1..]) + [s[0]] }

  lemma {:induction false} ReversedSnoc(s: seq<string>, x: string)
    ensures Reversed(s + [x]) == [x] + Reversed(s)
  {
    if s == [] {
      assert s + [x] == [x] && [x][1..] == [];
    } else {
      assert (s + [x])[1..] == s[1..] + [x];
      ReversedSnoc(s[1..], x);
    }
  }

  lemma {:induction false} ReversedLength(s: seq<string>)
    ensures |Reversed(s)| == |s|
  {
    if s != [] {
      ReversedLength(s[1..]);
    }
  }
}
