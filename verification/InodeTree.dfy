/** The inode tree of pkg/fs/client/meta/inode.go on values: what the tree operations keep, and that the
    path of a reachable inode leads back to it. */
module InodeTree {
  import opened Dependencies

  type Ino = nat

  const ROOT: Ino := 1

  /** parent 0 stands for nil; files have no child map, which is the empty one here. */
  datatype Node = Node(name: string, parent: Ino, isDir: bool, child: map<string, Ino>)

  type Tree = map<Ino, Node>

  predicate NameOk(name: string) { name != "" && '/' !in name }

  /** One entry of a directory: the child is younger, and knows its parent and its name. */
  ghost predicate EntryOk(t: Tree, p: Ino, name: string)
    requires p in t && name in t[p].child
  {
    var c := t[p].child[name];
    NameOk(name) && p < c && c in t && t[c].parent == p && t[c].name == name
  }

  ghost predicate TreeOk(t: Tree, next: Ino) {
    && ROOT in t && t[ROOT].parent == 0 && t[ROOT].isDir
    && (forall i | i in t :: 0 < i < next)
    && (forall i | i in t :: t[i].parent < i && (t[i].parent == 0 || t[i].parent in t))
    && (forall i | i in t :: !t[i].isDir ==> t[i].child == map[])
    && (forall p, name | p in t && name in t[p].child :: EntryOk(t, p, name))
  }

  // ---- the operations ----

  function InitialTree(): Tree { map[ROOT := Node("", 0, true, map[])] }

  /** NewChild: a node with the next number, linked under p; an entry of the same name is overwritten. */
  function AddedChild(t: Tree, next: Ino, p: Ino, name: string, isDir: bool): Tree
    requires p in t
  {
    t[p := t[p].(child := t[p].child[name := next])][next := Node(name, p, isDir, map[])]
  }

  /** RmChild: the entry goes, and the node it led to forgets its parent but stays where it is. */
  function RemovedChild(t: Tree, p: Ino, name: string): Tree
    requires p in t && (name in t[p].child ==> t[p].child[name] in t)
  {
    if name !in t[p].child then t
    else
      var c := t[p].child[name];
      t[p := t[p].(child := t[p].child - {name})][c := t[c].(parent := 0)]
  }

  /** Just one node and one entry are new. */
  lemma AddedIsLinked(t: Tree, next: Ino, p: Ino, name: string, isDir: bool)
    requires p in t && next !in t
    ensures var u := AddedChild(t, next, p, name, isDir);
            && u.Keys == t.Keys + {next} && u[next] == Node(name, p, isDir, map[])
            && u[p].child.Keys == t[p].child.Keys + {name} && u[p].child[name] == next
            && u[p].name == t[p].name && u[p].parent == t[p].parent && u[p].isDir == t[p].isDir
            && (forall m | m in t[p].child && m != name :: u[p].child[m] == t[p].child[m])
            && (forall q | q in t && q != p :: u[q] == t[q])
  {
  }

  /** Just that entry is gone, and its node has no parent any more. */
  lemma RemovedIsUnlinked(t: Tree, p: Ino, name: string)
    requires p in t && (name in t[p].child ==> t[p].child[name] in t && t[p].child[name] != p)
    ensures var u := RemovedChild(t, p, name);
            && u.Keys == t.Keys && u[p].child == t[p].child - {name}
            && u[p].name == t[p].name && u[p].parent == t[p].parent && u[p].isDir == t[p].isDir
            && (name in t[p].child ==> u[t[p].child[name]] == t[t[p].child[name]].(parent := 0))
            && (forall q | q in t && q != p && !(name in t[p].child && q == t[p].child[name]) :: u[q] == t[q])
  {
    if name !in t[p].child {
      assert t[p].child - {name} == t[p].child;
    }
  }

  lemma InitialIsOk()
    ensures TreeOk(InitialTree(), 2)
  {
  }

  lemma AddedIsOk(t: Tree, next: Ino, p: Ino, name: string, isDir: bool)
    requires TreeOk(t, next) && p in t && t[p].isDir && NameOk(name)
    ensures TreeOk(AddedChild(t, next, p, name, isDir), next + 1)
  {
    var u := AddedChild(t, next, p, name, isDir);
    assert p < next && next !in t;
    forall q, m | q in u && m in u[q].child
      ensures EntryOk(u, q, m)
    {
      if q == p && m == name {
      } else {
        assert q in t && m in t[q].child && EntryOk(t, q, m);
      }
    }
  }

  lemma RemovedIsOk(t: Tree, next: Ino, p: Ino, name: string)
    requires TreeOk(t, next) && p in t
    ensures name in t[p].child ==> t[p].child[name] in t && t[p].child[name] != p
    ensures TreeOk(RemovedChild(t, p, name), next)
  {
    if name in t[p].child {
      assert EntryOk(t, p, name);
      var u, c := RemovedChild(t, p, name), t[p].child[name];
      assert u[p] == t[p].(child := t[p].child - {name}) && u[c] == t[c].(parent := 0);
      forall q, m | q in u && m in u[q].child
        ensures EntryOk(u, q, m)
      {
        OtherEntryStays(t, next, p, name, q, m);
      }
    }
  }

  /** The entry that goes is the only one that leads to its child. */
  lemma OtherEntryStays(t: Tree, next: Ino, p: Ino, name: string, q: Ino, m: string)
    requires TreeOk(t, next) && p in t && name in t[p].child && t[p].child[name] in t
    requires q in RemovedChild(t, p, name) && m in RemovedChild(t, p, name)[q].child
    ensures EntryOk(RemovedChild(t, p, name), q, m)
  {
    var c := t[p].child[name];
    assert EntryOk(t, p, name);
    assert q in t && m in t[q].child && EntryOk(t, q, m);
    assert t[q].child[m] != c;
  }

  // ---- paths ----

  /** The names from the top of i's parent chain down to i. */
  function Segments(t: Tree, next: Ino, i: Ino): seq<string>
    requires TreeOk(t, next) && i in t
    decreases i
  {
    if t[i].parent == 0 then [] else Segments(t, next, t[i].parent) + [t[i].name]
  }

  /** Where the names lead from i, if all of them are there. */
  ghost predicate Leads(t: Tree, i: Ino, names: seq<string>, j: Ino)
    decreases |names|
  {
    if names == [] then i == j
    else i in t && names[0] in t[i].child && Leads(t, t[i].child[names[0]], names[1..], j)
  }

  ghost predicate Reachable(t: Tree, i: Ino) { exists names :: Leads(t, ROOT, names, i) }

  /** The loop of PathToInode: a name that is not there is passed over. */
  function Follow(t: Tree, i: Ino, names: seq<string>): Ino
    decreases |names|
  {
    if names == [] then i
    else Follow(t, if i in t && names[0] in t[i].child then t[i].child[names[0]] else i, names[1..])
  }

  lemma {:induction false} LeadsFollows(t: Tree, i: Ino, names: seq<string>, j: Ino)
    requires Leads(t, i, names, j)
    ensures Follow(t, i, names) == j
    decreases |names|
  {
    if names != [] {
      LeadsFollows(t, t[i].child[names[0]], names[1..], j);
    }
  }

  lemma {:induction false} LeadsStaysIn(t: Tree, next: Ino, i: Ino, names: seq<string>, j: Ino)
    requires TreeOk(t, next) && i in t && Leads(t, i, names, j)
    ensures j in t && forall n | n in names :: NameOk(n)
    decreases |names|
  {
    if names != [] {
      assert EntryOk(t, i, names[0]);
      LeadsStaysIn(t, next, t[i].child[names[0]], names[1..], j);
      assert forall n | n in names :: n == names[0] || n in names[1..];
    }
  }

  /** The names that lead to an inode are the names up its parent chain. */
  lemma {:induction false} LeadsIsSegments(t: Tree, next: Ino, i: Ino, names: seq<string>, j: Ino)
    requires TreeOk(t, next) && i in t && Leads(t, i, names, j)
    ensures j in t && Segments(t, next, j) == Segments(t, next, i) + names
    decreases |names|
  {
    if names == [] {
      assert Segments(t, next, i) + [] == Segments(t, next, i);
    } else {
      var c := t[i].child[names[0]];
      assert EntryOk(t, i, names[0]);
      LeadsIsSegments(t, next, c, names[1..], j);
      assert Segments(t, next, c) == Segments(t, next, i) + [names[0]];
      assert [names[0]] + names[1..] == names;
    }
  }

  /** The text of InodeToPath. */
  function PathText(names: seq<string>): string {
    if names == [] then "/" else Joined(names)
  }

  function Joined(names: seq<string>): string {
    if names == [] then "" else "/" + names[0] + Joined(names[1..])
  }

  /** The pieces of a path that are not empty. */
  function NonEmpty(pieces: seq<string>): seq<string> {
    if pieces == [] then [] else (if pieces[0] == "" then [] else [pieces[0]]) + NonEmpty(pieces[1..])
  }

  lemma {:induction false} SplitJoined(names: seq<string>)
    requires forall n | n in names :: NameOk(n)
    ensures Split(Joined(names), '/') == [""] + names
    decreases |names|
  {
    if names != [] {
      var rest := Joined(names[1..]);
      assert NameOk(names[0]);
      assert Joined(names) == "" + "/" + (names[0] + rest);
      SplitWord("", names[0] + rest, '/');
      SplitJoined(names[1..]);
      if names[1..] == [] {
        assert names[0] + rest == names[0];
        SplitLastWord(names[0], '/');
        assert names == [names[0]];
      } else {
        var tail := rest[1..];
        assert rest == "" + "/" + tail && names[0] + rest == names[0] + "/" + tail;
        SplitWord(names[0], tail, '/');
        SplitWord("", tail, '/');
        assert Split(tail, '/') == ([""] + names[1..])[1..] == names[1..];
        assert [names[0]] + names[1..] == names;
      }
    }
  }

  lemma {:induction false} NonEmptyIsAll(names: seq<string>)
    requires forall n | n in names :: NameOk(n)
    ensures NonEmpty(names) == names
  {
    if names != [] {
      assert NameOk(names[0]);
      NonEmptyIsAll(names[1..]);
    }
  }

  lemma PathTextSplits(names: seq<string>)
    requires forall n | n in names :: NameOk(n)
    ensures NonEmpty(Split(PathText(names), '/')) == names
  {
    if names == [] {
      assert "/" == "" + "/" + "";
      SplitWord("", "", '/');
      assert Split("", '/') == [""];
      assert [""][1..] == [] && ["", ""][1..] == [""];
    } else {
      SplitJoined(names);
      assert ([""] + names)[1..] == names;
      NonEmptyIsAll(names);
    }
  }

  /** One slash before each name and none after the last. */
  predicate CleanPath(path: string) {
    && path != "" && path[0] == '/'
    && (forall i | 0 <= i < |path| - 1 :: !(path[i] == '/' && path[i + 1] == '/'))
    && (|path| > 1 ==> path[|path| - 1] != '/')
  }

  lemma {:induction false} JoinedIsClean(names: seq<string>)
    requires names != [] && forall n | n in names :: NameOk(n)
    ensures CleanPath(Joined(names)) && |Joined(names)| > 1
    decreases |names|
  {
    var name, rest := names[0], Joined(names[1..]);
    assert NameOk(name);
    if names[1..] != [] {
      JoinedIsClean(names[1..]);
    }
    var path := Joined(names);
    assert path == "/" + name + rest;
    forall i | 0 <= i < |path| - 1
      ensures !(path[i] == '/' && path[i + 1] == '/')
    {
      if i == 0 {
        assert path[1] == name[0];
      } else if i <= |name| {
        assert path[i] == name[i - 1];
      } else {
        var j := i - |name| - 1;
        assert path[i] == rest[j] && path[i + 1] == rest[j + 1];
      }
    }
    assert path[|path| - 1] == if rest == "" then name[|name| - 1] else rest[|rest| - 1];
  }

  /** The path of a reachable inode begins with a slash, has no two side by side, and ends in none unless it
      is that of the root. */
  lemma PathIsClean(t: Tree, next: Ino, i: Ino)
    requires TreeOk(t, next) && Reachable(t, i)
    ensures i in t && CleanPath(PathText(Segments(t, next, i)))
    ensures PathText(Segments(t, next, i)) == "/" <==> i == ROOT
  {
    var names :| Leads(t, ROOT, names, i);
    LeadsStaysIn(t, next, ROOT, names, i);
    LeadsIsSegments(t, next, ROOT, names, i);
    assert Segments(t, next, ROOT) == [] && [] + names == names;
    if names != [] {
      JoinedIsClean(names);
      if i == ROOT {
        assert false;
      }
    }
  }

  /** The path of a reachable inode leads PathToInode back to it. */
  lemma PathLeadsBack(t: Tree, next: Ino, i: Ino)
    requires TreeOk(t, next) && Reachable(t, i)
    ensures i in t && Follow(t, ROOT, NonEmpty(Split(PathText(Segments(t, next, i)), '/'))) == i
  {
    var names :| Leads(t, ROOT, names, i);
    LeadsStaysIn(t, next, ROOT, names, i);
    LeadsIsSegments(t, next, ROOT, names, i);
    assert Segments(t, next, ROOT) == [] && [] + names == names;
    PathTextSplits(names);
    LeadsFollows(t, ROOT, names, i);
  }

  /** Two reachable inodes with one path are one inode. */
  lemma PathsAreUnique(t: Tree, next: Ino, i: Ino, j: Ino)
    requires TreeOk(t, next) && Reachable(t, i) && Reachable(t, j)
    requires i in t && j in t && PathText(Segments(t, next, i)) == PathText(Segments(t, next, j))
    ensures i == j
  {
    PathLeadsBack(t, next, i);
    PathLeadsBack(t, next, j);
  }

  /** PathToInode finds what a path names if all of the path is there; otherwise it answers for the
      path without the names that are missing. */
  lemma {:induction false} MissingNamesArePassedOver(t: Tree, i: Ino, before: seq<string>, name: string,
                                                     after: seq<string>)
    requires var j := Follow(t, i, before); !(j in t && name in t[j].child)
    ensures Follow(t, i, before + [name] + after) == Follow(t, i, before + after)
    decreases |before|
  {
    if before == [] {
      assert (before + [name] + after)[0] == name && (before + [name] + after)[1..] == after && before + after == after;
    } else {
      assert (before + [name] + after)[1..] == before[1..] + [name] + after;
      assert (before + after)[1..] == before[1..] + after;
      var next := if i in t && before[0] in t[i].child then t[i].child[before[0]] else i;
      MissingNamesArePassedOver(t, next, before[1..], name, after);
    }
  }

  /** A node that was taken out is not reachable, and its path is that of the root. */
  lemma RemovedIsLost(t: Tree, next: Ino, i: Ino)
    requires TreeOk(t, next) && i in t && i != ROOT && t[i].parent == 0
    ensures !Reachable(t, i) && PathText(Segments(t, next, i)) == "/"
  {
    if Reachable(t, i) {
      PathLeadsBack(t, next, i);
      assert Segments(t, next, i) == [];
      PathTextSplits([]);
    }
  }
}
