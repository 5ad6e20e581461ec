/** The table of open handles of pkg/fs/client/vfs/handle.go: one slice of handles per inode, from which
    a handle is removed by moving the last one into its place. */
module HandleTable {
  import opened Options

  type Ino = nat

  datatype Handle = Handle(inode: Ino, fh: nat)

  /** The slice without its i-th element, whose place the last one takes. */
  function SwapDeleted(handles: seq<Handle>, i: nat): seq<Handle>
    requires i < |handles|
  {
    (if i + 1 < |handles| then handles[i := handles[|handles| - 1]] else handles)[..|handles| - 1]
  }

  predicate Distinct(handles: seq<Handle>) {
    forall i, j | 0 <= i < j < |handles| :: handles[i].fh != handles[j].fh
  }

  lemma SwapDeletes(handles: seq<Handle>, i: nat)
    requires i < |handles| && Distinct(handles)
    ensures Distinct(SwapDeleted(handles, i))
    ensures forall h :: h in SwapDeleted(handles, i) <==> h in handles && h != handles[i]
  {
    var last, left := |handles| - 1, SwapDeleted(handles, i);
    assert forall k | 0 <= k < last :: left[k] == if k == i then handles[last] else handles[k];
    forall h | h in handles && h != handles[i]
      ensures h in left
    {
      var k :| 0 <= k < |handles| && handles[k] == h;
      assert left[if k == last then i else k] == h;
    }
    forall h | h in left
      ensures h in handles && h != handles[i]
    {
      var k :| 0 <= k < last && left[k] == h;
      assert h == handles[if k == i then last else k];
    }
  }

  type Table = map<Ino, seq<Handle>>

  /** A slice is not empty and holds handles of its own inode, each once. */
  ghost predicate SliceOk(i: Ino, handles: seq<Handle>, next: nat) {
    handles != [] && Distinct(handles) && forall h | h in handles :: h.inode == i && h.fh < next
  }

  ghost predicate SlicesOk(t: Table, next: nat) { forall i | i in t :: SliceOk(i, t[i], next) }

  /** Every number is used once, and has been issued. */
  ghost predicate UniqueNumbers(open: set<Handle>, next: nat) {
    && (forall g | g in open :: g.fh < next)
    && (forall g, h | g in open && h in open && g.fh == h.fh :: g == h)
  }

  ghost predicate TableOk(t: Table, next: nat) { SlicesOk(t, next) && UniqueNumbers(Held(t), next) }

  /** The handles that are open. */
  ghost function Held(t: Table): set<Handle> { set i, h | i in t && h in t[i] :: h }

  lemma HeldIff(t: Table, next: nat, h: Handle)
    requires SlicesOk(t, next)
    ensures h in Held(t) <==> h.inode in t && h in t[h.inode]
  {
    if h in Held(t) {
      var i :| i in t && h in t[i];
      assert SliceOk(i, t[i], next);
    }
  }

  function Appended(t: Table, h: Handle): Table {
    t[h.inode := (if h.inode in t then t[h.inode] else []) + [h]]
  }

  lemma AppendedIsOk(t: Table, next: nat, inode: Ino)
    requires TableOk(t, next)
    ensures TableOk(Appended(t, Handle(inode, next)), next + 1)
    ensures Held(Appended(t, Handle(inode, next))) == Held(t) + {Handle(inode, next)}
    ensures forall g | g in Held(t) :: g.fh < next
  {
    var made := Handle(inode, next);
    var u := Appended(t, made);
    forall i | i in u
      ensures SliceOk(i, u[i], next + 1)
    {
      assert i in t ==> SliceOk(i, t[i], next);
    }
    forall h
      ensures h in Held(u) <==> h in Held(t) || h == made
    {
      HeldIff(t, next, h);
      HeldIff(u, next + 1, h);
    }
  }

  /** The table after h, at place i of its slice, has been taken out. */
  function TakenOut(t: Table, inode: Ino, i: nat): Table
    requires inode in t && i < |t[inode]|
  {
    if |t[inode]| > 1 then t[inode := SwapDeleted(t[inode], i)] else t - {inode}
  }

  lemma TakenOutIsOk(t: Table, next: nat, inode: Ino, i: nat)
    requires TableOk(t, next) && inode in t && i < |t[inode]|
    ensures TableOk(TakenOut(t, inode, i), next)
    ensures Held(TakenOut(t, inode, i)) == Held(t) - {t[inode][i]}
  {
    var u, gone := TakenOut(t, inode, i), t[inode][i];
    assert SliceOk(inode, t[inode], next);
    SwapDeletes(t[inode], i);
    forall j | j in u
      ensures SliceOk(j, u[j], next)
    {
      assert SliceOk(j, t[j], next);
    }
    forall h
      ensures h in Held(u) <==> h in Held(t) && h != gone
    {
      HeldIff(t, next, h);
      HeldIff(u, next, h);
      assert |t[inode]| == 1 && h in t[inode] ==> h == gone;
    }
  }

  class VFS {
    var handleMap: Table
    var nextfh: nat

    constructor (nextfh: nat)
      ensures Valid() && Open() == {} && this.nextfh == nextfh
    {
      handleMap, this.nextfh := map[], nextfh;
    }

    ghost predicate Valid()
      reads this
    {
      TableOk(handleMap, nextfh)
    }

    ghost function Open(): set<Handle>
      reads this
    {
      Held(handleMap)
    }

    method NewHandle(inode: Ino) returns (h: Handle)
      requires Valid()
      modifies this
      ensures Valid() && nextfh == old(nextfh) + 1
      ensures h == Handle(inode, old(nextfh))
      ensures Open() == old(Open()) + {h} && forall g | g in old(Open()) :: g.fh < h.fh
    {
      AppendedIsOk(handleMap, nextfh, inode);
      h := Handle(inode, nextfh);
      nextfh := nextfh + 1;
      handleMap := handleMap[inode := (if inode in handleMap then handleMap[inode] else []) + [h]];
    }

    method FindHandle(inode: Ino, fh: nat) returns (found: Option<Handle>)
      requires Valid()
      ensures found == if Handle(inode, fh) in Open() then Some(Handle(inode, fh)) else None
    {
      HeldIff(handleMap, nextfh, Handle(inode, fh));
      if inode in handleMap {
        var handles := handleMap[inode];
        for i := 0 to |handles|
          invariant forall k | 0 <= k < i :: handles[k].fh != fh
        {
          if handles[i].fh == fh {
            assert handles[i] in handleMap[inode];
            return Some(handles[i]);
          }
        }
      }
      found := None;
    }

    method ReleaseHandle(inode: Ino, fh: nat)
      requires Valid()
      modifies `handleMap
      ensures Valid() && Open() == old(Open()) - {Handle(inode, fh)}
    {
      HeldIff(handleMap, nextfh, Handle(inode, fh));
      if inode !in handleMap {
        return;
      }
      var handles := handleMap[inode];
      for i := 0 to |handles|
        invariant handleMap == old(handleMap) && forall k | 0 <= k < i :: handles[k].fh != fh
      {
        if handles[i].fh == fh {
          assert handles[i] in handles && handles[i] == Handle(inode, fh);
          TakenOutIsOk(handleMap, nextfh, inode, i);
          if |handles| > 1 {
            handleMap := handleMap[inode := SwapDeleted(handles, i)];
          } else {
            handleMap := handleMap - {inode};
          }
          return;
        }
      }
    }

    // ---- histories ----

    method Run(ops: seq<Op>)
      requires Valid()
      modifies this
      ensures Valid() && nextfh == NextAfter(old(nextfh), ops)
      ensures Open() == OpenAfter(old(Open()), old(nextfh), ops)
      decreases |ops|
    {
      if ops != [] {
        match ops[0] {
          case OpenHandle(inode) => var _ := NewHandle(inode);
          case Release(inode, fh) => ReleaseHandle(inode, fh);
        }
        Run(ops[1..]);
      }
    }
  }

  datatype Op = OpenHandle(inode: Ino) | Release(inode: Ino, fh: nat)

  function NextAfter(next: nat, ops: seq<Op>): nat
    decreases |ops|
  {
    if ops == [] then next else NextAfter(if ops[0].OpenHandle? then next + 1 else next, ops[1..])
  }

  /** What should be open: opened minus released. */
  function OpenAfter(open: set<Handle>, next: nat, ops: seq<Op>): set<Handle>
    decreases |ops|
  {
    if ops == [] then open
    else if ops[0].OpenHandle? then OpenAfter(open + {Handle(ops[0].inode, next)}, next + 1, ops[1..])
    else OpenAfter(open - {Handle(ops[0].inode, ops[0].fh)}, next, ops[1..])
  }

  /** The k-th operation opens h. */
  predicate OpenedAt(next: nat, ops: seq<Op>, k: nat, h: Handle) {
    k < |ops| && ops[k] == OpenHandle(h.inode) && NextAfter(next, ops[..k]) == h.fh
  }

  predicate ReleasedIn(ops: seq<Op>, h: Handle) { Release(h.inode, h.fh) in ops }

  ghost predicate LeftOpen(next: nat, ops: seq<Op>, h: Handle) {
    exists k: nat :: OpenedAt(next, ops, k, h) && !ReleasedIn(ops[k..], h)
  }

  /** A handle is open in the end exactly if it was open, or was opened on the way, and has not been
      released since. */
  lemma {:induction false} OpenIffNotReleased(open: set<Handle>, next: nat, ops: seq<Op>, h: Handle)
    ensures h in OpenAfter(open, next, ops) <==> (h in open && !ReleasedIn(ops, h)) || LeftOpen(next, ops, h)
    decreases |ops|
  {
    if ops != [] {
      var rest := ops[1..];
      var next1 := if ops[0].OpenHandle? then next + 1 else next;
      var open1 := if ops[0].OpenHandle? then open + {Handle(ops[0].inode, next)}
                   else open - {Handle(ops[0].inode, ops[0].fh)};
      OpenIffNotReleased(open1, next1, rest, h);
      assert ops == [ops[0]] + rest;
      assert ReleasedIn(ops, h) <==> ops[0] == Release(h.inode, h.fh) || ReleasedIn(rest, h);
      LeftOpenLater(next, next1, ops, h);
    }
  }

  lemma LeftOpenLater(next: nat, next1: nat, ops: seq<Op>, h: Handle)
    requires ops != [] && next1 == if ops[0].OpenHandle? then next + 1 else next
    ensures LeftOpen(next, ops, h) <==>
            || (ops[0] == OpenHandle(h.inode) && h.fh == next && !ReleasedIn(ops, h))
            || LeftOpen(next1, ops[1..], h)
  {
    forall k: nat | k < |ops| - 1
      ensures OpenedAt(next1, ops[1..], k, h) == OpenedAt(next, ops, k + 1, h)
      ensures ops[1..][k..] == ops[k + 1..]
    {
      assert ops[..k + 1][0] == ops[0] && ops[..k + 1][1..] == ops[1..][..k];
    }
    assert ops[0..] == ops && ops[..0] == [];
    if LeftOpen(next, ops, h) {
      var k: nat :| OpenedAt(next, ops, k, h) && !ReleasedIn(ops[k..], h);
      if k > 0 {
        assert OpenedAt(next1, ops[1..], k - 1, h) && !ReleasedIn(ops[1..][k - 1..], h);
      }
    }
    if LeftOpen(next1, ops[1..], h) {
      var k: nat :| OpenedAt(next1, ops[1..], k, h) && !ReleasedIn(ops[1..][k..], h);
      assert OpenedAt(next, ops, k + 1, h) && !ReleasedIn(ops[k + 1..], h);
    }
    if ops[0] == OpenHandle(h.inode) && h.fh == next && !ReleasedIn(ops, h) {
      assert OpenedAt(next, ops, 0, h);
    }
  }
}
