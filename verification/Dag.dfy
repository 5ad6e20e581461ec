/** The graph analysis of pkg/pipeline/workflow.go: topologicalSort and recursiveGetRunSteps, with the
    iteration order of Go maps left open. */
module Dag {
  import opened Dependencies

  type Name = string
  type Graph = map<Name, seq<Name>>

  datatype SortResult = Sorted(order: seq<Name>) | NotAcyclic

  /** The graph that topologicalSort builds: a step without text has no parents, and a step whose text
      holds no name is left out altogether. */
  function Unsorted(deps: map<Name, string>): Graph {
    map n | n in deps && (deps[n] == "" || DepNames(deps[n]) != []) ::
      if deps[n] == "" then [] else DepNames(deps[n])
  }

  // ---- what the sort is to find out ----

  /** walk[i] lists walk[i + 1] among its dependencies, and all of them are keys. */
  predicate IsWalk(g: Graph, walk: seq<Name>) {
    && (forall i | 0 <= i < |walk| :: walk[i] in g)
    && (forall i | 0 <= i < |walk| - 1 :: walk[i + 1] in g[walk[i]])
  }

  ghost predicate Cyclic(g: Graph) {
    exists walk :: IsWalk(g, walk) && |walk| >= 2 && walk[0] == walk[|walk| - 1]
  }

  /** Every key once, after all those of its dependencies that are keys. */
  ghost predicate TopoOrder(g: Graph, order: seq<Name>) {
    && Distinct(order)
    && (forall n :: n in order <==> n in g)
    && (forall i, p | 0 <= i < |order| && p in g[order[i]] && p in g :: p in order[..i])
  }

  ghost predicate Distinct(s: seq<Name>) {
    forall i, j :: 0 <= i < j < |s| ==> s[i] != s[j]
  }

  // ---- an order rules out cycles ----

  lemma {:induction false} WalksDescend(g: Graph, order: seq<Name>, walk: seq<Name>, i: nat, j: nat)
    requires TopoOrder(g, order) && IsWalk(g, walk) && |walk| >= 2
    requires i < |order| && j < |order| && order[i] == walk[0] && order[j] == walk[|walk| - 1]
    ensures j < i
    decreases |walk|
  {
    assert walk[1] in g[order[i]] && walk[1] in order[..i];
    if |walk| > 2 {
      var k :| 0 <= k < i && order[k] == walk[1];
      WalksDescend(g, order, walk[1..], k, j);
    }
  }

  lemma OrderedIsAcyclic(g: Graph, order: seq<Name>)
    requires TopoOrder(g, order)
    ensures !Cyclic(g)
  {
    if Cyclic(g) {
      var walk :| IsWalk(g, walk) && |walk| >= 2 && walk[0] == walk[|walk| - 1];
      assert walk[0] in order;
      var i :| 0 <= i < |order| && order[i] == walk[0];
      WalksDescend(g, order, walk, i, i);
    }
  }

  // ---- being stuck exposes a cycle ----

  /** Every member still waits for another member. */
  ghost predicate AllWait(g: Graph, s: set<Name>) {
    s <= g.Keys && forall n {:trigger Waits(g, s, n)} | n in s :: Waits(g, s, n)
  }

  ghost predicate Waits(g: Graph, s: set<Name>, n: Name)
    requires n in g
  {
    exists p :: p in g[n] && p in s
  }

  lemma {:induction false} LongWalk(g: Graph, s: set<Name>, start: Name, len: nat) returns (walk: seq<Name>)
    requires AllWait(g, s) && start in s
    ensures |walk| == len + 1 && IsWalk(g, walk) && walk[0] == start && forall n | n in walk :: n in s
    decreases len
  {
    if len == 0 {
      walk := [start];
    } else {
      assert Waits(g, s, start);
      var p :| p in g[start] && p in s;
      var rest := LongWalk(g, s, p, len - 1);
      walk := [start] + rest;
    }
  }

  lemma {:induction false} DistinctFits(walk: seq<Name>, s: set<Name>)
    requires Distinct(walk) && forall n | n in walk :: n in s
    ensures |walk| <= |s|
    decreases |walk|
  {
    if walk != [] {
      var rest := walk[1..];
      assert Distinct(rest);
      assert forall n | n in rest :: n in s - {walk[0]};
      DistinctFits(rest, s - {walk[0]});
    }
  }

  lemma StuckIsCyclic(g: Graph, s: set<Name>)
    requires AllWait(g, s) && s != {}
    ensures Cyclic(g)
  {
    var start :| start in s;
    var walk := LongWalk(g, s, start, |s|);
    if Distinct(walk) {
      DistinctFits(walk, s);
    } else {
      RepeatIsCycle(g, walk);
    }
  }

  lemma RepeatIsCycle(g: Graph, walk: seq<Name>)
    requires IsWalk(g, walk) && !Distinct(walk)
    ensures Cyclic(g)
  {
    var i, j :| 0 <= i < j < |walk| && walk[i] == walk[j];
    var loop := walk[i..j + 1];
    assert IsWalk(g, loop) && loop[0] == loop[|loop| - 1];
  }

  // ---- what the sort is given ----

  /** A step that lists its dependencies waits for just these. */
  lemma ListedStepWaits(deps: map<Name, string>, n: Name, names: seq<Name>)
    requires n in deps && deps[n] == Listed(names) && forall d | d in names :: IsListable(d, IsSpace)
    ensures n in Unsorted(deps) && Unsorted(deps)[n] == names
  {
    ListedNamesAreRead(names);
    if names != [] {
      assert IsListable(names[0], IsSpace);
    }
  }

  /** A step whose text is not empty but names nothing is left out of the sort altogether. */
  lemma BlankStepIsLeftOut(deps: map<Name, string>, n: Name)
    requires n in deps && deps[n] != ""
    requires forall i | 0 <= i < |deps[n]| :: deps[n][i] == ',' || IsSpace(deps[n][i])
    ensures n !in Unsorted(deps)
  {
    BlankTextNamesNothing(deps[n]);
  }

  // ---- topologicalSort ----

  method BuildUnsorted(entrypoints: map<Name, string>) returns (unsorted: Graph)
    ensures unsorted == Unsorted(entrypoints)
  {
    unsorted := map[];
    var rest := entrypoints.Keys;
    while rest != {}
      invariant rest <= entrypoints.Keys
      invariant unsorted.Keys == Unsorted(entrypoints).Keys - rest
      invariant forall n | n in unsorted :: unsorted[n] == Unsorted(entrypoints)[n]
      decreases rest
    {
      var name :| name in rest;
      rest := rest - {name};
      if |entrypoints[name]| == 0 {
        unsorted := unsorted[name := []];
        continue;
      }
      var deps := GetDeps(entrypoints[name]);
      unsorted := AppendDeps(unsorted, name, deps);
    }
  }

  method AppendDeps(before: Graph, name: Name, deps: seq<Name>) returns (unsorted: Graph)
    requires name !in before
    ensures unsorted == if deps == [] then before else before[name := deps]
  {
    unsorted := before;
    for i := 0 to |deps|
      invariant i == 0 ==> unsorted == before
      invariant i > 0 ==> name in unsorted && unsorted[name] == deps[..i] && unsorted - {name} == before
    {
      assert deps[..i + 1] == deps[..i] + [deps[i]];
      ghost var was := unsorted;
      if name in unsorted {
        unsorted := unsorted[name := unsorted[name] + [deps[i]]];
      } else {
        unsorted := unsorted[name := [deps[i]]];
      }
      assert unsorted - {name} == was - {name};
      assert before - {name} == before;
    }
    assert deps[..|deps|] == deps;
    if deps != [] {
      assert unsorted == (unsorted - {name})[name := deps];
    }
  }

  /** What is left after `order` has been taken out. */
  ghost predicate Remaining(g: Graph, order: seq<Name>, unsorted: Graph) {
    && Distinct(order)
    && (forall n :: n in g <==> n in order || n in unsorted)
    && (forall n | n in unsorted :: n in g && n !in order && unsorted[n] == g[n])
    && (forall i, p | 0 <= i < |order| && order[i] in g && p in g[order[i]] && p in g :: p in order[..i])
  }

  lemma TakeOneOut(g: Graph, order: seq<Name>, unsorted: Graph, name: Name)
    requires Remaining(g, order, unsorted) && name in unsorted
    requires forall p | p in unsorted[name] :: p !in unsorted
    ensures Remaining(g, order + [name], unsorted - {name})
  {
    var longer := order + [name];
    forall i, p | 0 <= i < |longer| && longer[i] in g && p in g[longer[i]] && p in g
      ensures p in longer[..i]
    {
      if i < |order| {
        assert longer[i] == order[i] && longer[..i] == order[..i];
      } else {
        assert longer[..i] == order;
      }
    }
  }

  method HasParentIn(parents: seq<Name>, unsorted: Graph) returns (sorted: bool)
    ensures sorted <==> forall p | p in parents :: p !in unsorted
  {
    sorted := true;
    for i := 0 to |parents|
      invariant sorted && forall p | p in parents[..i] :: p !in unsorted
    {
      assert parents[..i + 1] == parents[..i] + [parents[i]];
      if parents[i] in unsorted {
        sorted := false;
        assert parents[i] in parents;
        break;
      }
    }
    assert sorted ==> parents[..|parents|] == parents;
  }

  /** One pass of `for name, parents := range unsorted`. A key deleted on the way has already been
      visited, so every key the pass began with is visited once, in any order. */
  method Pass(ghost g: Graph, order0: seq<Name>, unsorted0: Graph)
      returns (acyclic: bool, order: seq<Name>, unsorted: Graph)
    requires Remaining(g, order0, unsorted0)
    ensures Remaining(g, order, unsorted)
    ensures acyclic ==> |unsorted| < |unsorted0|
    ensures !acyclic ==> unsorted == unsorted0 && order == order0 && AllWait(unsorted0, unsorted0.Keys)
  {
    acyclic, order, unsorted := false, order0, unsorted0;
    var todo := unsorted0.Keys;
    while todo != {}
      invariant Remaining(g, order, unsorted) && todo <= unsorted.Keys
      invariant if acyclic then |unsorted| < |unsorted0| else unsorted == unsorted0 && order == order0
      invariant !acyclic ==>
                  forall n {:trigger Waits(unsorted, unsorted.Keys, n)} | n in unsorted && n !in todo ::
                    Waits(unsorted, unsorted.Keys, n)
      decreases todo
    {
      var name :| name in todo;
      todo := todo - {name};
      var sorted := HasParentIn(unsorted[name], unsorted);
      if sorted {
        TakeOneOut(g, order, unsorted, name);
        SmallerMap(unsorted, name);
        acyclic := true;
        unsorted := unsorted - {name};
        order := order + [name];
      }
    }
  }

  lemma SmallerMap(m: Graph, n: Name)
    requires n in m
    ensures |m - {n}| == |m| - 1
  {
    assert (m - {n}).Keys == m.Keys - {n};
    assert |m.Keys| == |m| && |(m - {n}).Keys| == |m - {n}|;
  }

  lemma WaitingInPart(g: Graph, order: seq<Name>, unsorted: Graph)
    requires Remaining(g, order, unsorted) && AllWait(unsorted, unsorted.Keys)
    ensures AllWait(g, unsorted.Keys)
  {
    forall n | n in unsorted
      ensures Waits(g, unsorted.Keys, n)
    {
      assert Waits(unsorted, unsorted.Keys, n);
      var p :| p in unsorted[n] && p in unsorted.Keys;
      assert p in g[n];
    }
  }

  /** Succeeds exactly on acyclic graphs, and then returns a topological order of all keys. */
  method TopologicalSort(entrypoints: map<Name, string>) returns (r: SortResult)
    ensures r.Sorted? <==> !Cyclic(Unsorted(entrypoints))
    ensures r.Sorted? ==> TopoOrder(Unsorted(entrypoints), r.order)
  {
    ghost var g := Unsorted(entrypoints);
    var sortedSteps: seq<Name> := [];
    var unsorted := BuildUnsorted(entrypoints);
    while |unsorted| != 0
      invariant Remaining(g, sortedSteps, unsorted)
      decreases |unsorted|
    {
      var acyclic;
      acyclic, sortedSteps, unsorted := Pass(g, sortedSteps, unsorted);
      if !acyclic {
        WaitingInPart(g, sortedSteps, unsorted);
        StuckIsCyclic(g, unsorted.Keys);
        return NotAcyclic;
      }
    }
    OrderedIsAcyclic(g, sortedSteps);
    r := Sorted(sortedSteps);
  }

  // ---- recursiveGetRunSteps ----

  /** Everything known that a member depends on is a member. */
  ghost predicate Closed(entryPoints: map<Name, string>, s: set<Name>) {
    NewClosed(entryPoints, {}, s)
  }

  /** Everything known that a member outside `was` depends on is a member. */
  ghost predicate NewClosed(entryPoints: map<Name, string>, was: set<Name>, s: set<Name>) {
    forall n, d | n in s && n !in was && n in entryPoints && d in DepNames(entryPoints[n]) && d in entryPoints :: d in s
  }

  ghost predicate HasRoots(entryPoints: map<Name, string>, roots: seq<Name>, t: set<Name>) {
    forall d | d in roots && d in entryPoints :: d in t
  }

  /** No more was added to `was` than every closed set around it and the roots must hold. */
  ghost predicate Least(entryPoints: map<Name, string>, was: set<Name>, roots: seq<Name>, s: set<Name>) {
    forall t: set<Name> {:trigger Closed(entryPoints, t)} ::
      Closed(entryPoints, t) && was <= t && HasRoots(entryPoints, roots, t) ==> s <= t
  }

  /** What a visit of the roots adds to `was`: the least closed set with the roots in it. */
  ghost predicate Reached(entryPoints: map<Name, string>, was: set<Name>, roots: seq<Name>, s: set<Name>) {
    && was <= s
    && HasRoots(entryPoints, roots, s)
    && NewClosed(entryPoints, was, s)
    && Least(entryPoints, was, roots, s)
  }

  lemma ReachedBoth(entryPoints: map<Name, string>, was: set<Name>, ds: seq<Name>, d: Name, mid: set<Name>,
                    s: set<Name>)
    requires Reached(entryPoints, was, ds, mid) && Reached(entryPoints, mid, [d], s)
    ensures Reached(entryPoints, was, ds + [d], s)
  {
    assert d in [d];
    forall t: set<Name> | Closed(entryPoints, t) && was <= t && HasRoots(entryPoints, ds + [d], t)
      ensures s <= t
    {
      assert HasRoots(entryPoints, ds, t) && HasRoots(entryPoints, [d], t);
    }
  }

  lemma ReachedAlready(entryPoints: map<Name, string>, was: set<Name>, roots: seq<Name>)
    requires HasRoots(entryPoints, roots, was)
    ensures Reached(entryPoints, was, roots, was)
  {
  }

  lemma ReachedEntry(entryPoints: map<Name, string>, was: set<Name>, entry: Name, s: set<Name>)
    requires entry in entryPoints && Reached(entryPoints, was + {entry}, DepNames(entryPoints[entry]), s)
    ensures Reached(entryPoints, was, [entry], s)
  {
    assert HasRoots(entryPoints, [entry], s);
    forall t: set<Name> | Closed(entryPoints, t) && was <= t && HasRoots(entryPoints, [entry], t)
      ensures s <= t
    {
      assert entry in [entry];
      assert HasRoots(entryPoints, DepNames(entryPoints[entry]), t);
    }
  }

  class RunSteps {
    const entryPoints: map<Name, string>
    var steps: map<Name, string>

    constructor (entryPoints: map<Name, string>)
      ensures this.entryPoints == entryPoints && steps == map[]
    {
      this.entryPoints := entryPoints;
      steps := map[];
    }

    ghost predicate Faithful()
      reads this
    {
      forall n | n in steps :: n in entryPoints && steps[n] == entryPoints[n]
    }

    /** Adds the least set that holds entry and is closed; terminates on cyclic graphs as well. */
    method RecursiveGetRunSteps(entry: Name)
      requires Faithful()
      modifies this
      ensures Faithful() && Reached(entryPoints, old(steps.Keys), [entry], steps.Keys)
      decreases |entryPoints.Keys - steps.Keys|, 0
    {
      ghost var was := steps.Keys;
      if entry in steps {
        ReachedAlready(entryPoints, was, [entry]);
        return;
      }
      if entry in entryPoints {
        steps := steps[entry := entryPoints[entry]];
        assert steps.Keys == was + {entry} && entry in entryPoints.Keys - was;
        Shrinks(entryPoints.Keys - steps.Keys, entryPoints.Keys - was);
        var deps := GetDeps(entryPoints[entry]);
        GetRunStepsOfAll(deps);
        ReachedEntry(entryPoints, was, entry, steps.Keys);
      } else {
        ReachedAlready(entryPoints, was, [entry]);
      }
    }

    /** The loop over an entry's dependencies. */
    method GetRunStepsOfAll(deps: seq<Name>)
      requires Faithful()
      modifies this
      ensures Faithful() && Reached(entryPoints, old(steps.Keys), deps, steps.Keys)
      decreases |entryPoints.Keys - steps.Keys|, 2
    {
      ghost var was := steps.Keys;
      ReachedAlready(entryPoints, was, []);
      for i := 0 to |deps|
        invariant Faithful() && Reached(entryPoints, was, deps[..i], steps.Keys)
      {
        GetRunStepsOfOne(deps, i, was);
      }
      assert deps[..|deps|] == deps;
    }

    method GetRunStepsOfOne(deps: seq<Name>, i: nat, ghost was: set<Name>)
      requires Faithful() && i < |deps| && Reached(entryPoints, was, deps[..i], steps.Keys)
      modifies this
      ensures Faithful() && Reached(entryPoints, was, deps[..i + 1], steps.Keys)
      decreases |entryPoints.Keys - was|, 1
    {
      ghost var middle := steps.Keys;
      NoLarger(entryPoints.Keys - middle, entryPoints.Keys - was);
      RecursiveGetRunSteps(deps[i]);
      ReachedBoth(entryPoints, was, deps[..i], deps[i], middle, steps.Keys);
      assert deps[..i + 1] == deps[..i] + [deps[i]];
    }
  }

  lemma Shrinks(a: set<Name>, b: set<Name>)
    requires a < b
    ensures |a| < |b|
  {
    assert b == a + (b - a);
  }

  lemma NoLarger(a: set<Name>, b: set<Name>)
    requires a <= b
    ensures |a| <= |b|
  {
    assert b == a + (b - a);
  }

  /** getRunSteps: all entry points without an entry, else what the entry needs. */
  method GetRunSteps(entryPoints: map<Name, string>, entry: Name) returns (runSteps: map<Name, string>)
    ensures forall n | n in runSteps :: n in entryPoints && runSteps[n] == entryPoints[n]
    ensures entry == "" ==> runSteps == entryPoints
    ensures entry != "" ==> Closed(entryPoints, runSteps.Keys)
    ensures entry != "" && entry in entryPoints ==> entry in runSteps
    ensures entry != "" ==> forall t: set<Name> | Closed(entryPoints, t) && entry in t :: runSteps.Keys <= t
  {
    if entry == "" {
      return entryPoints;
    }
    var run := new RunSteps(entryPoints);
    run.RecursiveGetRunSteps(entry);
    runSteps := run.steps;
    assert entry in [entry];
    forall t: set<Name> | Closed(entryPoints, t) && entry in t
      ensures runSteps.Keys <= t
    {
      assert HasRoots(entryPoints, [entry], t);
    }
  }
}
