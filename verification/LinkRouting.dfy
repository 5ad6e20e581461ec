/** GetUFS of pkg/fs/client/meta/default.go: which mounted link serves a path. Paths are clean and given
    by their components. */
module LinkRouting {
  type Path = seq<string>

  datatype Route = Default(path: Path) | Linked(key: Path, rest: Path)

  /** The prefix test is made on "/key/" and "/path": it holds for the link itself and for what lies
      below it, but below the root link "//" it never does. */
  predicate Matches(key: Path, target: Path) { key == target || (key != [] && key < target) }

  /** Links are tried in the order of the map's iteration, and the first match wins. */
  method GetUFS(links: set<Path>, target: Path) returns (r: Route)
    ensures r.Default? <==> forall key | key in links :: !Matches(key, target)
    ensures r.Default? ==> r.path == target
    ensures r.Linked? ==> r.key in links && Matches(r.key, target) && r.key + r.rest == target
    ensures (exists key :: key in links && key != [] && key <= target) ==> r.Linked?
    ensures r.Linked? && r.key == [] ==> target == []
    ensures [] in links && target == [] ==> r.Linked?
  {
    var left := links;
    while left != {}
      invariant left <= links && forall key | key in links && key !in left :: !Matches(key, target)
      decreases left
    {
      var key :| key in left;
      left := left - {key};
      if key == target {
        assert key + [] == target;
        return Linked(key, []);
      }
      if key != [] && key < target {
        assert key + target[|key|..] == target;
        return Linked(key, target[|key|..]);
      }
    }
    r := Default(target);
  }

  /** Whatever the iteration order, there is one answer. */
  ghost predicate OneAnswer(links: set<Path>, target: Path) {
    forall a, b | a in links && b in links && Matches(a, target) && Matches(b, target) :: a == b
  }

  /** No link lies below another one; the root link does not count. */
  ghost predicate NotNested(links: set<Path>) {
    forall a, b | a in links && b in links && a != [] :: !(a < b)
  }

  lemma PrefixesNest(a: Path, b: Path, target: Path)
    requires a <= target && b <= target && |a| < |b|
    ensures a < b
  {
    assert a == target[..|a|] && b == target[..|b|];
    assert b[..|a|] == a;
  }

  /** Routing does not depend on the iteration order if and only if links are not nested. */
  lemma OneAnswerIffNotNested(links: set<Path>)
    ensures (forall target :: OneAnswer(links, target)) <==> NotNested(links)
  {
    if NotNested(links) {
      forall target, a, b | a in links && b in links && Matches(a, target) && Matches(b, target)
        ensures a == b
      {
        if |a| < |b| {
          PrefixesNest(a, b, target);
        } else if |b| < |a| {
          PrefixesNest(b, a, target);
        }
      }
    }
    if forall target :: OneAnswer(links, target) {
      forall a, b | a in links && b in links && a != []
        ensures !(a < b)
      {
        if a < b {
          assert OneAnswer(links, b) && Matches(a, b) && Matches(b, b);
        }
      }
    }
  }
}
