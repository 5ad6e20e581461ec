/** Texts with references such as `{{ step.param }}`, as resolveRefParam of pkg/pipeline/common.go reads
    them with its regular expression and rewrites them with strings.Replace. */
module Templates {
  import opened Options

  predicate IsWord(c: char) { 'a' <= c <= 'z' || 'A' <= c <= 'Z' || '0' <= c <= '9' || c == '_' }

  /** The class \s of the expression. */
  predicate IsGap(c: char) { c == ' ' || c == '\t' || c == '\n' || c == '\r' || c == '\U{000C}' }

  predicate IsNameChar(c: char) { IsWord(c) || c == '.' }

  /** row[0] and row[2] of a match. */
  datatype Match = Match(raw: string, inner: string)

  /** Where the longest run of p-characters from i on ends. */
  function RunEnd(s: string, i: nat, p: char -> bool): (j: nat)
    requires i <= |s|
    ensures i <= j <= |s| && (forall k | i <= k < j :: p(s[k])) && (j < |s| ==> !p(s[j]))
    decreases |s| - i
  {
    if i == |s| || !p(s[i]) then i else RunEnd(s, i + 1, p)
  }

  /** A nonempty run of name characters that `word*.?word+` matches: no second dot, and none at the end. */
  predicate IsRefName(name: string) {
    && name != "" && IsWord(name[|name| - 1])
    && forall i, j | 0 <= i < j < |name| :: !(name[i] == '.' && name[j] == '.')
  }

  /** The match that begins at the first character. The classes of the expression are disjoint, so
      there is at most one. */
  function MatchAt(s: string): (m: Option<Match>)
    ensures m.Some? ==> 4 <= |m.value.raw| <= |s| && m.value.raw <= s
  {
    if |s| < 2 || s[0] != '{' || s[1] != '{' then None
    else
      var a := RunEnd(s, 2, IsGap);
      var b := RunEnd(s, a, IsNameChar);
      var c := RunEnd(s, b, IsGap);
      if a < b && !IsRefName(s[a..b]) then None
      else if c + 2 <= |s| && s[c] == '}' && s[c + 1] == '}' then Some(Match(s[..c + 2], s[a..b]))
      else None
  }

  datatype Piece = Lit(c: char) | Ref(m: Match)

  /** The text cut up by FindAllStringSubmatch: leftmost matches that do not overlap. */
  function Parse(s: string): seq<Piece>
    decreases |s|
  {
    if s == "" then []
    else
      match MatchAt(s)
      case Some(m) => [Ref(m)] + Parse(s[|m.raw|..])
      case None => [Lit(s[0])] + Parse(s[1..])
  }

  function Render(ps: seq<Piece>): string {
    if ps == [] then ""
    else (if ps[0].Lit? then [ps[0].c] else ps[0].m.raw) + Render(ps[1..])
  }

  function Refs(ps: seq<Piece>): seq<Match> {
    if ps == [] then []
    else (if ps[0].Ref? then [ps[0].m] else []) + Refs(ps[1..])
  }

  /** strings.Replace(s, raw, val, -1). */
  function ReplaceAll(s: string, raw: string, val: string): string
    requires raw != ""
    decreases |s|
  {
    if s == "" then ""
    else if raw <= s then val + ReplaceAll(s[|raw|..], raw, val)
    else [s[0]] + ReplaceAll(s[1..], raw, val)
  }

  // ---- what replacing does to the pieces ----

  function Lits(s: string): (ps: seq<Piece>)
    ensures |ps| == |s| && forall i | 0 <= i < |s| :: ps[i] == Lit(s[i])
  {
    seq(|s|, i requires 0 <= i < |s| => Lit(s[i]))
  }

  /** All the references in vals replaced at once. */
  function SubstAll(ps: seq<Piece>, vals: map<Match, string>): seq<Piece> {
    if ps == [] then []
    else (if ps[0].Ref? && ps[0].m in vals then Lits(vals[ps[0].m]) else [ps[0]]) + SubstAll(ps[1..], vals)
  }

  lemma {:induction false} RenderParse(s: string)
    ensures Render(Parse(s)) == s
    decreases |s|
  {
    if s != "" {
      match MatchAt(s)
      case Some(m) =>
        RenderParse(s[|m.raw|..]);
        assert s == m.raw + s[|m.raw|..];
      case None =>
        RenderParse(s[1..]);
        assert s == [s[0]] + s[1..];
    }
  }

  /** What the expression says of a text that begins with a match: two braces, a gap up to a, a name
      up to b, a gap up to c, two braces. */
  predicate Shape(s: string, a: nat, b: nat, c: nat) {
    && 2 <= a <= b <= c <= |s| - 2 && (a == b ==> b == c)
    && s[0] == s[1] == '{' && s[c] == s[c + 1] == '}'
    && (forall k | 2 <= k < a :: IsGap(s[k]))
    && (forall k | b <= k < c :: IsGap(s[k]))
    && (forall k | a <= k < b :: IsNameChar(s[k]))
    && (a < b ==> IsRefName(s[a..b]))
  }

  lemma ShapeMatches(s: string, a: nat, b: nat, c: nat)
    requires Shape(s, a, b, c)
    ensures MatchAt(s) == Some(Match(s[..c + 2], s[a..b]))
  {
    ShapeRuns(s, a, b, c);
  }

  lemma ShapeRuns(s: string, a: nat, b: nat, c: nat)
    requires Shape(s, a, b, c)
    ensures RunEnd(s, 2, IsGap) == a && RunEnd(s, a, IsNameChar) == b && RunEnd(s, b, IsGap) == c
  {
    assert !IsGap(s[a]) by {
      assert a < b ==> IsNameChar(s[a]);
    }
    RunEndIs(s, 2, a, IsGap);
    assert !IsNameChar(s[b]) by {
      assert b < c ==> IsGap(s[b]);
    }
    RunEndIs(s, a, b, IsNameChar);
    RunEndIs(s, b, c, IsGap);
  }

  lemma RunEndIs(s: string, i: nat, j: nat, p: char -> bool)
    requires i <= j <= |s| && (forall k | i <= k < j :: p(s[k])) && (j < |s| ==> !p(s[j]))
    ensures RunEnd(s, i, p) == j
  {
    var e := RunEnd(s, i, p);
    assert !(e < j) && !(j < e);
  }

  lemma MatchHasShape(s: string) returns (a: nat, b: nat, c: nat)
    requires MatchAt(s).Some?
    ensures Shape(s, a, b, c) && MatchAt(s).value == Match(s[..c + 2], s[a..b])
  {
    a := RunEnd(s, 2, IsGap);
    b := RunEnd(s, a, IsNameChar);
    c := RunEnd(s, b, IsGap);
  }

  lemma ShapeIsLocal(s: string, t: string, a: nat, b: nat, c: nat)
    requires Shape(s, a, b, c) && s[..c + 2] <= t
    ensures Shape(t, a, b, c) && t[..c + 2] == s[..c + 2] && t[a..b] == s[a..b]
  {
    assert forall k | 0 <= k < c + 2 :: s[k] == s[..c + 2][k] == t[k];
    assert t[a..b] == s[a..b];
  }

  /** A match is found by looking at its own characters only. */
  lemma MatchIsLocal(s: string, t: string)
    requires MatchAt(s).Some? && MatchAt(s).value.raw <= t
    ensures MatchAt(t) == MatchAt(s)
  {
    var a, b, c := MatchHasShape(s);
    ShapeIsLocal(s, t, a, b, c);
    ShapeMatches(t, a, b, c);
  }

  predicate IsMatch(m: Match) { MatchAt(m.raw) == Some(m) }

  /** Inside a match the braces only open at its very beginning. */
  lemma MatchShape(s: string)
    requires MatchAt(s).Some?
    ensures var raw := MatchAt(s).value.raw;
            raw[0] == raw[1] == '{' && forall i | 2 <= i < |raw| :: raw[i] != '{'
    ensures IsMatch(MatchAt(s).value)
  {
    MatchIsLocal(s, MatchAt(s).value.raw);
    var a, b, c := MatchHasShape(s);
    ShapeBraces(s, a, b, c);
  }

  lemma ShapeBraces(s: string, a: nat, b: nat, c: nat)
    requires Shape(s, a, b, c)
    ensures forall i | 2 <= i < c + 2 :: s[i] != '{'
  {
    forall i | 2 <= i < c + 2
      ensures s[i] != '{'
    {
      if i < a {
        assert IsGap(s[i]);
      } else if i < b {
        assert IsNameChar(s[i]);
      } else if i < c {
        assert IsGap(s[i]);
      }
    }
  }

  lemma ParseMatch(m: Match, t: string)
    requires IsMatch(m)
    ensures Parse(m.raw + t) == [Ref(m)] + Parse(t)
  {
    MatchIsLocal(m.raw, m.raw + t);
    assert (m.raw + t)[|m.raw|..] == t;
  }

  lemma NotAPrefix(s: string, raw: string)
    requires |raw| >= 2 && raw[0] == raw[1] == '{' && s != ""
    requires s[0] != '{' || (|s| > 1 && s[1] != '{')
    ensures !(raw <= s)
  {
  }

  lemma CopyOne(s: string, raw: string, val: string)
    requires |raw| >= 2 && raw[0] == raw[1] == '{' && s != ""
    requires s[0] != '{' || (|s| > 1 && s[1] != '{')
    ensures ReplaceAll(s, raw, val) == [s[0]] + ReplaceAll(s[1..], raw, val)
  {
    NotAPrefix(s, raw);
  }

  /** Where no match can begin, replacing copies the text. */
  lemma {:induction false} ReplaceCopies(u: string, t: string, raw: string, val: string)
    requires |raw| >= 2 && raw[0] == raw[1] == '{'
    requires forall i | 0 <= i < |u| && u[i] == '{' :: i + 1 < |u| && u[i + 1] != '{'
    ensures ReplaceAll(u + t, raw, val) == u + ReplaceAll(t, raw, val)
    decreases |u|
  {
    if u == "" {
      assert u + t == t;
    } else {
      CopyOne(u + t, raw, val);
      assert (u + t)[0] == u[0] && (u + t)[1..] == u[1..] + t;
      forall i | 0 <= i < |u[1..]| && u[1..][i] == '{'
        ensures i + 1 < |u[1..]| && u[1..][i + 1] != '{'
      {
        assert u[i + 1] == '{';
      }
      ReplaceCopies(u[1..], t, raw, val);
      assert u == [u[0]] + u[1..];
    }
  }

  lemma OtherMatch(r: Match, t: string, m: Match)
    requires IsMatch(r) && IsMatch(m) && r != m
    ensures !(m.raw <= r.raw + t)
  {
    if m.raw <= r.raw + t {
      MatchIsLocal(m.raw, r.raw + t);
      MatchIsLocal(r.raw, r.raw + t);
    }
  }

  /** Another match is copied as a whole. */
  lemma ReplaceCopiesMatch(r: Match, t: string, m: Match, val: string)
    requires IsMatch(r) && IsMatch(m) && r != m
    ensures ReplaceAll(r.raw + t, m.raw, val) == r.raw + ReplaceAll(t, m.raw, val)
  {
    MatchShape(m.raw);
    OtherMatch(r, t, m);
    InnerBraces(r);
    HeadAndRest(r.raw, t);
    ReplaceCopies(r.raw[1..], t, m.raw, val);
    HeadAndRest(r.raw, ReplaceAll(t, m.raw, val));
  }

  lemma InnerBraces(r: Match)
    requires IsMatch(r)
    ensures var u := r.raw[1..]; forall i | 0 <= i < |u| && u[i] == '{' :: i + 1 < |u| && u[i + 1] != '{'
  {
    MatchShape(r.raw);
  }

  lemma HeadAndRest(s: string, t: string)
    requires s != ""
    ensures s + t == [s[0]] + (s[1..] + t) && (s + t)[1..] == s[1..] + t
  {
  }

  lemma {:induction false} RenderLits(v: string, ps: seq<Piece>)
    ensures Render(Lits(v) + ps) == v + Render(ps)
  {
    if v == "" {
      assert Lits(v) + ps == ps;
    } else {
      assert (Lits(v) + ps)[0] == Lit(v[0]) && (Lits(v) + ps)[1..] == Lits(v[1..]) + ps;
      RenderLits(v[1..], ps);
      assert v == [v[0]] + v[1..];
    }
  }

  lemma ReplaceHead(m: Match, t: string, val: string)
    requires m.raw != ""
    ensures ReplaceAll(m.raw + t, m.raw, val) == val + ReplaceAll(t, m.raw, val)
  {
    assert (m.raw + t)[|m.raw|..] == t;
  }

  /** The head of a text that is a match, and the pieces of the rest. */
  lemma ReplaceAtMatch(r: Match, rest: string, m: Match, val: string)
    requires IsMatch(r) && IsMatch(m)
    requires ReplaceAll(rest, m.raw, val) == Render(SubstAll(Parse(rest), map[m := val]))
    ensures ReplaceAll(r.raw + rest, m.raw, val) == Render(SubstAll([Ref(r)] + Parse(rest), map[m := val]))
  {
    var done := SubstAll(Parse(rest), map[m := val]);
    assert ([Ref(r)] + Parse(rest))[1..] == Parse(rest);
    if r == m {
      ReplaceHead(m, rest, val);
      RenderLits(val, done);
    } else {
      ReplaceCopiesMatch(r, rest, m, val);
      assert ([Ref(r)] + done)[1..] == done;
    }
  }

  /** One strings.Replace of a reference replaces the equal references of the text and nothing else. */
  lemma {:induction false} ReplaceIsSubst(s: string, m: Match, val: string)
    requires IsMatch(m)
    ensures ReplaceAll(s, m.raw, val) == Render(SubstAll(Parse(s), map[m := val]))
    decreases |s|
  {
    if s == "" {
    } else if MatchAt(s).Some? {
      var r := MatchAt(s).value;
      var rest := s[|r.raw|..];
      assert s == r.raw + rest;
      MatchShape(s);
      ReplaceIsSubst(rest, m, val);
      ReplaceAtMatch(r, rest, m, val);
    } else {
      ReplaceIsSubst(s[1..], m, val);
      NotMatchedNotPrefix(s, m);
      var done := SubstAll(Parse(s[1..]), map[m := val]);
      assert Parse(s)[1..] == Parse(s[1..]);
      assert ([Lit(s[0])] + done)[1..] == done;
    }
  }

  lemma NotMatchedNotPrefix(s: string, m: Match)
    requires IsMatch(m) && MatchAt(s).None?
    ensures !(m.raw <= s)
  {
    if m.raw <= s {
      MatchIsLocal(m.raw, s);
    }
  }

  lemma {:induction false} RefsAreMatches(s: string)
    ensures forall m | m in Refs(Parse(s)) :: IsMatch(m)
    decreases |s|
  {
    if s != "" {
      match MatchAt(s)
      case Some(m) =>
        MatchShape(s);
        RefsAreMatches(s[|m.raw|..]);
      case None => RefsAreMatches(s[1..]);
    }
  }

  // ---- all references, one after the other ----

  /** The loop of resolveRefParam, given the value of every match. */
  function ReplaceRows(s: string, rows: seq<Match>, vals: map<Match, string>): string
    requires forall m | m in rows :: m in vals && m.raw != ""
    decreases |rows|
  {
    if rows == [] then s else ReplaceRows(ReplaceAll(s, rows[0].raw, vals[rows[0]]), rows[1..], vals)
  }

  /** No two opening braces side by side, so nowhere the beginning of a reference. */
  predicate Undoubled(s: string) { forall i | 0 <= i < |s| - 1 :: !(s[i] == '{' && s[i + 1] == '{') }

  lemma {:induction false} UndoubledHasNoRefs(s: string)
    requires Undoubled(s)
    ensures Parse(s) == Lits(s) && Refs(Parse(s)) == []
    decreases |s|
  {
    if s != "" {
      UndoubledTail(s);
      UndoubledHasNoRefs(s[1..]);
      assert MatchAt(s).None?;
      assert Lits(s) == [Lit(s[0])] + Lits(s[1..]);
    }
  }

  lemma UndoubledTail(s: string)
    requires Undoubled(s) && s != ""
    ensures Undoubled(s[1..])
  {
    forall i | 0 <= i < |s[1..]| - 1
      ensures !(s[1..][i] == '{' && s[1..][i + 1] == '{')
    {
      assert !(s[i + 1] == '{' && s[i + 2] == '{');
    }
  }

  /** Pieces that are found again in the text they make up. */
  predicate Tame(ps: seq<Piece>) {
    && (forall p | p in ps :: p.Ref? ==> IsMatch(p.m))
    && (forall i | 0 <= i < |ps| - 1 :: !(ps[i] == Lit('{') && ps[i + 1] == Lit('{')))
  }

  lemma TameTail(ps: seq<Piece>)
    requires Tame(ps) && ps != []
    ensures Tame(ps[1..])
  {
    var rest := ps[1..];
    forall i | 0 <= i < |rest| - 1
      ensures !(rest[i] == Lit('{') && rest[i + 1] == Lit('{'))
    {
      assert !(ps[i + 1] == Lit('{') && ps[i + 2] == Lit('{'));
    }
  }

  /** A character that stands before tame pieces is not the beginning of a match. */
  lemma LitIsNotMatched(c: char, rest: seq<Piece>)
    requires Tame([Lit(c)] + rest)
    ensures MatchAt([c] + Render(rest)).None?
  {
    var s := [c] + Render(rest);
    if c == '{' && rest != [] {
      var next := ([Lit(c)] + rest)[1];
      assert next == rest[0];
      if next.Ref? {
        assert next in [Lit(c)] + rest;
        MatchShape(next.m.raw);
        ThreeBraces(s);
      } else {
        assert !(([Lit(c)] + rest)[0] == Lit('{') && ([Lit(c)] + rest)[1] == Lit('{'));
      }
    }
  }

  lemma ThreeBraces(s: string)
    requires |s| >= 3 && s[0] == s[1] == s[2] == '{'
    ensures MatchAt(s).None?
  {
  }

  lemma {:induction false} TameIsParsed(ps: seq<Piece>)
    requires Tame(ps)
    ensures Parse(Render(ps)) == ps
    decreases |ps|
  {
    if ps != [] {
      var rest := ps[1..];
      TameTail(ps);
      TameIsParsed(rest);
      assert ps == [ps[0]] + rest;
      if ps[0].Ref? {
        ParseMatch(ps[0].m, Render(rest));
      } else {
        LitIsNotMatched(ps[0].c, rest);
        assert ([ps[0].c] + Render(rest))[1..] == Render(rest);
      }
    }
  }

  // ---- substituting in parts ----

  lemma {:induction false} SubstLits(v: string, vals: map<Match, string>)
    ensures SubstAll(Lits(v), vals) == Lits(v)
  {
    if v == "" {
    } else {
      assert Lits(v) == [Lit(v[0])] + Lits(v[1..]);
      SubstLits(v[1..], vals);
    }
  }

  lemma {:induction false} SubstConcat(ps: seq<Piece>, qs: seq<Piece>, vals: map<Match, string>)
    ensures SubstAll(ps + qs, vals) == SubstAll(ps, vals) + SubstAll(qs, vals)
  {
    if ps == [] {
      assert ps + qs == qs;
    } else {
      assert (ps + qs)[0] == ps[0] && (ps + qs)[1..] == ps[1..] + qs;
      SubstConcat(ps[1..], qs, vals);
    }
  }

  lemma {:induction false} SubstTwice(ps: seq<Piece>, vals: map<Match, string>, m: Match, val: string)
    requires m in vals ==> vals[m] == val
    ensures SubstAll(SubstAll(ps, vals), map[m := val]) == SubstAll(ps, vals[m := val])
  {
    if ps != [] {
      var head := if ps[0].Ref? && ps[0].m in vals then Lits(vals[ps[0].m]) else [ps[0]];
      SubstTwice(ps[1..], vals, m, val);
      SubstConcat(head, SubstAll(ps[1..], vals), map[m := val]);
      if ps[0].Ref? && ps[0].m in vals {
        SubstLits(vals[ps[0].m], map[m := val]);
      } else {
        assert [ps[0]][1..] == [];
      }
    }
  }

  /** What is left to be substituted after a part has been. */
  lemma {:induction false} SubstRest(ps: seq<Piece>, done: map<Match, string>, vals: map<Match, string>)
    requires forall m | m in done :: m in vals && vals[m] == done[m]
    ensures SubstAll(SubstAll(ps, done), vals) == SubstAll(ps, vals)
    ensures forall p | p in SubstAll(ps, done) :: p.Ref? ==> p in ps
  {
    if ps != [] {
      var head := if ps[0].Ref? && ps[0].m in done then Lits(done[ps[0].m]) else [ps[0]];
      SubstRest(ps[1..], done, vals);
      SubstConcat(head, SubstAll(ps[1..], done), vals);
      if ps[0].Ref? && ps[0].m in done {
        SubstLits(done[ps[0].m], vals);
      } else {
        assert [ps[0]][1..] == [];
      }
    }
  }

  /** Pieces are tame if what they come to has no doubled braces. */
  lemma {:induction false} UndoubledIsTame(ps: seq<Piece>, vals: map<Match, string>)
    requires forall p | p in ps && p.Ref? :: IsMatch(p.m) && p.m in vals
    requires Undoubled(Render(SubstAll(ps, vals)))
    ensures Tame(ps)
    decreases |ps|
  {
    if ps != [] {
      var rest := ps[1..];
      HeadOfRender(ps, vals);
      UndoubledIsTame(rest, vals);
      forall i | 0 <= i < |ps| - 1
        ensures !(ps[i] == Lit('{') && ps[i + 1] == Lit('{'))
      {
        if i > 0 {
          assert !(rest[i - 1] == Lit('{') && rest[i] == Lit('{'));
        }
      }
    }
  }

  lemma HeadOfRender(ps: seq<Piece>, vals: map<Match, string>)
    requires ps != [] && (ps[0].Ref? ==> ps[0].m in vals) && Undoubled(Render(SubstAll(ps, vals)))
    ensures Undoubled(Render(SubstAll(ps[1..], vals)))
    ensures |ps| > 1 ==> !(ps[0] == Lit('{') && ps[1] == Lit('{'))
  {
    RenderHead(ps, vals);
    UndoubledSuffix(if ps[0].Ref? then vals[ps[0].m] else [ps[0].c], Render(SubstAll(ps[1..], vals)));
    if |ps| > 1 && ps[0] == Lit('{') && ps[1] == Lit('{') {
      DoubledLits(ps, vals);
    }
  }

  lemma UndoubledSuffix(head: string, tail: string)
    requires Undoubled(head + tail)
    ensures Undoubled(tail)
  {
    var all := head + tail;
    forall i | 0 <= i < |tail| - 1
      ensures !(tail[i] == '{' && tail[i + 1] == '{')
    {
      var j := |head| + i;
      assert !(all[j] == '{' && all[j + 1] == '{') && all[j] == tail[i] && all[j + 1] == tail[i + 1];
    }
  }

  lemma DoubledLits(ps: seq<Piece>, vals: map<Match, string>)
    requires |ps| > 1 && ps[0] == ps[1] == Lit('{')
    ensures !Undoubled(Render(SubstAll(ps, vals)))
  {
    var all := Render(SubstAll(ps, vals));
    RenderHead(ps, vals);
    RenderHead(ps[1..], vals);
    assert all[0] == '{' && all[1] == '{';
  }

  lemma RenderHead(ps: seq<Piece>, vals: map<Match, string>)
    requires ps != [] && (ps[0].Ref? ==> ps[0].m in vals)
    ensures Render(SubstAll(ps, vals)) ==
            (if ps[0].Ref? then vals[ps[0].m] else [ps[0].c]) + Render(SubstAll(ps[1..], vals))
  {
    var tail := SubstAll(ps[1..], vals);
    if ps[0].Ref? {
      RenderLits(vals[ps[0].m], tail);
    } else {
      assert ([ps[0]] + tail)[1..] == tail;
    }
  }

  // ---- replacing in turn ----

  /** One round of the loop. */
  lemma ReplaceNext(ps: seq<Piece>, done: map<Match, string>, m: Match, vals: map<Match, string>)
    requires IsMatch(m) && m in vals && (forall p | p in ps && p.Ref? :: IsMatch(p.m) && p.m in vals)
    requires forall r | r in done :: r in vals && vals[r] == done[r]
    requires Undoubled(Render(SubstAll(ps, vals)))
    ensures ReplaceAll(Render(SubstAll(ps, done)), m.raw, vals[m]) == Render(SubstAll(ps, done[m := vals[m]]))
  {
    var qs := SubstAll(ps, done);
    SubstRest(ps, done, vals);
    UndoubledIsTame(qs, vals);
    TameIsParsed(qs);
    ReplaceIsSubst(Render(qs), m, vals[m]);
    SubstTwice(ps, done, m, vals[m]);
  }

  lemma {:induction false} RowsAreSubst(ps: seq<Piece>, done: map<Match, string>, rows: seq<Match>, vals: map<Match,
                                        string>)
    requires forall p | p in ps && p.Ref? :: IsMatch(p.m) && p.m in vals
    requires forall m | m in rows :: IsMatch(m) && m in vals
    requires forall r | r in done :: r in vals && vals[r] == done[r]
    requires Undoubled(Render(SubstAll(ps, vals)))
    ensures forall m | m in rows :: m.raw != ""
    ensures ReplaceRows(Render(SubstAll(ps, done)), rows, vals) == Render(SubstAll(ps, Filled(done, rows, vals)))
    decreases |rows|
  {
    if rows != [] {
      ReplaceNext(ps, done, rows[0], vals);
      RowsAreSubst(ps, done[rows[0] := vals[rows[0]]], rows[1..], vals);
    }
  }

  function Filled(done: map<Match, string>, rows: seq<Match>, vals: map<Match, string>): map<Match, string>
    requires forall m | m in rows :: m in vals
    decreases |rows|
  {
    if rows == [] then done else Filled(done[rows[0] := vals[rows[0]]], rows[1..], vals)
  }

  lemma {:induction false} FilledAgrees(done: map<Match, string>, rows: seq<Match>, vals: map<Match, string>)
    requires forall m | m in rows :: m in vals
    requires forall m | m in done :: m in vals && vals[m] == done[m]
    ensures var f := Filled(done, rows, vals);
            forall m | m in done || m in rows :: m in f && f[m] == vals[m]
    decreases |rows|
  {
    if rows != [] {
      FilledAgrees(done[rows[0] := vals[rows[0]]], rows[1..], vals);
    }
  }

  lemma {:induction false} SubstNothing(ps: seq<Piece>)
    ensures SubstAll(ps, map[]) == ps
  {
    if ps != [] {
      SubstNothing(ps[1..]);
    }
  }

  lemma {:induction false} SubstAgrees(ps: seq<Piece>, v: map<Match, string>, w: map<Match, string>)
    requires forall m | m in Refs(ps) :: m in v && m in w && v[m] == w[m]
    ensures SubstAll(ps, v) == SubstAll(ps, w)
  {
    if ps != [] {
      assert ps[0].Ref? ==> Refs(ps)[0] == ps[0].m;
      assert forall m | m in Refs(ps[1..]) :: m in Refs(ps);
      SubstAgrees(ps[1..], v, w);
    }
  }

  lemma {:induction false} RefPiecesAreRefs(ps: seq<Piece>)
    ensures forall p | p in ps && p.Ref? :: p.m in Refs(ps)
  {
    if ps != [] {
      RefPiecesAreRefs(ps[1..]);
      assert forall p | p in ps :: p == ps[0] || p in ps[1..];
    }
  }

  /** Replacing the matches of a text one after the other with strings.Replace gives what replacing all
      of them at once gives, whenever that has no two opening braces side by side; a lone brace in the
      text or in a value does no harm. So where the two differ, doubled braces have arisen. */
  lemma ReplacingInTurn(s: string, vals: map<Match, string>)
    requires forall m | m in Refs(Parse(s)) :: m in vals
    requires Undoubled(Render(SubstAll(Parse(s), vals)))
    ensures forall m | m in Refs(Parse(s)) :: m.raw != ""
    ensures ReplaceRows(s, Refs(Parse(s)), vals) == Render(SubstAll(Parse(s), vals))
  {
    var ps := Parse(s);
    RefsAreMatches(s);
    RefPiecesAreRefs(ps);
    SubstNothing(ps);
    RenderParse(s);
    RowsAreSubst(ps, map[], Refs(ps), vals);
    FilledAgrees(map[], Refs(ps), vals);
    SubstAgrees(ps, Filled(map[], Refs(ps), vals), vals);
  }

  lemma ParseTwo(a: Match, b: Match)
    requires IsMatch(a) && IsMatch(b)
    ensures Parse(a.raw + b.raw) == [Ref(a), Ref(b)]
  {
    ParseMatch(a, b.raw);
    ParseMatch(b, "");
    assert b.raw + "" == b.raw;
  }

  lemma ReplaceTwo(a: Match, b: Match, val: string)
    requires IsMatch(a) && IsMatch(b) && a != b
    ensures ReplaceAll(ReplaceAll(a.raw + b.raw, a.raw, b.raw), b.raw, val) == val + val
  {
    assert b.raw + "" == b.raw;
    ReplaceHead(a, b.raw, b.raw);
    ReplaceCopiesMatch(b, "", a, b.raw);
    ReplaceHead(b, b.raw, val);
    ReplaceHead(b, "", val);
  }

  lemma RowsOfTwo(s: string, a: Match, b: Match, vals: map<Match, string>)
    requires a in vals && b in vals && a.raw != "" && b.raw != ""
    ensures ReplaceRows(s, [a, b], vals) == ReplaceAll(ReplaceAll(s, a.raw, vals[a]), b.raw, vals[b])
  {
    assert [a, b][1..] == [b] && [b][1..] == [];
    var t := ReplaceAll(s, a.raw, vals[a]);
    assert ReplaceRows(t, [b], vals) == ReplaceAll(t, b.raw, vals[b]);
  }

  lemma RenderTwo(a: Match, b: Match, vals: map<Match, string>)
    requires a in vals && b in vals
    ensures Render(SubstAll([Ref(a), Ref(b)], vals)) == vals[a] + vals[b]
  {
    assert [Ref(a), Ref(b)][1..] == [Ref(b)] && [Ref(b)][1..] == [];
    assert SubstAll([Ref(b)], vals) == Lits(vals[b]) + [];
    assert SubstAll([Ref(a), Ref(b)], vals) == Lits(vals[a]) + (Lits(vals[b]) + []);
    RenderLits(vals[a], Lits(vals[b]) + []);
    RenderLits(vals[b], []);
  }

  /** A value that is itself a reference is rewritten by a later replacement: for all pairs of
      references what comes out, and that it differs from replacing both at once unless the values agree. */
  lemma ValuesWithBracesAreRewritten(a: Match, b: Match, val: string)
    requires IsMatch(a) && IsMatch(b) && a != b
    ensures ReplaceRows(a.raw + b.raw, [a, b], map[a := b.raw, b := val]) == val + val
    ensures Render(SubstAll(Parse(a.raw + b.raw), map[a := b.raw, b := val])) == b.raw + val
    ensures val + val == b.raw + val <==> val == b.raw
  {
    ParseTwo(a, b);
    ReplaceTwo(a, b, val);
    RowsOfTwo(a.raw + b.raw, a, b, map[a := b.raw, b := val]);
    RenderTwo(a, b, map[a := b.raw, b := val]);
    SameSuffix(val, b.raw, val);
  }

  lemma SameSuffix(x: string, y: string, z: string)
    ensures x + z == y + z <==> x == y
  {
    if x + z == y + z {
      assert |x| == |y|;
      assert x == (x + z)[..|x|] == (y + z)[..|y|] == y;
    }
  }

  // ---- references that are made by hand ----

  /** The reference to a name. */
  function RefTo(name: string): Match { Match("{{" + name + "}}", name) }

  lemma RefToMatches(name: string)
    requires IsRefName(name) && forall c | c in name :: IsNameChar(c)
    ensures IsMatch(RefTo(name))
  {
    var s := RefTo(name).raw;
    var b := 2 + |name|;
    assert s[2..b] == name && s[..b + 2] == s;
    assert forall k | 2 <= k < b :: s[k] == name[k - 2];
    ShapeMatches(s, 2, b, b);
  }

  /** The text between two pairs of braces. */
  function Braced(s: string): string { "{" + ("{" + (s + "}}")) }

  lemma BraceParses(s: string)
    requires |s| >= 2 && s[0] == s[1] == '{'
    ensures Refs(Parse("{" + s)) == Refs(Parse(s))
  {
    ThreeBraces("{" + s);
    assert ("{" + s)[1..] == s;
    assert ([Lit('{')] + Parse(s))[1..] == Parse(s);
  }

  lemma BraceCopied(s: string, m: Match, val: string)
    requires |s| >= 2 && s[0] == s[1] == '{' && IsMatch(m)
    ensures ReplaceAll("{" + s, m.raw, val) == "{" + ReplaceAll(s, m.raw, val)
  {
    MatchShape(m.raw);
    var t := "{" + s;
    assert t[1..] == s;
    ThirdDiffers(t, m.raw);
  }

  lemma ThirdDiffers(s: string, raw: string)
    requires |s| >= 3 && |raw| >= 3 && s[2] != raw[2]
    ensures !(raw <= s)
  {
  }

  lemma ClosedReference(m: Match, val: string)
    requires IsMatch(m)
    ensures Refs(Parse(m.raw + "}}")) == [m] && ReplaceAll(m.raw + "}}", m.raw, val) == val + "}}"
  {
    MatchShape(m.raw);
    ParseMatch(m, "}}");
    UndoubledHasNoRefs("}}");
    assert ([Ref(m)] + Parse("}}"))[1..] == Parse("}}");
    ReplaceHead(m, "}}", val);
    ReplaceCopies("}}", "", m.raw, val);
    assert "}}" + "" == "}}";
  }

  /** A reference between another pair of braces: only the inner one is a match, and what takes its
      place is then itself between braces. */
  lemma BracedReference(m: Match, val: string)
    requires IsMatch(m)
    ensures Refs(Parse(Braced(m.raw))) == [m]
    ensures ReplaceAll(Braced(m.raw), m.raw, val) == Braced(val)
  {
    MatchShape(m.raw);
    ClosedReference(m, val);
    var inner := m.raw + "}}";
    assert inner[0] == inner[1] == '{';
    BraceParses(inner);
    BraceCopied(inner, m, val);
    OneMoreBrace(inner);
    BraceParses("{" + inner);
    BraceCopied("{" + inner, m, val);
  }

  lemma OneMoreBrace(s: string)
    requires |s| >= 2 && s[0] == '{'
    ensures ("{" + s)[0] == ("{" + s)[1] == '{' && |"{" + s| >= 2
  {
  }
}
