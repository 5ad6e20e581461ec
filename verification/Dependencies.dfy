/** How the text of a step's `deps` field is read: by GetDeps of pkg/common/schema/workflow.go, which
    trims every kind of white space, and by isDepsReady of pkg/pipeline/run.go, which trims spaces. */
module Dependencies {
  /** unicode.IsSpace. */
  predicate IsSpace(c: char) {
    || c == ' ' || '\t' <= c <= '\r' || c == '\U{85}' || c == '\U{A0}' || c == '\U{1680}'
    || '\U{2000}' <= c <= '\U{200A}' || c == '\U{2028}' || c == '\U{2029}' || c == '\U{202F}'
    || c == '\U{205F}' || c == '\U{3000}'
  }

  predicate IsBlank(c: char) { c == ' ' }

  /** strings.Split(s, sep). */
  function Split(s: string, sep: char): (pieces: seq<string>)
    ensures pieces != []
  {
    if s == "" then [""]
    else
      var rest := Split(s[1..], sep);
      if s[0] == sep then [""] + rest else [[s[0]] + rest[0]] + rest[1..]
  }

  /** The pieces with the separator between them. */
  function JoinedBy(pieces: seq<string>, sep: char): string
    requires pieces != []
  {
    if |pieces| == 1 then pieces[0] else pieces[0] + [sep] + JoinedBy(pieces[1..], sep)
  }

  /** Splitting finds the pieces between the separators and loses nothing; Split is the only such way to
      cut a text, as SplitIsUnique says. */
  lemma {:induction false} SplitIs(s: string, sep: char)
    ensures JoinedBy(Split(s, sep), sep) == s
    ensures forall piece | piece in Split(s, sep) :: sep !in piece
  {
    if s != "" {
      SplitIs(s[1..], sep);
      SplitHead(s, sep);
      assert s == [s[0]] + s[1..];
    }
  }

  lemma SplitHead(s: string, sep: char)
    requires s != "" && JoinedBy(Split(s[1..], sep), sep) == s[1..]
    requires forall piece | piece in Split(s[1..], sep) :: sep !in piece
    ensures JoinedBy(Split(s, sep), sep) == [s[0]] + s[1..]
    ensures forall piece | piece in Split(s, sep) :: sep !in piece
  {
    var rest := Split(s[1..], sep);
    if s[0] == sep {
      assert ([""] + rest)[1..] == rest;
    } else {
      JoinedByHead(s[0], rest, sep);
    }
  }

  lemma JoinedByHead(c: char, pieces: seq<string>, sep: char)
    requires pieces != []
    ensures JoinedBy([[c] + pieces[0]] + pieces[1..], sep) == [c] + JoinedBy(pieces, sep)
  {
    var more := [[c] + pieces[0]] + pieces[1..];
    assert more[1..] == pieces[1..];
    if |pieces| > 1 {
      var tail := JoinedBy(pieces[1..], sep);
      assert [c] + pieces[0] + [sep] + tail == [c] + (pieces[0] + [sep] + tail);
    }
  }

  lemma {:induction false} SplitIsUnique(pieces: seq<string>, sep: char)
    requires pieces != [] && forall piece | piece in pieces :: sep !in piece
    ensures Split(JoinedBy(pieces, sep), sep) == pieces
    decreases |pieces|
  {
    assert pieces[0] in pieces;
    if |pieces| == 1 {
      SplitLastWord(pieces[0], sep);
      assert pieces == [pieces[0]];
    } else {
      SplitIsUnique(pieces[1..], sep);
      SplitWord(pieces[0], JoinedBy(pieces[1..], sep), sep);
      assert pieces == [pieces[0]] + pieces[1..];
    }
  }

  function TrimLeft(s: string, cut: char -> bool): (r: string)
    ensures |r| <= |s| && (r != "" ==> !cut(r[0]))
  {
    if s != "" && cut(s[0]) then TrimLeft(s[1..], cut) else s
  }

  function TrimRight(s: string, cut: char -> bool): (r: string)
    ensures |r| <= |s| && r <= s && (r != "" ==> !cut(r[|r| - 1]))
  {
    if s != "" && cut(s[|s| - 1]) then TrimRight(s[..|s| - 1], cut) else s
  }

  function Trim(s: string, cut: char -> bool): string { TrimRight(TrimLeft(s, cut), cut) }

  /** Trimming takes away all of what is cut at both ends, and nothing in between. */
  lemma TrimIs(s: string, cut: char -> bool) returns (i: nat, j: nat)
    ensures i <= j <= |s| && Trim(s, cut) == s[i..j] && (i < j ==> !cut(s[i]) && !cut(s[j - 1]))
    ensures forall k | 0 <= k < i || j <= k < |s| :: cut(s[k])
  {
    i := TrimLeftIs(s, cut);
    var k := TrimRightIs(s[i..], cut);
    j := i + k;
    assert s[i..][..k] == s[i..j];
    forall m | j <= m < |s|
      ensures cut(s[m])
    {
      assert s[i..][m - i] == s[m];
    }
  }

  lemma {:induction false} TrimLeftIs(s: string, cut: char -> bool) returns (i: nat)
    ensures i <= |s| && TrimLeft(s, cut) == s[i..] && (i < |s| ==> !cut(s[i]))
    ensures forall k | 0 <= k < i :: cut(s[k])
  {
    i := 0;
    if s != "" && cut(s[0]) {
      var j := TrimLeftIs(s[1..], cut);
      i := j + 1;
      forall k | 0 <= k < i
        ensures cut(s[k])
      {
        assert k > 0 ==> s[1..][k - 1] == s[k];
      }
    }
  }

  lemma {:induction false} TrimRightIs(s: string, cut: char -> bool) returns (j: nat)
    ensures j <= |s| && TrimRight(s, cut) == s[..j] && (j > 0 ==> !cut(s[j - 1]))
    ensures forall k | j <= k < |s| :: cut(s[k])
    decreases |s|
  {
    j := |s|;
    if s != "" && cut(s[|s| - 1]) {
      j := TrimRightIs(s[..|s| - 1], cut);
    }
  }

  /** The nonempty trimmed pieces, in order. */
  function Names(pieces: seq<string>, cut: char -> bool): seq<string> {
    if pieces == [] then []
    else
      var name := Trim(pieces[0], cut);
      (if name == "" then [] else [name]) + Names(pieces[1..], cut)
  }

  /** What GetDeps returns. */
  function DepNames(deps: string): seq<string> { Names(Split(deps, ','), IsSpace) }

  /** The names isDepsReady looks up. */
  function ReadyNames(deps: string): seq<string> { Names(Split(deps, ','), IsBlank) }

  method GetDeps(text: string) returns (deps: seq<string>)
    ensures deps == DepNames(text)
  {
    deps := [];
    var pieces := Split(text, ',');
    for i := 0 to |pieces|
      invariant deps == Names(pieces[..i], IsSpace)
    {
      NamesSnoc(pieces[..i], pieces[i], IsSpace);
      assert pieces[..i + 1] == pieces[..i] + [pieces[i]];
      var dryDep := Trim(pieces[i], IsSpace);
      if |dryDep| <= 0 {
        continue;
      }
      deps := deps + [dryDep];
    }
    assert pieces[..|pieces|] == pieces;
  }

  lemma {:induction false} NamesSnoc(pieces: seq<string>, last: string, cut: char -> bool)
    ensures Names(pieces + [last], cut)
         == Names(pieces, cut) + if Trim(last, cut) == "" then [] else [Trim(last, cut)]
  {
    if pieces == [] {
      assert [last][1..] == [];
    } else {
      assert (pieces + [last])[1..] == pieces[1..] + [last];
      NamesSnoc(pieces[1..], last, cut);
    }
  }

  // ---- when the two readings agree ----

  /** After trimming blanks, nothing at either end is white space of another kind. */
  predicate CleanPiece(piece: string) {
    var t := Trim(piece, IsBlank);
    t == "" || (!IsSpace(t[0]) && !IsSpace(t[|t| - 1]))
  }

  predicate CleanText(deps: string) {
    forall piece | piece in Split(deps, ',') :: CleanPiece(piece)
  }

  lemma {:induction false} LeftTwice(s: string)
    ensures TrimLeft(TrimLeft(s, IsBlank), IsSpace) == TrimLeft(s, IsSpace)
  {
    if s != "" && IsBlank(s[0]) {
      LeftTwice(s[1..]);
    }
  }

  lemma {:induction false} RightTwice(s: string)
    ensures TrimRight(TrimRight(s, IsBlank), IsSpace) == TrimRight(s, IsSpace)
  {
    if s != "" && IsBlank(s[|s| - 1]) {
      RightTwice(s[..|s| - 1]);
    }
  }

  lemma {:induction false} LeftOfPrefix(s: string)
    ensures TrimRight(TrimLeft(TrimRight(s, IsBlank), IsSpace), IsSpace) == TrimRight(TrimLeft(s, IsSpace), IsSpace)
    decreases |s|
  {
    if s == "" {
    } else if IsSpace(s[0]) {
      if TrimRight(s, IsBlank) == "" {
        AllBlank(s);
      } else {
        RightOfTail(s);
        LeftOfPrefix(s[1..]);
      }
    } else {
      RightKeepsHead(s);
      RightTwice(s);
    }
  }

  lemma {:induction false} RightKeepsHead(s: string)
    requires s != "" && !IsSpace(s[0])
    ensures TrimRight(s, IsBlank) != "" && TrimRight(s, IsBlank)[0] == s[0]
    decreases |s|
  {
    if IsBlank(s[|s| - 1]) {
      RightKeepsHead(s[..|s| - 1]);
    }
  }

  lemma {:induction false} RightOfTail(s: string)
    requires s != "" && TrimRight(s, IsBlank) != ""
    ensures TrimRight(s, IsBlank)[0] == s[0] && TrimRight(s, IsBlank)[1..] == TrimRight(s[1..], IsBlank)
    decreases |s|
  {
    if IsBlank(s[|s| - 1]) {
      RightOfTail(s[..|s| - 1]);
      if |s| > 1 {
        assert s[..|s| - 1][1..] == s[1..][..|s[1..]| - 1];
      }
    }
  }

  lemma {:induction false} AllBlank(s: string)
    requires TrimRight(s, IsBlank) == ""
    ensures TrimRight(TrimLeft(s, IsSpace), IsSpace) == ""
    decreases |s|
  {
    if s != "" {
      AllBlankFrom(s);
      var l := TrimLeft(s, IsSpace);
      LeftIsSuffix(s);
    }
  }

  lemma {:induction false} AllBlankFrom(s: string)
    requires TrimRight(s, IsBlank) == ""
    ensures forall i | 0 <= i < |s| :: IsBlank(s[i])
    decreases |s|
  {
    if s != "" {
      AllBlankFrom(s[..|s| - 1]);
      assert s == s[..|s| - 1] + [s[|s| - 1]];
    }
  }

  lemma {:induction false} LeftIsSuffix(s: string)
    requires forall i | 0 <= i < |s| :: IsBlank(s[i])
    ensures TrimLeft(s, IsSpace) == ""
    decreases |s|
  {
    if s != "" {
      LeftIsSuffix(s[1..]);
    }
  }

  /** Trimming blanks first makes no difference to trimming all white space. */
  lemma TrimTwice(s: string)
    ensures Trim(Trim(s, IsBlank), IsSpace) == Trim(s, IsSpace)
  {
    LeftOfPrefix(TrimLeft(s, IsBlank));
    LeftTwice(s);
  }

  lemma PieceReadings(piece: string)
    ensures |Trim(piece, IsSpace)| <= |Trim(piece, IsBlank)|
    ensures Trim(piece, IsSpace) == Trim(piece, IsBlank) <==> CleanPiece(piece)
    ensures !CleanPiece(piece) ==> |Trim(piece, IsSpace)| < |Trim(piece, IsBlank)|
  {
    TrimTwice(piece);
    var t := Trim(piece, IsBlank);
    if CleanPiece(piece) {
      assert TrimLeft(t, IsSpace) == t;
    } else if IsSpace(t[0]) {
      assert |TrimLeft(t, IsSpace)| < |t|;
    } else {
      assert TrimLeft(t, IsSpace) == t;
    }
  }

  function Letters(names: seq<string>): nat {
    if names == [] then 0 else |names[0]| + Letters(names[1..])
  }

  lemma {:induction false} LettersLost(pieces: seq<string>)
    ensures Letters(Names(pieces, IsSpace)) <= Letters(Names(pieces, IsBlank))
    ensures (exists piece | piece in pieces :: !CleanPiece(piece)) ==>
              Letters(Names(pieces, IsSpace)) < Letters(Names(pieces, IsBlank))
    ensures (forall piece | piece in pieces :: CleanPiece(piece)) ==>
              Names(pieces, IsSpace) == Names(pieces, IsBlank)
  {
    if pieces != [] {
      PieceReadings(pieces[0]);
      LettersLost(pieces[1..]);
      LettersOfHead(pieces, IsSpace);
      LettersOfHead(pieces, IsBlank);
      assert pieces[0] in pieces && forall piece | piece in pieces :: piece == pieces[0] || piece in pieces[1..];
    }
  }

  lemma LettersOfHead(pieces: seq<string>, cut: char -> bool)
    requires pieces != []
    ensures Letters(Names(pieces, cut)) == |Trim(pieces[0], cut)| + Letters(Names(pieces[1..], cut))
  {
    var name := Trim(pieces[0], cut);
    if name == "" {
      assert [] + Names(pieces[1..], cut) == Names(pieces[1..], cut);
    } else {
      assert ([name] + Names(pieces[1..], cut))[1..] == Names(pieces[1..], cut);
    }
  }

  /** The event loop asks after exactly the dependencies the sort knows, if and only if no piece of the
      text has, inside its blanks, white space of another kind at either end. */
  lemma ReadingsAgreeIff(deps: string)
    ensures DepNames(deps) == ReadyNames(deps) <==> CleanText(deps)
  {
    LettersLost(Split(deps, ','));
  }

  lemma TabsSplit()
    ensures Split("a,\tb", ',') == ["a", "\tb"]
  {
    assert Split("", ',') == [""] + [];
    SplitLetter('b', "", "", []);
    assert ['b'] + "" == "b" && ["b"] + [] == ["b"];
    SplitLetter('\t', "b", "b", []);
    assert ['\t'] + "b" == "\tb" && ["\tb"] + [] == ["\tb"];
    assert ",\tb"[1..] == "\tb";
    assert Split(",\tb", ',') == [""] + ["\tb"];
    SplitLetter('a', ",\tb", "", ["\tb"]);
    assert ['a'] + "" == "a" && ['a'] + ",\tb" == "a,\tb";
  }

  /** A tab is such white space: the loop would look up a step that does not exist. */
  lemma TabsConfuse()
    ensures DepNames("a,\tb") == ["a", "b"] && ReadyNames("a,\tb") == ["a", "\tb"]
  {
    TabsSplit();
    TrimsToItself("a", IsSpace);
    TrimsToItself("a", IsBlank);
    TrimsToItself("\tb", IsBlank);
    assert "\tb"[1..] == "b";
    assert TrimLeft("\tb", IsSpace) == TrimLeft("b", IsSpace);
    TrimsToItself("b", IsSpace);
    assert ["a", "\tb"][1..] == ["\tb"] && ["\tb"][1..] == [];
    assert Names(["\tb"], IsSpace) == ["b"] && Names(["\tb"], IsBlank) == ["\tb"];
  }

  lemma SplitLetter(c: char, s: string, first: string, rest: seq<string>)
    requires c != ',' && Split(s, ',') == [first] + rest
    ensures Split([c] + s, ',') == [[c] + first] + rest
  {
    assert ([c] + s)[1..] == s;
    assert ([first] + rest)[1..] == rest;
  }

  lemma TrimsToItself(s: string, cut: char -> bool)
    requires s != "" && !cut(s[0]) && !cut(s[|s| - 1])
    ensures Trim(s, cut) == s
  {
  }

  predicate AllSpace(piece: string) { forall i | 0 <= i < |piece| :: IsSpace(piece[i]) }

  lemma {:induction false} BlanksNameNothing(pieces: seq<string>)
    requires forall piece | piece in pieces :: AllSpace(piece)
    ensures Names(pieces, IsSpace) == []
  {
    if pieces != [] {
      var i, j := TrimIs(pieces[0], IsSpace);
      assert AllSpace(pieces[0]);
      BlanksNameNothing(pieces[1..]);
    }
  }

  lemma {:induction false} PiecesAreBlank(s: string)
    requires forall i | 0 <= i < |s| :: s[i] == ',' || IsSpace(s[i])
    ensures forall piece | piece in Split(s, ',') :: AllSpace(piece)
  {
    if s != "" {
      PiecesAreBlank(s[1..]);
      var rest := Split(s[1..], ',');
      assert rest[0] in rest && AllSpace(rest[0]);
      if s[0] != ',' {
        assert AllSpace([s[0]] + rest[0]);
      }
      forall piece | piece in Split(s, ',')
        ensures AllSpace(piece)
      {
        assert piece == "" || (s[0] != ',' && piece == [s[0]] + rest[0]) || piece in rest;
      }
    }
  }

  /** A text of commas and white space names nothing. */
  lemma BlankTextNamesNothing(s: string)
    requires forall i | 0 <= i < |s| :: s[i] == ',' || IsSpace(s[i])
    ensures DepNames(s) == []
  {
    PiecesAreBlank(s);
    BlanksNameNothing(Split(s, ','));
  }

  // ---- a list of names is read back ----

  lemma {:induction false} SplitWord(word: string, rest: string, sep: char)
    requires sep !in word
    ensures Split(word + [sep] + rest, sep) == [word] + Split(rest, sep)
    decreases |word|
  {
    var s := word + [sep] + rest;
    if word == "" {
      assert s[1..] == rest;
    } else {
      assert s[0] == word[0] && s[1..] == word[1..] + [sep] + rest;
      SplitWord(word[1..], rest, sep);
      assert [word[0]] + word[1..] == word;
    }
  }

  lemma {:induction false} SplitLastWord(word: string, sep: char)
    requires sep !in word
    ensures Split(word, sep) == [word]
    decreases |word|
  {
    if word != "" {
      SplitLastWord(word[1..], sep);
      assert [word[0]] + word[1..] == word;
    }
  }

  /** A name that survives being written into a list. */
  predicate IsListable(name: string, cut: char -> bool) {
    name != "" && ',' !in name && !cut(name[0]) && !cut(name[|name| - 1])
  }

  /** The names with a comma and a space between them. */
  function Listed(names: seq<string>): string {
    if names == [] then ""
    else if |names| == 1 then names[0]
    else names[0] + ", " + Listed(names[1..])
  }

  lemma SpacedTrims(name: string, cut: char -> bool)
    requires IsListable(name, cut) && cut(' ')
    ensures Trim(name, cut) == name && Trim(" " + name, cut) == name
  {
    TrimsToItself(name, cut);
    assert (" " + name)[1..] == name;
  }

  /** Read on its own and after the blank that follows a comma. */
  ghost predicate IsReadBack(names: seq<string>, cut: char -> bool) {
    && Names(Split(Listed(names), ','), cut) == names
    && Names(Split(" " + Listed(names), ','), cut) == names
  }

  lemma {:induction false} ListedIsRead(names: seq<string>, cut: char -> bool)
    requires cut(' ') && names != [] && forall n | n in names :: IsListable(n, cut)
    ensures IsReadBack(names, cut)
    decreases |names|
  {
    assert IsListable(names[0], cut);
    if |names| == 1 {
      OneIsRead(names[0], cut);
      assert names == [names[0]];
    } else {
      ListedIsRead(names[1..], cut);
      MoreIsRead(names, cut);
    }
  }

  lemma OneIsRead(name: string, cut: char -> bool)
    requires cut(' ') && IsListable(name, cut)
    ensures IsReadBack([name], cut)
  {
    SpacedTrims(name, cut);
    SplitLastWord(name, ',');
    SplitLastWord(" " + name, ',');
    NamesOfOne(name, cut);
    NamesOfOne(" " + name, cut);
  }

  lemma MoreIsRead(names: seq<string>, cut: char -> bool)
    requires cut(' ') && |names| > 1 && IsListable(names[0], cut) && IsReadBack(names[1..], cut)
    ensures IsReadBack(names, cut)
  {
    var rest := " " + Listed(names[1..]);
    SpacedTrims(names[0], cut);
    ListedParts(names);
    ReadFirst(names[0], rest, cut);
    ReadFirst(" " + names[0], rest, cut);
    assert [names[0]] + names[1..] == names;
  }

  lemma ListedParts(names: seq<string>)
    requires |names| > 1
    ensures Listed(names) == names[0] + "," + (" " + Listed(names[1..]))
    ensures " " + Listed(names) == (" " + names[0]) + "," + (" " + Listed(names[1..]))
  {
    CommaAndBlank(names[0], Listed(names[1..]));
  }

  lemma CommaAndBlank(head: string, tail: string)
    ensures head + ", " + tail == head + "," + (" " + tail)
    ensures " " + (head + ", " + tail) == (" " + head) + "," + (" " + tail)
  {
    var listed := head + ", " + tail;
    assert listed == head + "," + (" " + tail);
    assert " " + listed == (" " + head) + "," + (" " + tail);
  }

  lemma ReadFirst(piece: string, rest: string, cut: char -> bool)
    requires ',' !in piece && Trim(piece, cut) != ""
    ensures Names(Split(piece + "," + rest, ','), cut) == [Trim(piece, cut)] + Names(Split(rest, ','), cut)
  {
    SplitWord(piece, rest, ',');
    NamesOfMore(piece, Split(rest, ','), cut);
  }

  lemma NamesOfOne(piece: string, cut: char -> bool)
    requires Trim(piece, cut) != ""
    ensures Names([piece], cut) == [Trim(piece, cut)]
  {
    assert [piece][1..] == [];
  }

  lemma NamesOfMore(piece: string, rest: seq<string>, cut: char -> bool)
    requires Trim(piece, cut) != ""
    ensures Names([piece] + rest, cut) == [Trim(piece, cut)] + Names(rest, cut)
  {
    assert ([piece] + rest)[1..] == rest;
  }

  /** Both readings give back a list of names that hold no comma and neither begin nor end with white
      space. */
  lemma ListedNamesAreRead(names: seq<string>)
    requires forall n | n in names :: IsListable(n, IsSpace)
    ensures DepNames(Listed(names)) == names && ReadyNames(Listed(names)) == names
  {
    if names == [] {
      assert Split("", ',') == [""];
    } else {
      ListedIsRead(names, IsSpace);
      forall n | n in names
        ensures IsListable(n, IsBlank)
      {
        assert IsListable(n, IsSpace);
      }
      ListedIsRead(names, IsBlank);
    }
  }
}
