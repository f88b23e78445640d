/** Whether the order of provisional entries shows in the rewritten Dart wiring. */
module DartOrder {
  import opened Wrappers
  import opened Strings
  import opened DartWiring
  import opened DartIdempotence

  // ---------- What does not show ----------

  lemma {:induction false} ParsedPathsAreTheTexts(p: Parser, lines: seq<string>)
    requires ParseLines(p, lines).Ok?
    ensures ParseLines(p, lines).value.paths == InsertAll(p.paths, PathTexts(lines))
    decreases |lines|
  {
    if lines != [] {
      var next := ParseLine(p, lines[0]).value;
      ParsedPathsAreTheTexts(next, lines[1..]);
      var here, later := PathOf(lines[0]), PathTexts(lines[1..]);
      if here == [] {
        assert here + later == later;
      } else {
        assert (here + later)[1..] == later;
      }
    }
  }

  /** No two texts spell the same path differently. */
  ghost predicate OneSpelling(texts: seq<string>) {
    forall i, j :: 0 <= i < |texts| && 0 <= j < |texts| && Components(texts[i]) == Components(texts[j]) ==>
      texts[i] == texts[j]
  }

  /**
   Reordering entries, renaming keys, repeating paths, or switching between the
   fragment and the document form does not change what an accepted file means,
   as long as no path is spelled in two ways.
   */
  lemma OrderAndKeysDoNotMatter(first: string, second: string)
    requires Parse(first).Ok? && Parse(second).Ok?
    requires OneSpelling(PathTexts(Lines(first)))
    requires forall text :: text in PathTexts(Lines(first)) <==> text in PathTexts(Lines(second))
    ensures Parse(first) == Parse(second)
    ensures forall project, output :: Rewritten(project, first, output) <==> Rewritten(project, second, output)
  {
    ParsedPathsAreTheTexts(START, Lines(first));
    ParsedPathsAreTheTexts(START, Lines(second));
    SamePaths(PathTexts(Lines(first)), PathTexts(Lines(second)));
  }

  lemma SamePaths(left: seq<string>, right: seq<string>)
    requires OneSpelling(left) && forall text :: text in left <==> text in right
    ensures InsertAll(map[], left) == InsertAll(map[], right)
  {
    InsertAllValues(map[], left);
    InsertAllValues(map[], right);
    var a, b := InsertAll(map[], left), InsertAll(map[], right);
    forall root | root in a ensures root in b {
      assert a[root] in right;
      var i :| 0 <= i < |right| && right[i] == a[root];
    }
    forall root | root in b ensures root in a && a[root] == b[root] {
      assert b[root] in left;
      var i :| 0 <= i < |left| && left[i] == b[root];
      assert a[root] in left;
      var j :| 0 <= j < |left| && left[j] == a[root];
      assert Components(left[i]) == Components(left[j]);
    }
  }

  /** When a path is spelled in several ways, the first spelling is the one that is kept. */
  lemma FirstSpellingWins(document: string, i: nat)
    requires Parse(document).Ok? && i < |PathTexts(Lines(document))|
    requires forall j :: 0 <= j < i ==>
      Components(PathTexts(Lines(document))[j]) != Components(PathTexts(Lines(document))[i])
    ensures
      var root := Components(PathTexts(Lines(document))[i]);
      root in Parse(document).value && Parse(document).value[root] == PathTexts(Lines(document))[i]
  {
    ParsedPathsAreTheTexts(START, Lines(document));
    FirstInserted(map[], PathTexts(Lines(document)), i);
  }

  lemma {:induction false} FirstInserted(paths: Paths, texts: seq<string>, i: nat)
    requires i < |texts| && Components(texts[i]) !in paths
    requires forall j :: 0 <= j < i ==> Components(texts[j]) != Components(texts[i])
    ensures Components(texts[i]) in InsertAll(paths, texts) && InsertAll(paths, texts)[Components(texts[i])] == texts[i]
    decreases i
  {
    if i == 0 {
      InsertAllValues(Insert(paths, texts[0]), texts[1..]);
    } else {
      assert texts[1..][i - 1] == texts[i];
      assert forall j :: 0 <= j < i - 1 ==> texts[1..][j] == texts[j + 1];
      FirstInserted(Insert(paths, texts[0]), texts[1..], i - 1);
    }
  }

  /** An ordinary path component. */
  predicate Plainly(piece: string) {
    piece != "" && piece != "." && '/' !in piece
  }

  lemma TwoSpellings(a: string, b: string)
    requires Plainly(a) && Plainly(b)
    ensures Components(a + "//" + b) == [a, b] && Components(a + "/" + b) == [a, b]
  {
    ComponentsJoin(a, b);
    ComponentsJoin("", b);
    ComponentsJoin(a, "/" + b);
    assert "" + "/" + b == "/" + b && a + "/" + ("/" + b) == a + "//" + b;
    assert Components(b) == [b] by {
      assert IndexOf(b, '/') == |b| && Split(b, '/') == [b];
      assert [b][1..] == [] && Kept([]) == [];
      assert Kept([b]) == [b] + Kept([b][1..]);
    }
  }

  lemma ComponentsJoin(head: string, tail: string)
    requires Plainly(head) || head == ""
    ensures Components(head + "/" + tail) == (if head == "" then [] else [head]) + Components(tail)
  {
    SplitAt(head, '/', tail);
    assert ([head] + Split(tail, '/'))[1..] == Split(tail, '/');
  }

  // ---------- Exactly when the order shows ----------

  function MovedToFront(texts: seq<string>, i: nat): (moved: seq<string>)
    requires i < |texts|
    ensures |moved| == |texts| && moved[0] == texts[i]
  {
    [texts[i]] + texts[..i] + texts[i + 1..]
  }

  lemma {:induction false} MovedIsReordered(texts: seq<string>, i: nat)
    requires i < |texts|
    ensures multiset(MovedToFront(texts, i)) == multiset(texts)
    ensures forall text :: text in MovedToFront(texts, i) <==> text in texts
    ensures Components(texts[i]) in InsertAll(map[], MovedToFront(texts, i))
    ensures InsertAll(map[], MovedToFront(texts, i))[Components(texts[i])] == texts[i]
  {
    assert texts == texts[..i] + [texts[i]] + texts[i + 1..];
    FirstInserted(map[], MovedToFront(texts, i), 0);
  }

  /** Texts in another order, as often each. */
  ghost predicate Reorders(texts: seq<string>, others: seq<string>) {
    multiset(texts) == multiset(others)
  }

  lemma {:induction false} ReorderedHasSame(texts: seq<string>, others: seq<string>)
    requires Reorders(texts, others)
    ensures forall text :: text in others <==> text in texts
  {
    forall text ensures text in others <==> text in texts {
      assert text in multiset(others) <==> text in multiset(texts);
    }
  }

  /** The paths are the same in every order exactly when no path is spelled in two ways. */
  lemma {:induction false} TextOrderMattersExactly(texts: seq<string>)
    ensures OneSpelling(texts) <==>
      forall others :: Reorders(texts, others) ==> InsertAll(map[], others) == InsertAll(map[], texts)
  {
    if OneSpelling(texts) {
      forall others | Reorders(texts, others) ensures InsertAll(map[], others) == InsertAll(map[], texts) {
        ReorderedHasSame(texts, others);
        SamePaths(texts, others);
      }
    } else {
      var k := Misplaced(texts);
      MovedIsReordered(texts, k);
      assert Reorders(texts, MovedToFront(texts, k));
    }
  }

  /** With two spellings of a path, moving one of them to the front changes the paths. */
  lemma {:induction false} Misplaced(texts: seq<string>) returns (k: nat)
    requires !OneSpelling(texts)
    ensures k < |texts| && InsertAll(map[], MovedToFront(texts, k)) != InsertAll(map[], texts)
  {
    var i, j :|
      0 <= i < |texts| && 0 <= j < |texts| && Components(texts[i]) == Components(texts[j]) && texts[i] != texts[j];
    MovedIsReordered(texts, i);
    MovedIsReordered(texts, j);
    k := if InsertAll(map[], MovedToFront(texts, i)) == InsertAll(map[], texts) then j else i;
  }

  /** An accepted document with the path texts of another one, in some order. */
  ghost predicate Reordering(first: string, second: string) {
    Parse(second).Ok? && Reorders(PathTexts(Lines(first)), PathTexts(Lines(second)))
  }

  lemma {:induction false} ParsedTextsAreValid(p: Parser, lines: seq<string>)
    requires ParseLines(p, lines).Ok?
    ensures forall i :: 0 <= i < |PathTexts(lines)| ==> ValidInstallPath(PathTexts(lines)[i])
    decreases |lines|
  {
    if lines != [] {
      ParsedTextsAreValid(ParseLine(p, lines[0]).value, lines[1..]);
    }
  }

  /** Keys to list any number of paths under. */
  function FreshName(n: nat): string {
    seq(n + 1, _ => 'x')
  }

  function FreshNames(n: nat): (names: seq<string>)
    ensures |names| == n
  {
    seq(n, i requires 0 <= i < n => FreshName(i))
  }

  lemma {:induction false} FreshNamesAreFine(texts: seq<string>)
    requires forall i :: 0 <= i < |texts| ==> ValidInstallPath(texts[i])
    ensures Renderable(FreshNames(|texts|), texts)
    ensures forall name :: name in FreshNames(|texts|) ==> name !in SYNTAX_NAMES
  {
    var names := FreshNames(|texts|);
    forall i, j | 0 <= i < j < |names| ensures names[i] != names[j] {
      assert |names[i]| == i + 1 && |names[j]| == j + 1;
    }
    forall name | name in names ensures name !in SYNTAX_NAMES {
      assert name[0] == 'x';
    }
  }

  /** Any texts of an accepted document can be listed in any order. */
  lemma {:induction false} Listed(first: string, texts: seq<string>) returns (second: string)
    requires Parse(first).Ok? && Reorders(PathTexts(Lines(first)), texts)
    ensures Reordering(first, second) && Parse(second) == Ok(InsertAll(map[], texts))
    ensures PathTexts(Lines(second)) == texts
  {
    var was := PathTexts(Lines(first));
    ParsedTextsAreValid(START, Lines(first));
    ParsedPathsAreTheTexts(START, Lines(first));
    ReorderedHasSame(was, texts);
    assert was != [] && was[0] in texts;
    forall i | 0 <= i < |texts| ensures ValidInstallPath(texts[i]) {
      assert texts[i] in was;
    }
    FreshNamesAreFine(texts);
    second := Document(FreshNames(|texts|), texts);
    DocumentParses(FreshNames(|texts|), texts);
  }

  /** What an accepted document means depends on the order of its entries exactly when it spells a path in two ways. */
  lemma {:induction false} OrderMattersExactly(first: string)
    requires Parse(first).Ok?
    ensures OneSpelling(PathTexts(Lines(first))) <==>
      forall second :: Reordering(first, second) ==> Parse(second) == Parse(first)
  {
    var texts := PathTexts(Lines(first));
    ParsedPathsAreTheTexts(START, Lines(first));
    if OneSpelling(texts) {
      forall second | Reordering(first, second) ensures Parse(second) == Parse(first) {
        ReorderedHasSame(texts, PathTexts(Lines(second)));
        OrderAndKeysDoNotMatter(first, second);
      }
    } else {
      var k := Misplaced(texts);
      MovedIsReordered(texts, k);
      var second := Listed(first, MovedToFront(texts, k));
    }
  }

  // ---------- Outputs ----------

  /** The same packages, whichever spelling is kept. */
  lemma {:induction false} Respelled(project: Project, paths: Paths, others: Paths, o1: string) returns (o2: string)
    requires WellKeyed(paths) && others.Keys == paths.Keys
    requires exists names, dependencies: map<string, string> :: Outputs(project, paths, names, dependencies, o1)
    ensures exists names, dependencies: map<string, string> :: Outputs(project, others, names, dependencies, o2)
  {
    var names, dependencies: map<string, string> :| Outputs(project, paths, names, dependencies, o1);
    var again := RespelledDependencies(project, paths, others, dependencies);
    o2 := Render(names, again);
    assert Outputs(project, others, names, again, o2);
  }

  lemma {:induction false} RespelledDependencies(
      project: Project, paths: Paths, others: Paths, dependencies: map<string, string>)
    returns (again: map<string, string>)
    requires WellKeyed(paths) && others.Keys == paths.Keys && AreDependencies(project, paths, dependencies)
    ensures again.Keys == dependencies.Keys && AreDependencies(project, others, again)
  {
    forall name | name in dependencies ensures Components(dependencies[name]) in others {
      var root :| root in paths && NameAt(project, root) == Ok(name);
      assert Declares(project, paths, dependencies, root);
    }
    again := map name | name in dependencies :: others[Components(dependencies[name])];
    forall root | root in others ensures Declares(project, others, again, root) {
      assert Declares(project, paths, dependencies, root);
    }
  }

  /**
   The rewritten text depends on the order of the entries exactly when a path is spelled in two ways
   (for paths without backslashes and packages without the two syntax names).
   */
  lemma {:induction false} OrderShowsExactly(project: Project, first: string, o1: string)
    requires Rewritten(project, first, o1) && !DeclaresSyntaxName(project, Parse(first).value)
    requires forall text :: text in PathTexts(Lines(first)) ==> '\\' !in text
    ensures OneSpelling(PathTexts(Lines(first))) <==>
      forall second, o2 :: Reordering(first, second) && Rewritten(project, second, o2) ==> o2 == o1
  {
    var texts := PathTexts(Lines(first));
    PlainTexts(first, texts);
    if OneSpelling(texts) {
      forall second, o2 | Reordering(first, second) && Rewritten(project, second, o2) ensures o2 == o1 {
        OrderMattersExactly(first);
        CanonicalExactly(project, first, second, o1, o2);
      }
    } else {
      var second, o2 := OtherOutput(project, first, o1);
    }
  }

  lemma {:induction false} PlainTexts(document: string, texts: seq<string>)
    requires Parse(document).Ok? && Reorders(texts, PathTexts(Lines(document)))
    requires forall text :: text in texts ==> '\\' !in text
    ensures Plain(Parse(document).value)
    ensures forall root :: root in Parse(document).value <==> exists text :: text in texts && Components(text) == root
  {
    var own := PathTexts(Lines(document));
    ParsedPathsAreTheTexts(START, Lines(document));
    InsertAllValues(map[], own);
    ReorderedHasSame(own, texts);
    forall root | root in Parse(document).value
      ensures exists text :: text in texts && Components(text) == root
    {
      assert Parse(document).value[root] in texts;
    }
    forall text | text in texts ensures Components(text) in Parse(document).value {
      var i :| 0 <= i < |own| && own[i] == text;
    }
  }

  /** The other text, as a witness. */
  lemma {:induction false} OtherOutput(project: Project, first: string, o1: string) returns (second: string, o2: string)
    requires Rewritten(project, first, o1) && !DeclaresSyntaxName(project, Parse(first).value)
    requires forall text :: text in PathTexts(Lines(first)) ==> '\\' !in text
    requires !OneSpelling(PathTexts(Lines(first)))
    ensures Reordering(first, second) && Rewritten(project, second, o2) && o2 != o1
  {
    var texts := PathTexts(Lines(first));
    var k := Misplaced(texts);
    MovedIsReordered(texts, k);
    second := Listed(first, MovedToFront(texts, k));
    ParsedPathsAreTheTexts(START, Lines(first));
    assert Parse(second) != Parse(first);
    PlainTexts(first, texts);
    PlainTexts(second, texts);
    assert Parse(second).value.Keys == Parse(first).value.Keys;
    ParsedPathsAreValid(START, Lines(first));
    o2 := Respelled(project, Parse(first).value, Parse(second).value, o1);
    CanonicalExactly(project, first, second, o1, o2);
  }

  /** Such documents exist: two entries for one package, under two spellings of its path. */
  lemma {:induction false} SpellingOrderShows(name: string)
    returns (first: string, second: string, o1: string, o2: string)
    requires IsValidPubName(name) && name !in SYNTAX_NAMES
    ensures var project := OnePackage(["a", "b"], name);
            && Rewritten(project, first, o1) && Rewritten(project, second, o2) && o1 != o2
            && Parse(first).Ok? && Reordering(first, second)
  {
    var (root, texts) := (["a", "b"], ["a//b", "a/b"]);
    BothSpellings();
    first := TwoEntries(root, texts[0], texts[1]);
    o1 := Document([name], [texts[0]]);
    OnePackageRewritten(root, name, first, texts[0]);
    assert Components(texts[0]) == Components(texts[1]) && texts[0] != texts[1];
    second, o2 := OtherOutput(OnePackage(root, name), first, o1);
  }

  lemma {:induction false} TwoEntries(root: seq<string>, x: string, y: string) returns (document: string)
    requires ValidInstallPath(x) && ValidInstallPath(y) && Components(x) == Components(y) == root
    ensures Parse(document) == Ok(map[root := x]) && PathTexts(Lines(document)) == [x, y]
  {
    var texts := [x, y];
    FreshNamesAreFine(texts);
    document := Document(FreshNames(2), texts);
    DocumentParses(FreshNames(2), texts);
    FirstInserted(map[], texts, 0);
    InsertAllValues(map[], texts);
    var paths := InsertAll(map[], texts);
    forall other | other in paths ensures other == root {
      assert paths[other] in texts;
    }
    assert paths == map[root := x];
  }

  lemma {:induction false} ValidBelow(head: string, tail: string)
    requires Plainly(head) && head != ".." && ".." !in Split(tail, '/')
    ensures ValidInstallPath(head + "/" + tail)
  {
    SplitAt(head, '/', tail);
    assert head + ['/'] + tail == head + "/" + tail;
  }

  lemma {:induction false} BothSpellings()
    ensures Components("a//b") == Components("a/b") == ["a", "b"]
    ensures ValidInstallPath("a//b") && ValidInstallPath("a/b")
  {
    TwoSpellings("a", "b");
    BothValid("a", "b");
    assert "a" + "//" + "b" == "a//b" && "a" + "/" + "b" == "a/b";
  }

  lemma {:induction false} BothValid(a: string, b: string)
    requires Plainly(a) && Plainly(b) && a != ".." && b != ".."
    ensures ValidInstallPath(a + "//" + b) && ValidInstallPath(a + "/" + b)
  {
    OnePiece(b);
    SplitAt("", '/', b);
    assert "" + ['/'] + b == "/" + b && a + "/" + ("/" + b) == a + "//" + b;
    ValidBelow(a, b);
    ValidBelow(a, "/" + b);
  }

  lemma {:induction false} OnePiece(piece: string)
    requires '/' !in piece
    ensures Split(piece, '/') == [piece]
  {
    assert IndexOf(piece, '/') == |piece|;
  }
}
