/** What rewriting the Dart wiring keeps: round trip, idempotence, independence of order. */
module DartIdempotence {
  import opened Wrappers
  import opened Enumerations
  import opened Strings
  import opened DartWiring

  /** The two valid package names that the parser takes for syntax. */
  const SYNTAX_NAMES: set<string> := {"path", "dependencies"}

  // ---------- Single lines ----------

  /** The path a line contributes, if it is a path line. */
  function PathOf(raw: string): seq<string> {
    var trimmed := Trim(raw);
    if Ignored(trimmed) || trimmed == "dependencies:" || !HasPrefix(trimmed, "path:") then []
    else
      var path := ParseYamlScalar(Trim(trimmed[5..]));
      if path.Ok? then [path.value] else []
  }

  /** The path texts of a document in the order of its lines. */
  function PathTexts(lines: seq<string>): seq<string> {
    if lines == [] then [] else PathOf(lines[0]) + PathTexts(lines[1..])
  }

  lemma IndentedLine(n: nat, content: string)
    requires Tight(content)
    ensures Trim(Spaces(n) + content) == content && Leading(Spaces(n) + content) == n
    ensures '\t' !in (Spaces(n) + content)[..n]
  {
    TrimIndented(n, content);
    LeadingIndented(n, content);
  }

  lemma PathKey(name: string)
    requires IsValidPubName(name) && HasPrefix(name + ":", "path:")
    ensures name == "path"
  {
    var content := name + ":";
    assert content[..4] == "path:"[..4] == "path";
    assert content[4] == content[..5][4] == ':';
    assert forall i :: 0 <= i < |name| ==> name[i] in name && content[i] == name[i];
  }

  /** A key line with a name that is not syntax. */
  lemma {:induction false} KeyContent(name: string)
    requires IsValidPubName(name) && name !in SYNTAX_NAMES
    ensures name + ":" != "dependencies:" && !HasPrefix(name + ":", "path:")
  {
    var content := name + ":";
    assert content[..|content| - 1] == name;
    assert "dependencies:"[..|"dependencies:"| - 1] == "dependencies";
    if HasPrefix(content, "path:") {
      PathKey(name);
    }
  }

  lemma {:induction false} KeyLine(name: string)
    requires IsValidPubName(name)
    ensures Trim("  " + name + ":") == name + ":" && Leading("  " + name + ":") == 2
    ensures '\t' !in ("  " + name + ":")[..2] && Trim(name) == name && name[0] != '#'
    ensures PathOf("  " + name + ":") == [] || HasPrefix(name + ":", "path:")
  {
    var content := name + ":";
    assert "  " + name + ":" == Spaces(2) + content;
    assert !IsSpace(content[0]) && name[|name| - 1] in name;
    IndentedLine(2, content);
    TrimTight(name);
  }

  lemma {:induction false} NameLine(p: Parser, name: string)
    requires IsValidPubName(name) && name !in SYNTAX_NAMES
    requires p.documentMode && p.pending.None? && name !in p.keys
    ensures ParseLine(p, "  " + name + ":")
         == Ok(p.(keys := p.keys + {name}, sawPackage := true, pending := Some((name, 2))))
    ensures PathOf("  " + name + ":") == []
  {
    KeyLine(name);
    KeyContent(name);
    assert (name + ":")[..|name + ":"| - 1] == name;
  }

  lemma SyntaxNameLine(p: Parser, name: string)
    requires name in SYNTAX_NAMES && p.documentMode && p.pending.None?
    ensures ParseLine(p, "  " + name + ":") == Err
  {
    var content := name + ":";
    assert "  " + name + ":" == Spaces(2) + content;
    IndentedLine(2, content);
    if name == "path" {
      assert content == "path:";
    } else {
      assert content == "dependencies:";
    }
  }

  lemma {:induction false} PathLine(p: Parser, text: string, name: string)
    requires p.pending == Some((name, 2)) && ValidInstallPath(text)
    ensures ParseLine(p, "    path: " + JsonString(text)) == Ok(p.(pending := None, paths := Insert(p.paths, text)))
    ensures PathOf("    path: " + JsonString(text)) == [text]
  {
    var json := JsonString(text);
    var content := "path: " + json;
    assert "    path: " + json == Spaces(4) + content;
    IndentedLine(4, content);
    ScalarOfJson(text);
    assert content[..5] == "path:";
    assert content != "dependencies:" by { assert content[0] == 'p'; }
  }

  lemma ScalarOfJson(path: string)
    ensures ParseYamlScalar(Trim(("path: " + JsonString(path))[5..])) == Ok(path)
  {
    var json := JsonString(path);
    assert ("path: " + json)[5..] == Spaces(1) + json;
    TrimIndented(1, json);
    JsonRoundTrip(path);
  }

  // ---------- Collecting paths ----------

  function InsertAll(paths: Paths, texts: seq<string>): Paths
    decreases |texts|
  {
    if texts == [] then paths else InsertAll(Insert(paths, texts[0]), texts[1..])
  }

  /** The keys are the components of the texts; each value is an old value or one of the texts. */
  lemma {:induction false} InsertAllValues(paths: Paths, texts: seq<string>)
    ensures paths.Keys <= InsertAll(paths, texts).Keys
    ensures forall i :: 0 <= i < |texts| ==> Components(texts[i]) in InsertAll(paths, texts)
    ensures forall root :: root in InsertAll(paths, texts) ==>
      (root in paths && InsertAll(paths, texts)[root] == paths[root])
      || (root !in paths && InsertAll(paths, texts)[root] in texts && Components(InsertAll(paths, texts)[root]) == root)
    decreases |texts|
  {
    if texts != [] {
      InsertAllValues(Insert(paths, texts[0]), texts[1..]);
      assert forall text :: text in texts[1..] ==> text in texts;
      forall i | 0 <= i < |texts| ensures Components(texts[i]) in InsertAll(paths, texts) {
        if i > 0 {
          assert texts[i] == texts[1..][i - 1];
        }
      }
    }
  }

  ghost predicate WellKeyed(paths: Paths) {
    forall root :: root in paths ==> Components(paths[root]) == root && ValidInstallPath(paths[root])
  }

  lemma {:induction false} ParsedPathsAreValid(p: Parser, lines: seq<string>)
    requires WellKeyed(p.paths)
    ensures ParseLines(p, lines).Ok? ==> WellKeyed(ParseLines(p, lines).value.paths)
    decreases |lines|
  {
    if lines != [] && ParseLine(p, lines[0]).Ok? {
      ParsedLineIsValid(p, lines[0]);
      ParsedPathsAreValid(ParseLine(p, lines[0]).value, lines[1..]);
    }
  }

  lemma ParsedLineIsValid(p: Parser, raw: string)
    requires WellKeyed(p.paths) && ParseLine(p, raw).Ok?
    ensures WellKeyed(ParseLine(p, raw).value.paths)
  {
    var q := ParseLine(p, raw).value;
    if q.paths != p.paths {
      var path := ParseYamlScalar(Trim(Trim(raw)[5..])).value;
      assert q.paths == Insert(p.paths, path) && ValidInstallPath(path);
    }
  }

  // ---------- Parsing what was rendered ----------

  ghost predicate Renderable(names: seq<string>, texts: seq<string>) {
    && Distinct(names) && |texts| == |names|
    && forall i :: 0 <= i < |names| ==> IsValidPubName(names[i]) && ValidInstallPath(texts[i])
  }

  /** Between entries the parser waits for the next key. */
  predicate BetweenEntries(p: Parser, names: seq<string>) {
    p.documentMode && p.pending.None? && forall name :: name in names ==> name !in p.keys
  }

  /** The parser after an entry. */
  function AfterEntry(p: Parser, name: string, text: string): Parser {
    p.(keys := p.keys + {name}, sawPackage := true, paths := Insert(p.paths, text))
  }

  lemma {:induction false} EntryParsed(p: Parser, names: seq<string>, texts: seq<string>)
    requires names != [] && Renderable(names, texts) && BetweenEntries(p, names) && names[0] !in SYNTAX_NAMES
    ensures
      var q := AfterEntry(p, names[0], texts[0]);
      && ParseLines(p, RenderLines(names, texts)) == ParseLines(q, RenderLines(names[1..], texts[1..]))
      && BetweenEntries(q, names[1..])
    ensures PathTexts(RenderLines(names, texts)) == [texts[0]] + PathTexts(RenderLines(names[1..], texts[1..]))
  {
    var (entry, rest) := (EntryLines(names[0], texts[0]), RenderLines(names[1..], texts[1..]));
    var middle := p.(keys := p.keys + {names[0]}, sawPackage := true, pending := Some((names[0], 2)));
    NameLine(p, names[0]);
    PathLine(middle, texts[0], names[0]);
    ParseTwo(p, entry[0], entry[1], rest, middle, AfterEntry(p, names[0], texts[0]));
    assert RenderLines(names, texts) == [entry[0], entry[1]] + rest;
    forall name | name in names[1..] ensures name in names && name != names[0] {
      var i :| 0 <= i < |names[1..]| && names[1..][i] == name;
      assert names[i + 1] == name;
    }
  }

  lemma {:induction false} ParseTwo(p: Parser, first: string, second: string, rest: seq<string>, q: Parser, r: Parser)
    requires ParseLine(p, first) == Ok(q) && ParseLine(q, second) == Ok(r)
    ensures ParseLines(p, [first, second] + rest) == ParseLines(r, rest)
    ensures PathTexts([first, second] + rest) == PathOf(first) + (PathOf(second) + PathTexts(rest))
  {
    var all := [first, second] + rest;
    assert all[1..] == [second] + rest && all[1..][1..] == rest;
  }

  lemma {:induction false} RenderableTail(names: seq<string>, texts: seq<string>)
    requires names != [] && Renderable(names, texts)
    ensures Renderable(names[1..], texts[1..])
  {
  }

  lemma {:induction false} EntriesParsed(p: Parser, names: seq<string>, texts: seq<string>)
    requires Renderable(names, texts) && BetweenEntries(p, names)
    requires forall name :: name in names ==> name !in SYNTAX_NAMES
    ensures
      var r := ParseLines(p, RenderLines(names, texts));
      r.Ok? && r.value.pending.None? && r.value.paths == InsertAll(p.paths, texts)
    ensures PathTexts(RenderLines(names, texts)) == texts
    decreases |names|
  {
    if names != [] {
      EntryParsed(p, names, texts);
      RenderableTail(names, texts);
      assert forall name :: name in names[1..] ==> name in names;
      EntriesParsed(AfterEntry(p, names[0], texts[0]), names[1..], texts[1..]);
      assert texts == [texts[0]] + texts[1..];
    }
  }

  lemma {:induction false} SyntaxNamesStopTheParser(p: Parser, names: seq<string>, texts: seq<string>)
    requires Renderable(names, texts) && BetweenEntries(p, names)
    requires exists name :: name in names && name in SYNTAX_NAMES
    ensures ParseLines(p, RenderLines(names, texts)).Err?
    decreases |names|
  {
    if names[0] in SYNTAX_NAMES {
      SyntaxNameLine(p, names[0]);
    } else {
      EntryParsed(p, names, texts);
      RenderableTail(names, texts);
      var i :| 0 <= i < |names| && names[i] in SYNTAX_NAMES;
      assert names[1..][i - 1] == names[i];
      SyntaxNamesStopTheParser(AfterEntry(p, names[0], texts[0]), names[1..], texts[1..]);
    }
  }

  lemma {:induction false} RenderedLinesAreClean(names: seq<string>, texts: seq<string>)
    requires Renderable(names, texts)
    ensures forall line :: line in RenderLines(names, texts) ==> '\n' !in line && StripCarriageReturn(line) == line
    decreases |names|
  {
    if names != [] {
      RenderableTail(names, texts);
      RenderedLinesAreClean(names[1..], texts[1..]);
      EntryIsClean(names[0], texts[0]);
    }
  }

  lemma {:induction false} EntryIsClean(name: string, text: string)
    requires IsValidPubName(name)
    ensures forall line :: line in EntryLines(name, text) ==> '\n' !in line && StripCarriageReturn(line) == line
  {
    EscapedIsOneLine(text);
    var first, second := "  " + name + ":", "    path: " + JsonString(text);
    assert first[|first| - 1] == ':' && '\n' !in first;
    assert second[|second| - 1] == '"' && '\n' !in second;
  }

  lemma {:induction false} HeaderLine()
    ensures ParseLine(START, "dependencies:") == Ok(START.(documentMode := true))
    ensures PathOf("dependencies:") == []
    ensures '\n' !in "dependencies:" && StripCarriageReturn("dependencies:") == "dependencies:"
  {
    IndentedLine(0, "dependencies:");
    assert Spaces(0) + "dependencies:" == "dependencies:";
  }

  lemma {:induction false} RenderedLines(header: string, lines: seq<string>)
    requires '\n' !in header && StripCarriageReturn(header) == header
    requires forall line :: line in lines ==> '\n' !in line && StripCarriageReturn(line) == line
    ensures Lines(header + "\n" + Unlines(lines)) == [header] + lines
  {
    LinesOfUnlines([header] + lines);
    assert ([header] + lines)[1..] == lines;
  }

  lemma {:induction false} ParseMore(p: Parser, line: string, lines: seq<string>)
    requires ParseLine(p, line).Ok?
    ensures ParseLines(p, [line] + lines) == ParseLines(ParseLine(p, line).value, lines)
  {
    assert ([line] + lines)[1..] == lines;
  }

  /** The lines of a rendered document, as the parser sees them. */
  lemma {:induction false} ParseRendered(names: seq<string>, texts: seq<string>)
    requires Renderable(names, texts)
    ensures ParseLines(START, Lines(Document(names, texts)))
         == ParseLines(START.(documentMode := true), RenderLines(names, texts))
    ensures PathTexts(Lines(Document(names, texts))) == PathTexts(RenderLines(names, texts))
  {
    var (header, lines) := ("dependencies:", RenderLines(names, texts));
    HeaderLine();
    RenderedLinesAreClean(names, texts);
    RenderedLines(header, lines);
    ParseMore(START, header, lines);
    assert header + "\n" == "dependencies:\n";
    assert ([header] + lines)[1..] == lines;
  }

  /** A document without syntax names parses to its path texts, inserted in order. */
  lemma {:induction false} DocumentParses(names: seq<string>, texts: seq<string>)
    requires Renderable(names, texts) && names != [] && forall name :: name in names ==> name !in SYNTAX_NAMES
    ensures Parse(Document(names, texts)) == Ok(InsertAll(map[], texts))
    ensures PathTexts(Lines(Document(names, texts))) == texts
  {
    ParseRendered(names, texts);
    EntriesParsed(START.(documentMode := true), names, texts);
    InsertAllValues(map[], texts);
    assert Components(texts[0]) in InsertAll(map[], texts);
  }

  // ---------- The results ----------

  /** No path contains a backslash. */
  ghost predicate Plain(paths: Paths) {
    forall root :: root in paths ==> '\\' !in paths[root]
  }

  lemma PortablePlain(path: string)
    requires '\\' !in path
    ensures Portable(path) == path
  {
  }

  lemma OutputsAreRenderable(
      project: Project, paths: Paths, names: seq<string>, dependencies: map<string, string>, output: string)
    requires Outputs(project, paths, names, dependencies, output) && WellKeyed(paths) && Plain(paths)
    ensures Renderable(names, Texts(names, dependencies))
    ensures forall root :: root in paths ==> paths[root] in Texts(names, dependencies)
    ensures forall text :: text in Texts(names, dependencies) ==> exists root :: root in paths && paths[root] == text
  {
    forall i, j | 0 <= i < j < |names| ensures names[i] != names[j] {
      BelowTotal(names[i], names[j]);
    }
    forall name | name in names
      ensures name in dependencies && IsValidPubName(name)
      ensures exists root :: root in paths && paths[root] == dependencies[name] == Portable(dependencies[name])
    {
      var root :| root in paths && NameAt(project, root) == Ok(name);
      assert Declares(project, paths, dependencies, root);
      DeclaredNamesAreValid(None, Lines(project[root]));
      PortablePlain(paths[root]);
    }
    forall root | root in paths ensures paths[root] in Texts(names, dependencies) {
      assert Declares(project, paths, dependencies, root);
      var name := NameAt(project, root).value;
      assert name in names;
      var i :| 0 <= i < |names| && names[i] == name;
      PortablePlain(paths[root]);
      assert Texts(names, dependencies)[i] == paths[root];
    }
  }

  lemma RenderedPaths(paths: Paths, texts: seq<string>)
    requires WellKeyed(paths)
    requires forall root :: root in paths ==> paths[root] in texts
    requires forall text :: text in texts ==> exists root :: root in paths && paths[root] == text
    ensures InsertAll(map[], texts) == paths
  {
    InsertAllValues(map[], texts);
    var all := InsertAll(map[], texts);
    forall root | root in paths ensures root in all {
      var i :| 0 <= i < |texts| && texts[i] == paths[root];
      assert Components(texts[i]) in all;
    }
    forall root | root in all ensures root in paths && all[root] == paths[root] {
      assert all[root] in texts;
      var r :| r in paths && paths[r] == all[root];
    }
  }

  /** Parsing the rendered document gives back exactly the set of paths it was rendered from. */
  lemma RoundTrip(
      project: Project, document: string, names: seq<string>, dependencies: map<string, string>, output: string)
    requires Parse(document).Ok? && Plain(Parse(document).value)
    requires Outputs(project, Parse(document).value, names, dependencies, output)
    ensures (forall name :: name in names ==> name !in SYNTAX_NAMES) ==> Parse(output) == Parse(document)
    ensures (exists name :: name in names && name in SYNTAX_NAMES) ==> Parse(output) == Err
  {
    var paths := Parse(document).value;
    ParsedPathsAreValid(START, Lines(document));
    OutputsAreRenderable(project, paths, names, dependencies, output);
    var texts := Texts(names, dependencies);
    if forall name :: name in names ==> name !in SYNTAX_NAMES {
      RenderedPaths(paths, texts);
      NamesAreThere(paths, names, texts);
      DocumentParses(names, texts);
    } else {
      ParseRendered(names, texts);
      SyntaxNamesStopTheParser(START.(documentMode := true), names, texts);
    }
  }

  lemma {:induction false} NamesAreThere(paths: Paths, names: seq<string>, texts: seq<string>)
    requires |texts| == |names| && paths != map[] && forall root :: root in paths ==> paths[root] in texts
    ensures names != []
  {
    var root :| root in paths;
    assert paths[root] in texts;
  }

  /** Some installed package declares a name the parser takes for syntax. */
  ghost predicate DeclaresSyntaxName(project: Project, paths: Paths) {
    exists root :: root in paths && NameAt(project, root).Ok? && NameAt(project, root).value in SYNTAX_NAMES
  }

  /**
   Rewriting twice is rewriting once exactly when no installed package is called
   `path` or `dependencies`; with such a package the second rewriting fails.
   */
  lemma {:induction false} IdempotentExactly(project: Project, document: string, output: string)
    requires Rewritten(project, document, output) && Plain(Parse(document).value)
    ensures Rewritten(project, output, output) <==> !DeclaresSyntaxName(project, Parse(document).value)
    ensures DeclaresSyntaxName(project, Parse(document).value) ==> forall other :: !Rewritten(project, output, other)
  {
    var paths := Parse(document).value;
    var names, dependencies: map<string, string> :| Outputs(project, paths, names, dependencies, output);
    RoundTrip(project, document, names, dependencies, output);
    if DeclaresSyntaxName(project, paths) {
      var root :| root in paths && NameAt(project, root).Ok? && NameAt(project, root).value in SYNTAX_NAMES;
      assert Declares(project, paths, dependencies, root);
      assert NameAt(project, root).value in names;
    } else {
      forall name | name in names ensures name !in SYNTAX_NAMES {
        var root :| root in paths && NameAt(project, root) == Ok(name);
      }
      assert Outputs(project, Parse(output).value, names, dependencies, output);
    }
  }

  // ---------- One output per set of paths ----------

  lemma {:induction false} OrderIsUnique(left: seq<string>, right: seq<string>, keys: set<string>)
    requires InOrder(left, keys) && InOrder(right, keys)
    ensures left == right
    decreases |left|
  {
    assert left != [] ==> left[0] in left && left[0] in right;
    assert right != [] ==> right[0] in right && right[0] in left;
    if left != [] && right != [] {
      var i :| 0 <= i < |right| && right[i] == left[0];
      var j :| 0 <= j < |left| && left[j] == right[0];
      BelowTotal(left[0], right[0]);
      assert forall k :: 0 < k < |right| ==> Below(right[0], right[k]);
      assert forall k :: 0 < k < |left| ==> Below(left[0], left[k]);
      assert left[0] == right[0];
      OrderTail(left, keys);
      OrderTail(right, keys);
      OrderIsUnique(left[1..], right[1..], keys - {left[0]});
      assert left == [left[0]] + left[1..] && right == [right[0]] + right[1..];
    }
  }

  lemma OrderTail(names: seq<string>, keys: set<string>)
    requires names != [] && InOrder(names, keys)
    ensures InOrder(names[1..], keys - {names[0]})
  {
    forall name ensures name in names[1..] <==> name in keys - {names[0]} {
      assert names == [names[0]] + names[1..];
      if name in names[1..] {
        var i :| 0 <= i < |names[1..]| && names[1..][i] == name;
        assert Below(names[0], names[i + 1]);
        BelowTotal(names[0], name);
      }
    }
  }

  /** A project and a set of paths determine the output. */
  lemma OutputIsUnique(project: Project, paths: Paths, n1: seq<string>, d1: map<string, string>, o1: string,
                       n2: seq<string>, d2: map<string, string>, o2: string)
    requires Outputs(project, paths, n1, d1, o1) && Outputs(project, paths, n2, d2, o2)
    ensures d1 == d2 && n1 == n2 && o1 == o2
  {
    SameDependencies(project, paths, d1, d2);
    SameDependencies(project, paths, d2, d1);
    assert d1.Keys == d2.Keys && d1 == d2;
    OrderIsUnique(n1, n2, d1.Keys);
  }

  lemma SameDependencies(project: Project, paths: Paths, d1: map<string, string>, d2: map<string, string>)
    requires AreDependencies(project, paths, d1) && AreDependencies(project, paths, d2)
    ensures forall name :: name in d1 ==> name in d2 && d1[name] == d2[name]
  {
  }

  /**
   The output is canonical: two accepted documents of one project are rewritten to
   the same text exactly when they name the same paths in the same spelling.
   */
  lemma CanonicalExactly(project: Project, first: string, second: string, o1: string, o2: string)
    requires Rewritten(project, first, o1) && Rewritten(project, second, o2)
    requires Plain(Parse(first).value) && Plain(Parse(second).value)
    requires !DeclaresSyntaxName(project, Parse(first).value) && !DeclaresSyntaxName(project, Parse(second).value)
    ensures o1 == o2 <==> Parse(first) == Parse(second)
  {
    var n1, d1: map<string, string> :| Outputs(project, Parse(first).value, n1, d1, o1);
    var n2, d2: map<string, string> :| Outputs(project, Parse(second).value, n2, d2, o2);
    NoSyntaxNames(project, Parse(first).value, n1, d1, o1);
    NoSyntaxNames(project, Parse(second).value, n2, d2, o2);
    RoundTrip(project, first, n1, d1, o1);
    RoundTrip(project, second, n2, d2, o2);
    if Parse(first) == Parse(second) {
      OutputIsUnique(project, Parse(first).value, n1, d1, o1, n2, d2, o2);
    }
  }

  lemma NoSyntaxNames(
      project: Project, paths: Paths, names: seq<string>, dependencies: map<string, string>, output: string)
    requires Outputs(project, paths, names, dependencies, output) && !DeclaresSyntaxName(project, paths)
    ensures forall name :: name in names ==> name !in SYNTAX_NAMES
  {
  }

  // ---------- The two names at work ----------

  lemma {:induction false} NothingToDropFrom(s: string)
    requires ' ' !in s
    ensures BeforeComment(s) == s
    decreases |s|
  {
    if |s| >= 2 {
      assert s[0] in s && s[..2][0] == s[0];
      NothingToDropFrom(s[1..]);
    }
  }

  lemma {:induction false} OneLine(document: string)
    requires document != "" && '\n' !in document
    ensures Lines(document) == [document]
  {
    assert IndexOf(document, '\n') == |document|;
  }

  lemma {:induction false} PlainScalar(name: string)
    requires IsValidPubName(name)
    ensures Tight(name) && Trim(" " + name) == name && ParseYamlScalar(name) == Ok(name)
  {
    assert name[0] in name && name[|name| - 1] in name;
    assert " " + name == Spaces(1) + name;
    TrimIndented(1, name);
    NothingToDropFrom(name);
    TrimTight(name);
  }

  lemma {:induction false} NameStep(name: string, line: string)
    requires IsValidPubName(name) && line == "name: " + name
    ensures DeclaredStep(None, line) == Ok(Some(name))
  {
    PlainScalar(name);
    assert line[0] == 'n' && line[|line| - 1] == name[|name| - 1];
    TrimTight(line);
    assert line[..5] == "name:" && line[5..] == " " + name;
    assert !HasPrefix(line, "\U{FEFF}") && line != "---";
  }

  /** The plainest pubspec. */
  lemma {:induction false} PubspecDeclares(name: string)
    requires IsValidPubName(name)
    ensures DeclaredName("name: " + name) == Ok(name)
  {
    var document := "name: " + name;
    assert '\n' !in document;
    OneLine(document);
    NameStep(name, document);
    OneStep(name, document);
  }

  lemma {:induction false} OneStep(name: string, line: string)
    requires DeclaredStep(None, line) == Ok(Some(name))
    ensures DeclaredIn(None, [line]) == Ok(name)
  {
    assert [line][1..] == [] && DeclaredIn(Some(name), []) == Ok(name);
    assert DeclaredIn(None, [line]) == DeclaredIn(Some(name), [line][1..]);
  }

  /** A project with one package, at `root`, declaring `name`. */
  function OnePackage(root: seq<string>, name: string): Project {
    map[root := "name: " + name]
  }

  /** A document about that package alone, and what it is rewritten to. */
  lemma {:induction false} OnePackageRewritten(root: seq<string>, name: string, document: string, text: string)
    requires IsValidPubName(name) && Parse(document) == Ok(map[root := text]) && '\\' !in text
    ensures Rewritten(OnePackage(root, name), document, Document([name], [text]))
    ensures Plain(Parse(document).value)
    ensures DeclaresSyntaxName(OnePackage(root, name), Parse(document).value) <==> name in SYNTAX_NAMES
  {
    PubspecDeclares(name);
    var (project, paths, dependencies) := (OnePackage(root, name), map[root := text], map[name := text]);
    assert root in paths && NameAt(project, root) == Ok(name);
    assert AreDependencies(project, paths, dependencies);
    assert InOrder([name], dependencies.Keys);
    PortablePlain(text);
    assert Texts([name], dependencies) == [text];
    assert Outputs(project, paths, [name], dependencies, Document([name], [text]));
  }

  lemma {:induction false} OneEntry(key: string, text: string)
    requires IsValidPubName(key) && key !in SYNTAX_NAMES && ValidInstallPath(text)
    ensures Parse(Document([key], [text])) == Ok(map[Components(text) := text])
  {
    DocumentParses([key], [text]);
    assert [text][1..] == [] && InsertAll(map[], [text]) == Insert(map[], text);
  }

  /** Both names do break idempotence: with such a package at any place the second rewriting fails. */
  lemma {:induction false} SyntaxNamesBreakIdempotence(name: string, text: string)
    requires name in SYNTAX_NAMES && ValidInstallPath(text) && '\\' !in text
    ensures
      var project := OnePackage(Components(text), name);
      var (document, output) := (Document(["x"], [text]), Document([name], [text]));
      && Rewritten(project, document, output) && Plain(Parse(document).value)
      && DeclaresSyntaxName(project, Parse(document).value)
      && forall other :: !Rewritten(project, output, other)
  {
    var (document, output) := (Document(["x"], [text]), Document([name], [text]));
    assert "x"[0] == 'x';
    OneEntry("x", text);
    SyntaxNamesAreValid(name);
    OnePackageRewritten(Components(text), name, document, text);
    IdempotentExactly(OnePackage(Components(text), name), document, output);
  }

  lemma {:induction false} SyntaxNamesAreValid(name: string)
    requires name in SYNTAX_NAMES
    ensures IsValidPubName(name)
  {
  }

  /** There are such places. */
  lemma {:induction false} OneRoot()
    ensures Components("a") == ["a"] && ValidInstallPath("a")
  {
    assert IndexOf("a", '/') == 1 by {
      assert "a"[1..] == "";
    }
    assert Split("a", '/') == ["a"] && ["a"][1..] == [] && Kept([]) == [];
  }

  /** So for either name some document is rewritten once, but not twice. */
  lemma {:induction false} IdempotenceFails(name: string)
    requires name in SYNTAX_NAMES
    ensures exists project, document, output ::
      Rewritten(project, document, output) && forall other :: !Rewritten(project, output, other)
  {
    OneRoot();
    SyntaxNamesBreakIdempotence(name, "a");
    var project := OnePackage(Components("a"), name);
    assert Rewritten(project, Document(["x"], ["a"]), Document([name], ["a"]));
  }
}
