/** The provisional list as it may be written: entries at the margin or in a document, and paths in any style. */
module DartFragments {
  import opened Wrappers
  import opened Enumerations
  import opened Strings
  import opened DartWiring
  import opened DartIdempotence

  // ---------- Spelling a path ----------

  datatype Style = Bare | Commented(comment: string) | SingleQuoted | DoubleQuoted

  function Doubled(s: string): string {
    if s == "" then "" else (if s[0] == '\'' then "''" else [s[0]]) + Doubled(s[1..])
  }

  function Scalar(style: Style, text: string): string {
    match style
    case Bare => text
    case Commented(comment) => text + " #" + comment
    case SingleQuoted => "'" + Doubled(text) + "'"
    case DoubleQuoted => JsonString(text)
  }

  predicate HasComment(s: string) {
    exists i :: 0 <= i < |s| - 1 && s[i] == ' ' && s[i + 1] == '#'
  }

  /** What can be written in this style on one line. */
  predicate Fits(style: Style, text: string) {
    match style
    case Bare => Tight(text) && text[0] != '"' && text[0] != '\'' && !HasComment(text) && '\n' !in text
    case Commented(comment) =>
      && Tight(text) && text[0] != '"' && text[0] != '\'' && !HasComment(text) && '\n' !in text
      && '\n' !in comment && (comment == "" || !IsSpace(comment[|comment| - 1]))
    case SingleQuoted => '\n' !in text
    case DoubleQuoted => true
  }

  lemma {:induction false} UnquoteDoubled(s: string)
    ensures Unquote(Doubled(s)) == s
  {
    if s != "" {
      UnquoteDoubled(s[1..]);
      var (all, rest) := (Doubled(s), Doubled(s[1..]));
      if s[0] == '\'' {
        assert all[..2] == "''" && all[2..] == rest;
      } else {
        assert all[0] == s[0] && all[1..] == rest;
      }
      assert s == [s[0]] + s[1..];
    }
  }

  lemma {:induction false} NoComment(s: string)
    requires !HasComment(s)
    ensures BeforeComment(s) == s
  {
    if |s| >= 2 {
      assert s[..2] == [s[0], s[1]];
      forall i | 0 <= i < |s[1..]| - 1 ensures s[1..][i] != ' ' || s[1..][i + 1] != '#' {
        assert s[1..][i] == s[i + 1] && s[1..][i + 1] == s[i + 2];
      }
      NoComment(s[1..]);
      assert s == [s[0]] + s[1..];
    }
  }

  lemma {:induction false} CommentIsCut(s: string, comment: string)
    requires !HasComment(s)
    ensures BeforeComment(s + " #" + comment) == s
  {
    var all := s + " #" + comment;
    if s == "" {
      assert all[..2] == " #";
    } else {
      assert all[0] == s[0] && all[1] == if |s| > 1 then s[1] else ' ';
      assert all[..2] == [all[0], all[1]];
      forall i | 0 <= i < |s[1..]| - 1 ensures s[1..][i] != ' ' || s[1..][i + 1] != '#' {
        assert s[1..][i] == s[i + 1] && s[1..][i + 1] == s[i + 2];
      }
      assert all[1..] == s[1..] + " #" + comment;
      CommentIsCut(s[1..], comment);
      assert s == [s[0]] + s[1..];
    }
  }

  lemma {:induction false} DoubledIsOneLine(s: string)
    requires '\n' !in s
    ensures '\n' !in Doubled(s)
  {
    if s != "" {
      DoubledIsOneLine(s[1..]);
    }
  }

  lemma {:induction false} ScalarIsTight(style: Style, text: string)
    requires Fits(style, text) && text != ""
    ensures Tight(Scalar(style, text)) && '\n' !in Scalar(style, text)
  {
    match style
    case Bare =>
    case Commented(comment) =>
      assert Scalar(style, text)[0] == text[0];
    case SingleQuoted =>
      DoubledIsOneLine(text);
    case DoubleQuoted =>
      EscapedIsOneLine(text);
  }

  /** In every style the scalar is read as the path. */
  lemma {:induction false} ScalarRead(style: Style, text: string)
    requires Fits(style, text) && text != ""
    ensures ParseYamlScalar(Scalar(style, text)) == Ok(text)
  {
    match style
    case Bare =>
      NoComment(text);
      TrimTight(text);
    case Commented(comment) =>
      CommentIsCut(text, comment);
      TrimTight(text);
      assert Scalar(style, text)[0] == text[0];
    case SingleQuoted =>
      UnquoteDoubled(text);
      var inner := Scalar(style, text)[1..];
      assert inner == Doubled(text) + "'" && inner[..|inner| - 1] == Doubled(text);
      assert inner[|inner| - 1..] == "'";
    case DoubleQuoted =>
      JsonRoundTrip(text);
  }

  // ---------- Entries ----------

  datatype Item = Item(key: string, style: Style, text: string)

  /** A key that the parser does not take for anything else. */
  predicate OrdinaryKey(key: string) {
    && Tight(key) && key[0] != '#' && '\n' !in key && key != "dependencies" && !HasPrefix(key + ":", "path:")
  }

  ghost predicate Writable(items: seq<Item>) {
    && (forall i :: 0 <= i < |items| ==>
          && OrdinaryKey(items[i].key) && ValidInstallPath(items[i].text) && Fits(items[i].style, items[i].text))
    && forall i, j :: 0 <= i < j < |items| ==> items[i].key != items[j].key
  }

  /** An entry for each item, its key indented by `margin`. */
  function ItemLines(margin: nat, items: seq<Item>): seq<string> {
    if items == [] then []
    else [FirstLine(margin, items[0]), SecondLine(margin, items[0])] + ItemLines(margin, items[1..])
  }

  function TextsOf(items: seq<Item>): (texts: seq<string>)
    ensures |texts| == |items|
  {
    seq(|items|, i requires 0 <= i < |items| => items[i].text)
  }

  lemma {:induction false} KeyShape(margin: nat, key: string)
    requires OrdinaryKey(key)
    ensures var line := Spaces(margin) + key + ":";
      Trim(line) == key + ":" && Leading(line) == margin && '\t' !in line[..margin]
    ensures Trim(key) == key && (key + ":")[..|key|] == key && key + ":" != "dependencies:"
    ensures HasSuffix(key + ":", ":") && (key + ":")[0] == key[0]
  {
    var content := key + ":";
    assert Spaces(margin) + key + ":" == Spaces(margin) + content;
    assert content[0] == key[0] && content[|content| - 1] == ':';
    IndentedLine(margin, content);
    TrimTight(key);
    assert content[..|key|] == key && "dependencies:"[..|"dependencies:"| - 1] == "dependencies";
    assert content[|content| - 1..] == ":";
  }

  lemma {:induction false} KeyRead(p: Parser, margin: nat, key: string)
    requires OrdinaryKey(key) && p.pending.None? && key !in p.keys && margin == if p.documentMode then 2 else 0
    ensures ParseLine(p, Spaces(margin) + key + ":")
         == Ok(p.(keys := p.keys + {key}, sawPackage := true, pending := Some((key, margin))))
  {
    KeyShape(margin, key);
  }

  lemma {:induction false} TextRead(p: Parser, margin: nat, key: string, style: Style, text: string)
    requires p.pending == Some((key, margin)) && ValidInstallPath(text) && Fits(style, text)
    ensures ParseLine(p, Spaces(margin) + "  path: " + Scalar(style, text))
         == Ok(p.(pending := None, paths := Insert(p.paths, text)))
  {
    TextShape(margin, style, text);
    ScalarRead(style, text);
  }

  lemma {:induction false} TextShape(margin: nat, style: Style, text: string)
    requires Fits(style, text) && text != ""
    ensures var (line, content) := (Spaces(margin) + "  path: " + Scalar(style, text), "path: " + Scalar(style, text));
      && Trim(line) == content && Leading(line) == margin + 2 && '\t' !in line[..margin + 2]
      && content[..5] == "path:" && Trim(content[5..]) == Scalar(style, text)
      && content[0] == 'p' && content != "dependencies:"
  {
    ScalarIsTight(style, text);
    PathShape(margin, Scalar(style, text));
  }

  lemma {:induction false} PathShape(margin: nat, scalar: string)
    requires Tight(scalar)
    ensures var (line, content) := (Spaces(margin) + "  path: " + scalar, "path: " + scalar);
      && Trim(line) == content && Leading(line) == margin + 2 && '\t' !in line[..margin + 2]
      && content[..5] == "path:" && Trim(content[5..]) == scalar
      && content[0] == 'p' && content != "dependencies:"
  {
    var content := "path: " + scalar;
    assert Spaces(margin) + "  path: " + scalar == Spaces(margin + 2) + content;
    assert content[0] == 'p' && content[|content| - 1] == scalar[|scalar| - 1];
    IndentedLine(margin + 2, content);
    assert content[..5] == "path:" && content[5..] == Spaces(1) + scalar;
    TrimIndented(1, scalar);
    assert content[0] != "dependencies:"[0];
  }

  function FirstLine(margin: nat, item: Item): string {
    Spaces(margin) + item.key + ":"
  }

  function SecondLine(margin: nat, item: Item): string {
    Spaces(margin) + "  path: " + Scalar(item.style, item.text)
  }

  /** The parser after an item. */
  function AfterItem(p: Parser, item: Item): Parser {
    p.(keys := p.keys + {item.key}, sawPackage := true, pending := None, paths := Insert(p.paths, item.text))
  }

  lemma {:induction false} ItemParsed(p: Parser, margin: nat, item: Item, rest: seq<string>)
    requires OrdinaryKey(item.key) && ValidInstallPath(item.text) && Fits(item.style, item.text)
    requires p.pending.None? && margin == (if p.documentMode then 2 else 0) && item.key !in p.keys
    ensures ParseLines(p, [FirstLine(margin, item), SecondLine(margin, item)] + rest)
         == ParseLines(AfterItem(p, item), rest)
  {
    var q := p.(keys := p.keys + {item.key}, sawPackage := true, pending := Some((item.key, margin)));
    KeyRead(p, margin, item.key);
    TextRead(q, margin, item.key, item.style, item.text);
    ParseTwo(p, FirstLine(margin, item), SecondLine(margin, item), rest, q, AfterItem(p, item));
  }

  lemma {:induction false} WritableTail(items: seq<Item>)
    requires items != [] && Writable(items)
    ensures Writable(items[1..]) && forall i :: 0 <= i < |items[1..]| ==> items[1..][i].key != items[0].key
  {
  }

  lemma {:induction false} ItemsParse(p: Parser, margin: nat, items: seq<Item>)
    requires Writable(items) && p.pending.None? && margin == if p.documentMode then 2 else 0
    requires forall i :: 0 <= i < |items| ==> items[i].key !in p.keys
    ensures var r := ParseLines(p, ItemLines(margin, items));
      r.Ok? && r.value.pending.None? && r.value.paths == InsertAll(p.paths, TextsOf(items))
    decreases |items|
  {
    if items != [] {
      ItemsStep(p, margin, items);
      InsertStep(p.paths, items);
      ItemsParse(AfterItem(p, items[0]), margin, items[1..]);
    }
  }

  lemma {:induction false} ItemsStep(p: Parser, margin: nat, items: seq<Item>)
    requires Writable(items) && items != [] && p.pending.None? && margin == if p.documentMode then 2 else 0
    requires forall i :: 0 <= i < |items| ==> items[i].key !in p.keys
    ensures ParseLines(p, ItemLines(margin, items))
         == ParseLines(AfterItem(p, items[0]), ItemLines(margin, items[1..]))
    ensures Writable(items[1..])
    ensures forall i :: 0 <= i < |items[1..]| ==> items[1..][i].key !in AfterItem(p, items[0]).keys
  {
    ItemParsed(p, margin, items[0], ItemLines(margin, items[1..]));
    WritableTail(items);
    forall i | 0 <= i < |items[1..]| ensures items[1..][i].key !in AfterItem(p, items[0]).keys {
      assert items[1..][i] == items[i + 1];
    }
  }

  lemma {:induction false} InsertStep(paths: Paths, items: seq<Item>)
    requires items != []
    ensures InsertAll(paths, TextsOf(items)) == InsertAll(Insert(paths, items[0].text), TextsOf(items[1..]))
  {
    assert TextsOf(items)[0] == items[0].text && TextsOf(items)[1..] == TextsOf(items[1..]);
  }

  lemma {:induction false} ItemIsClean(margin: nat, item: Item)
    requires OrdinaryKey(item.key) && ValidInstallPath(item.text) && Fits(item.style, item.text)
    ensures forall line :: line in [FirstLine(margin, item), SecondLine(margin, item)] ==>
      '\n' !in line && StripCarriageReturn(line) == line
  {
    ScalarIsTight(item.style, item.text);
    var (first, second, scalar) := (FirstLine(margin, item), SecondLine(margin, item), Scalar(item.style, item.text));
    assert first[|first| - 1] == ':' && second[|second| - 1] == scalar[|scalar| - 1];
  }

  lemma {:induction false} ItemLinesAreClean(margin: nat, items: seq<Item>)
    requires Writable(items)
    ensures forall line :: line in ItemLines(margin, items) ==> '\n' !in line && StripCarriageReturn(line) == line
    decreases |items|
  {
    if items != [] {
      ItemIsClean(margin, items[0]);
      WritableTail(items);
      ItemLinesAreClean(margin, items[1..]);
    }
  }

  /** The fragment: entries at the margin. */
  function Fragment(items: seq<Item>): string {
    Unlines(ItemLines(0, items))
  }

  /** A complete document around the same entries. */
  function Wrapped(items: seq<Item>): string {
    "dependencies:\n" + Unlines(ItemLines(2, items))
  }

  /** The paths are exactly these, by components; if they are all different, in these spellings. */
  ghost predicate AreThePaths(paths: Paths, texts: seq<string>) {
    && (forall root :: root in paths <==> exists i :: 0 <= i < |texts| && Components(texts[i]) == root)
    && (forall root :: root in paths ==> paths[root] in texts && Components(paths[root]) == root)
  }

  lemma {:induction false} InsertedAreThePaths(texts: seq<string>)
    ensures AreThePaths(InsertAll(map[], texts), texts)
  {
    InsertAllValues(map[], texts);
    var paths := InsertAll(map[], texts);
    forall root | root in paths ensures exists i :: 0 <= i < |texts| && Components(texts[i]) == root {
      var i :| 0 <= i < |texts| && texts[i] == paths[root];
    }
  }

  /** The parser finds exactly the listed paths, at the margin and in a document, however they are written. */
  lemma {:induction false} FragmentsParse(items: seq<Item>)
    requires Writable(items) && items != []
    ensures Parse(Fragment(items)).Ok? && AreThePaths(Parse(Fragment(items)).value, TextsOf(items))
    ensures Parse(Wrapped(items)) == Parse(Fragment(items))
  {
    var texts := TextsOf(items);
    InsertedAreThePaths(texts);
    assert Components(texts[0]) in InsertAll(map[], texts);
    FragmentParses(items);
    WrappedParses(items);
  }

  lemma {:induction false} FragmentParses(items: seq<Item>)
    requires Writable(items) && items != [] && InsertAll(map[], TextsOf(items)) != map[]
    ensures Parse(Fragment(items)) == Ok(InsertAll(map[], TextsOf(items)))
  {
    ItemLinesAreClean(0, items);
    LinesOfUnlines(ItemLines(0, items));
    ItemsParse(START, 0, items);
  }

  lemma {:induction false} WrappedParses(items: seq<Item>)
    requires Writable(items) && items != [] && InsertAll(map[], TextsOf(items)) != map[]
    ensures Parse(Wrapped(items)) == Ok(InsertAll(map[], TextsOf(items)))
  {
    WrappedLines(items);
    ItemsParse(START.(documentMode := true), 2, items);
  }

  lemma {:induction false} WrappedLines(items: seq<Item>)
    requires Writable(items)
    ensures ParseLines(START, Lines(Wrapped(items)))
         == ParseLines(START.(documentMode := true), ItemLines(2, items))
  {
    var lines := ItemLines(2, items);
    ItemLinesAreClean(2, items);
    HeaderLine();
    RenderedLines("dependencies:", lines);
    ParseMore(START, "dependencies:", lines);
    assert "dependencies:" + "\n" == "dependencies:\n";
  }

  // ---------- Rewriting fragments ----------

  /** Every listed package declares a name, and no two of them the same. */
  ghost predicate DeclareDistinctly(project: Project, items: seq<Item>) {
    && (forall i :: 0 <= i < |items| ==> NameAt(project, Components(items[i].text)).Ok?)
    && forall i, j :: 0 <= i < |items| && 0 <= j < |items| && Components(items[i].text) != Components(items[j].text) ==>
      NameAt(project, Components(items[i].text)) != NameAt(project, Components(items[j].text))
  }

  /** What the installer wrote can be rewritten exactly if the packages declare different names. */
  lemma {:induction false} FragmentsAreRewritten(project: Project, items: seq<Item>)
    requires Writable(items) && items != []
    ensures (exists output :: Rewritten(project, Fragment(items), output)) <==> DeclareDistinctly(project, items)
  {
    FragmentsParse(items);
    var (paths, texts) := (Parse(Fragment(items)).value, TextsOf(items));
    forall i | 0 <= i < |items| ensures Components(items[i].text) in paths {
      assert texts[i] == items[i].text;
    }
    forall root | root in paths ensures exists i :: 0 <= i < |items| && Components(items[i].text) == root {
      var i :| 0 <= i < |texts| && Components(texts[i]) == root;
      assert items[i].text == texts[i];
    }
    if DeclareDistinctly(project, items) {
      var output := SomeOutput(project, paths);
      assert Rewritten(project, Fragment(items), output);
    } else {
      forall output ensures !Rewritten(project, Fragment(items), output) {
        if Rewritten(project, Fragment(items), output) {
          var names, dependencies: map<string, string> :| Outputs(project, paths, names, dependencies, output);
          forall i | 0 <= i < |items| ensures NameAt(project, Components(items[i].text)).Ok? {
            assert Declares(project, paths, dependencies, Components(items[i].text));
          }
        }
      }
    }
  }

  /** Paths whose packages declare different names have an output. */
  lemma {:induction false} SomeOutput(project: Project, paths: Paths) returns (output: string)
    requires forall root :: root in paths ==> NameAt(project, root).Ok?
    requires forall r1, r2 :: r1 in paths && r2 in paths && r1 != r2 ==> NameAt(project, r1) != NameAt(project, r2)
    ensures exists names, dependencies: map<string, string> :: Outputs(project, paths, names, dependencies, output)
  {
    var keys := set root | root in paths :: NameAt(project, root).value;
    var dependencies := map name | name in keys :: paths[RootOf(project, paths, name)];
    forall root | root in paths ensures Declares(project, paths, dependencies, root) {
      assert NameAt(project, root).value in keys;
    }
    forall name | name in dependencies ensures exists root :: root in paths && NameAt(project, root) == Ok(name) {
      var root :| root in paths && NameAt(project, root).value == name;
    }
    var names := Sorted(dependencies.Keys);
    output := Render(names, dependencies);
    assert Outputs(project, paths, names, dependencies, output);
  }

  ghost function RootOf(project: Project, paths: Paths, name: string): (root: seq<string>)
    requires exists root :: root in paths && NameAt(project, root).Ok? && NameAt(project, root).value == name
    ensures root in paths && NameAt(project, root) == Ok(name)
  {
    var root :| root in paths && NameAt(project, root).Ok? && NameAt(project, root).value == name;
    root
  }

  /** Any finite set of names has an order. */
  lemma {:induction false} Sorted(keys: set<string>) returns (names: seq<string>)
    ensures InOrder(names, keys)
    decreases |keys|
  {
    names := [];
    if keys != {} {
      var last := Greatest(keys);
      var before := Sorted(keys - {last});
      names := before + [last];
      forall i, j | 0 <= i < j < |names| ensures Below(names[i], names[j]) {
        if j == |before| {
          assert before[i] in before;
        }
      }
    }
  }

  lemma {:induction false} Greatest(keys: set<string>) returns (last: string)
    requires keys != {}
    ensures last in keys && forall name :: name in keys && name != last ==> Below(name, last)
    decreases |keys|
  {
    var name :| name in keys;
    last := name;
    if keys != {name} {
      var other := Greatest(keys - {name});
      BelowTotal(name, other);
      if Below(name, other) {
        last := other;
      } else {
        forall third | third in keys && third != name ensures Below(third, name) {
          if third != other {
            BelowTransitive(third, other, name);
          }
        }
      }
    }
  }

  // ---------- Paths, names and the output in plain text ----------

  function Joined(pieces: seq<string>): string {
    if pieces == [] then "" else if |pieces| == 1 then pieces[0] else pieces[0] + "/" + Joined(pieces[1..])
  }

  predicate OrdinaryPiece(piece: string) {
    piece != "" && piece !in {".", ".."} && '/' !in piece
  }

  /** Ordinary pieces joined by slashes are a valid path with these components, and with `..` they are not. */
  lemma {:induction false} JoinedPieces(pieces: seq<string>)
    requires pieces != [] && forall i :: 0 <= i < |pieces| ==> OrdinaryPiece(pieces[i]) || pieces[i] == ".."
    ensures Split(Joined(pieces), '/') == pieces && Components(Joined(pieces)) == pieces
    ensures ValidInstallPath(Joined(pieces)) <==> ".." !in pieces
    ensures !ValidInstallPath("/" + Joined(pieces)) && !ValidInstallPath("./" + Joined(pieces))
  {
    SplitJoined(pieces);
    KeptAll(pieces);
    FirstCharacter(pieces);
    AnchoredIsRefused(Joined(pieces));
  }

  lemma {:induction false} AnchoredIsRefused(text: string)
    ensures !ValidInstallPath("/" + text) && !ValidInstallPath("./" + text)
  {
    SplitAt(".", '/', text);
    assert "." + ['/'] + text == "./" + text;
  }

  lemma {:induction false} SplitJoined(pieces: seq<string>)
    requires pieces != [] && forall i :: 0 <= i < |pieces| ==> '/' !in pieces[i]
    ensures Split(Joined(pieces), '/') == pieces
  {
    if |pieces| == 1 {
      assert IndexOf(pieces[0], '/') == |pieces[0]|;
    } else {
      SplitJoined(pieces[1..]);
      SplitAt(pieces[0], '/', Joined(pieces[1..]));
      assert pieces[0] + ['/'] + Joined(pieces[1..]) == Joined(pieces);
    }
  }

  lemma {:induction false} KeptAll(pieces: seq<string>)
    requires forall i :: 0 <= i < |pieces| ==> pieces[i] != "" && pieces[i] != "."
    ensures Kept(pieces) == pieces
  {
    if pieces != [] {
      KeptAll(pieces[1..]);
    }
  }

  lemma {:induction false} FirstCharacter(pieces: seq<string>)
    requires pieces != [] && pieces[0] != "" && '/' !in pieces[0]
    ensures Joined(pieces) != "" && Joined(pieces)[0] != '/'
  {
    assert Joined(pieces)[0] == pieces[0][0] && pieces[0][0] in pieces[0];
  }

  /** A line that says nothing about the name: indented, or about something else. */
  predicate OtherLine(line: string) {
    && '\n' !in line && (line == "" || line[|line| - 1] != '\r') && !HasPrefix(line, "\U{FEFF}")
    && (HasPrefix(line, " ") || HasPrefix(line, "\t") || !HasPrefix(Trim(line), "name:"))
  }

  /** The declared name is the one on the line that says `name:`. */
  lemma {:induction false} PubspecNames(before: seq<string>, name: string, after: seq<string>)
    requires IsValidPubName(name) && AllOther(before) && AllOther(after)
    ensures DeclaredName(Unlines(before + (["name: " + name] + after))) == Ok(name)
  {
    LinesKept(before, name, after);
    OthersSkipped(None, before, ["name: " + name] + after);
    NameTaken(None, name, after);
    OthersSkipped(Some(name), after, []);
    assert after + [] == after;
  }

  /** With a second such line there is none. */
  lemma {:induction false} PubspecNamesTwice(
      before: seq<string>, name: string, between: seq<string>, second: string, after: seq<string>)
    requires IsValidPubName(name) && IsValidPubName(second) && AllOther(before) && AllOther(between) && AllOther(after)
    ensures DeclaredName(Unlines(before + (["name: " + name] + (between + (["name: " + second] + after))))) == Err
  {
    var rest := ["name: " + second] + after;
    LinesKeptTwice(before, name, between, second, after);
    OthersSkipped(None, before, ["name: " + name] + (between + rest));
    NameTaken(None, name, between + rest);
    OthersSkipped(Some(name), between, rest);
    NameTaken(Some(name), second, after);
  }

  /** Nor without one. */
  lemma {:induction false} PubspecWithoutName(lines: seq<string>)
    requires AllOther(lines)
    ensures DeclaredName(Unlines(lines)) == Err
  {
    LinesOfUnlines(lines);
    OthersSkipped(None, lines, []);
    assert lines + [] == lines;
  }

  predicate AllOther(lines: seq<string>) {
    forall line :: line in lines ==> OtherLine(line)
  }

  lemma {:induction false} LinesKept(before: seq<string>, name: string, after: seq<string>)
    requires IsValidPubName(name) && AllOther(before) && AllOther(after)
    ensures var all := before + (["name: " + name] + after); Lines(Unlines(all)) == all
  {
    NameIsClean(name);
    LinesOfUnlines(before + (["name: " + name] + after));
  }

  lemma {:induction false} LinesKeptTwice(
      before: seq<string>, name: string, between: seq<string>, second: string, after: seq<string>)
    requires IsValidPubName(name) && IsValidPubName(second) && AllOther(before) && AllOther(between) && AllOther(after)
    ensures var all := before + (["name: " + name] + (between + (["name: " + second] + after)));
      Lines(Unlines(all)) == all
  {
    NameIsClean(name);
    NameIsClean(second);
    LinesOfUnlines(before + (["name: " + name] + (between + (["name: " + second] + after))));
  }

  lemma {:induction false} NameTaken(declared: Option<string>, name: string, rest: seq<string>)
    requires IsValidPubName(name)
    ensures DeclaredIn(declared, ["name: " + name] + rest)
         == if declared.None? then DeclaredIn(Some(name), rest) else Err
  {
    var lines := ["name: " + name] + rest;
    assert lines[1..] == rest && lines[0] == "name: " + name;
    NameStep(name, lines[0]);
  }

  lemma {:induction false} NameIsClean(name: string)
    requires IsValidPubName(name)
    ensures '\n' !in "name: " + name && StripCarriageReturn("name: " + name) == "name: " + name
  {
    var line := "name: " + name;
    assert line[|line| - 1] == name[|name| - 1] && name[|name| - 1] in name;
  }

  lemma {:induction false} OthersSkipped(declared: Option<string>, others: seq<string>, lines: seq<string>)
    requires AllOther(others)
    ensures DeclaredIn(declared, others + lines) == DeclaredIn(declared, lines)
  {
    if others == [] {
      assert others + lines == lines;
    } else {
      var line := others[0];
      assert OtherLine(line);
      assert HasPrefix(line, " ") ==> line[..1] == " " && line[0] == ' ';
      assert HasPrefix(line, "\t") ==> line[..1] == "\t" && line[0] == '\t';
      assert DeclaredStep(declared, line) == Ok(declared);
      assert (others + lines)[1..] == others[1..] + lines;
      OthersSkipped(declared, others[1..], lines);
    }
  }

  /** Names of pub packages. */
  lemma {:induction false} PubNames()
    ensures IsValidPubName("zed_pkg_test_dart_lib2") && !IsValidPubName("") && !IsValidPubName("Dart")
    ensures !IsValidPubName("2d") && !IsValidPubName("_a") && !IsValidPubName("dart-lib") && !IsValidPubName("a.b")
  {
    assert "Dart"[0] == 'D' && "2d"[0] == '2' && "_a"[0] == '_' && "dart-lib"[4] == '-' && "a.b"[1] == '.';
    assert '-' in "dart-lib" && '.' in "a.b";
  }

  /** No character that JSON would spell otherwise. */
  predicate Verbatim(text: string) {
    forall c :: c in text ==> c >= ' ' && c != '"' && c != '\\'
  }

  lemma {:induction false} NothingEscaped(text: string)
    requires Verbatim(text)
    ensures EscapeAll(text) == text
  {
    if text != "" {
      assert Escape(text[0]) == [text[0]] by {
        assert text[0] in text;
      }
      forall c | c in text[1..] ensures c >= ' ' && c != '"' && c != '\\' {
        assert c in text;
      }
      NothingEscaped(text[1..]);
      assert text == [text[0]] + text[1..];
    }
  }

  /** A fragment about one package, and what it becomes. */
  lemma {:induction false} OneItemRewritten(key: string, style: Style, text: string, name: string, output: string)
    requires OrdinaryKey(key) && ValidInstallPath(text) && Fits(style, text) && Verbatim(text) && IsValidPubName(name)
    requires Rewritten(OnePackage(Components(text), name), Fragment([Item(key, style, text)]), output)
    ensures output == "dependencies:\n  " + name + ":\n    path: \"" + text + "\"\n"
  {
    var project := OnePackage(Components(text), name);
    assert '\\' !in text;
    OneItemParses(key, style, text);
    OnePackageRewritten(Components(text), name, Fragment([Item(key, style, text)]), text);
    OneOutput(project, Fragment([Item(key, style, text)]), output, Document([name], [text]));
    OneLineDocument(name, text);
  }

  /** A document is rewritten in one way. */
  lemma {:induction false} OneOutput(project: Project, document: string, o1: string, o2: string)
    requires Rewritten(project, document, o1) && Rewritten(project, document, o2)
    ensures o1 == o2
  {
    var paths := Parse(document).value;
    var n1, d1: map<string, string> :| Outputs(project, paths, n1, d1, o1);
    var n2, d2: map<string, string> :| Outputs(project, paths, n2, d2, o2);
    OutputIsUnique(project, paths, n1, d1, o1, n2, d2, o2);
  }

  lemma {:induction false} OneLineDocument(name: string, text: string)
    requires Verbatim(text)
    ensures Document([name], [text]) == "dependencies:\n  " + name + ":\n    path: \"" + text + "\"\n"
  {
    NothingEscaped(text);
    var (first, second) := ("  " + name + ":", "    path: " + JsonString(text));
    assert [name][1..] == [] && RenderLines([name], [text]) == [first, second];
    TwoLines(first, second);
    Assembled(name, text);
  }

  lemma {:induction false} Assembled(name: string, text: string)
    ensures "dependencies:\n" + (("  " + name + ":") + "\n" + (("    path: " + ("\"" + text + "\"")) + "\n"))
         == "dependencies:\n  " + name + ":\n    path: \"" + text + "\"\n"
  {
  }

  lemma {:induction false} TwoLines(first: string, second: string)
    ensures Unlines([first, second]) == first + "\n" + (second + "\n")
  {
    assert Unlines([]) == "" && [second][1..] == [];
    assert Unlines([second]) == second + "\n" + "";
    assert [first, second][1..] == [second];
  }

  lemma {:induction false} OneItemParses(key: string, style: Style, text: string)
    requires OrdinaryKey(key) && ValidInstallPath(text) && Fits(style, text)
    ensures Parse(Fragment([Item(key, style, text)])) == Ok(map[Components(text) := text])
  {
    var items := [Item(key, style, text)];
    FragmentsParse(items);
    var paths := Parse(Fragment(items)).value;
    assert TextsOf(items) == [text] && TextsOf(items)[0] == text;
    assert Components(text) in paths && paths[Components(text)] == text;
    assert paths == map[Components(text) := text];
  }

  // ---------- What the parser refuses ----------

  /** Blank lines and comments say nothing. */
  lemma {:induction false} CommentsAreSkipped(p: Parser, margin: nat, comment: string)
    requires comment == "" || !IsSpace(comment[|comment| - 1])
    ensures ParseLine(p, Spaces(margin) + "#" + comment) == Ok(p) && ParseLine(p, "") == Ok(p)
  {
    assert Spaces(margin) + "#" + comment == Spaces(margin) + ("#" + comment);
    TrimIndented(margin, "#" + comment);
  }

  /** A tab in front of anything else. */
  lemma {:induction false} TabsAreRefused(p: Parser, content: string)
    requires Tight(content) && content[0] != '#'
    ensures ParseLine(p, "\t" + content) == Err
  {
    var line := "\t" + content;
    assert line[1..] == content && line[0] == '\t';
    TrimTight(content);
    assert Trim(line) == content;
    assert line[..Leading(line)][0] == '\t';
  }

  /** A key where none may stand: at another margin, a second time, or before the last one has its path. */
  lemma {:induction false} KeysAreRefused(p: Parser, margin: nat, key: string)
    requires OrdinaryKey(key)
    requires margin != (if p.documentMode then 2 else 0) || key in p.keys || p.pending.Some?
    ensures ParseLine(p, Spaces(margin) + key + ":") == Err
  {
    KeyShape(margin, key);
  }

  /** A path without a key, not two spaces below it, or that leaves the project. */
  lemma {:induction false} TextsAreRefused(p: Parser, margin: nat, style: Style, text: string)
    requires Fits(style, text) && text != ""
    requires p.pending.None? || margin != p.pending.value.1 || !ValidInstallPath(text)
    ensures ParseLine(p, Spaces(margin) + "  path: " + Scalar(style, text)) == Err
  {
    TextShape(margin, style, text);
    ScalarRead(style, text);
  }

  /** The header anywhere but once at the top, at the margin. */
  lemma {:induction false} HeadersAreRefused(p: Parser, margin: nat)
    requires margin != 0 || p.documentMode || p.sawPackage || p.pending.Some?
    ensures ParseLine(p, Spaces(margin) + "dependencies:") == Err
  {
    IndentedLine(margin, "dependencies:");
  }

  /** Anything else. */
  lemma {:induction false} OthersAreRefused(p: Parser, margin: nat, content: string)
    requires Tight(content) && content[0] != '#' && content[|content| - 1] != ':' && !HasPrefix(content, "path:")
    ensures ParseLine(p, Spaces(margin) + content) == Err
  {
    IndentedLine(margin, content);
    assert "dependencies:"[|"dependencies:"| - 1] == ':';
    assert content[|content| - 1..][0] == content[|content| - 1];
  }

  /** A list without paths, or whose last key has none. */
  lemma {:induction false} UnfinishedIsRefused(items: seq<Item>, key: string)
    requires Writable(items) && OrdinaryKey(key) && forall i :: 0 <= i < |items| ==> items[i].key != key
    ensures Parse("") == Err && Parse(Unlines(ItemLines(0, items) + [key + ":"])) == Err
  {
    var (lines, last) := (ItemLines(0, items), key + ":");
    ItemLinesAreClean(0, items);
    assert last[|last| - 1] == ':' && '\n' !in last && StripCarriageReturn(last) == last;
    LinesOfUnlines(lines + [last]);
    EndsPending(START, items, key);
  }

  lemma {:induction false} EndsPending(p: Parser, items: seq<Item>, key: string)
    requires Writable(items) && OrdinaryKey(key) && p.pending.None? && !p.documentMode
    requires forall i :: 0 <= i < |items| ==> items[i].key != key && items[i].key !in p.keys
    ensures var r := ParseLines(p, ItemLines(0, items) + [key + ":"]); r.Err? || r.value.pending.Some?
    decreases |items|
  {
    if items == [] {
      assert ItemLines(0, items) + [key + ":"] == [key + ":"];
      KeyAlone(p, key);
    } else {
      var rest := ItemLines(0, items[1..]) + [key + ":"];
      ItemParsed(p, 0, items[0], rest);
      assert ItemLines(0, items) + [key + ":"] == [FirstLine(0, items[0]), SecondLine(0, items[0])] + rest;
      WritableTail(items);
      StillFree(p, items, key);
      EndsPending(AfterItem(p, items[0]), items[1..], key);
    }
  }

  lemma {:induction false} StillFree(p: Parser, items: seq<Item>, key: string)
    requires Writable(items) && items != []
    requires forall i :: 0 <= i < |items| ==> items[i].key != key && items[i].key !in p.keys
    ensures forall i :: 0 <= i < |items[1..]| ==>
      items[1..][i].key != key && items[1..][i].key !in AfterItem(p, items[0]).keys
  {
    forall i | 0 <= i < |items[1..]|
      ensures items[1..][i].key != key && items[1..][i].key !in AfterItem(p, items[0]).keys
    {
      assert items[1..][i] == items[i + 1];
    }
  }

  lemma {:induction false} KeyAlone(p: Parser, key: string)
    requires OrdinaryKey(key) && p.pending.None? && !p.documentMode
    ensures var r := ParseLines(p, [key + ":"]); r.Err? || r.value.pending.Some?
  {
    assert Spaces(0) + key + ":" == key + ":" && [key + ":"][1..] == [];
    if key in p.keys {
      KeysAreRefused(p, 0, key);
    } else {
      KeyRead(p, 0, key);
    }
  }

  /** Backslashes are written as slashes. */
  lemma {:induction false} BackslashesBecomeSlashes(root: seq<string>, name: string, document: string, text: string)
    requires IsValidPubName(name) && Parse(document) == Ok(map[root := text])
    ensures Rewritten(OnePackage(root, name), document,
      Document([name], [seq(|text|, i requires 0 <= i < |text| => if text[i] == '\\' then '/' else text[i])]))
  {
    PubspecDeclares(name);
    var (project, paths, dependencies) := (OnePackage(root, name), map[root := text], map[name := text]);
    assert root in paths && NameAt(project, root) == Ok(name);
    assert AreDependencies(project, paths, dependencies) && InOrder([name], dependencies.Keys);
    var slashed := seq(|text|, i requires 0 <= i < |text| => if text[i] == '\\' then '/' else text[i]);
    assert Portable(text) == slashed;
    assert Texts([name], dependencies) == [slashed];
    assert Outputs(project, paths, [name], dependencies, Document([name], [slashed]));
  }

  /** A byte order mark in front of the line does not matter. */
  lemma {:induction false} MarkIsSkipped(name: string)
    requires IsValidPubName(name)
    ensures DeclaredStep(None, "\U{FEFF}" + ("name: " + name)) == Ok(Some(name))
  {
    var line := "\U{FEFF}" + ("name: " + name);
    assert line[..1] == "\U{FEFF}" && line[1..] == "name: " + name;
    NameStep(name, "name: " + name);
    assert !HasPrefix("name: " + name, "\U{FEFF}") by {
      assert ("name: " + name)[..1][0] == 'n';
    }
  }

  /** Scalars without text, and quotes that do not end. */
  lemma {:induction false} ScalarsAreRefused(text: string)
    ensures ParseYamlScalar("") == Err
    ensures text == "" || text[|text| - 1] != '\'' ==> ParseYamlScalar("'" + text) == Err
    ensures '"' !in text ==> ParseYamlScalar("\"" + text) == Err
  {
    if text == "" || text[|text| - 1] != '\'' {
      SingleNotEnded(text);
    }
    if '"' !in text {
      DoubleNotEnded(text);
    }
  }

  lemma {:induction false} SingleNotEnded(text: string)
    requires text == "" || text[|text| - 1] != '\''
    ensures ParseYamlScalar("'" + text) == Err
  {
    var value := "'" + text;
    assert value[0] == '\'' && value[1..] == text;
    assert text != "" ==> text[|text| - 1..][0] == text[|text| - 1];
  }

  lemma {:induction false} DoubleNotEnded(text: string)
    requires '"' !in text
    ensures ParseYamlScalar("\"" + text) == Err
  {
    var value := "\"" + text;
    assert value[0] == '"' && value[1..] == text;
    NeverClosed(text);
  }

  lemma {:induction false} NeverClosed(s: string)
    requires '"' !in s
    ensures Unescape(s) == None
    decreases |s|
  {
    if s != "" {
      assert s[0] in s;
      NeverClosed(s[1..]);
      if |s| >= 2 {
        assert s[1] in s;
        NeverClosed(s[2..]);
      }
      if |s| >= 6 {
        NeverClosed(s[6..]);
      }
      if |s| >= 12 {
        NeverClosed(s[12..]);
      }
    }
  }

  /** A slash separates components, and pieces that are empty or a single dot are none. */
  lemma {:induction false} SlashesSeparate(head: string, tail: string, piece: string)
    ensures Components(head + "/" + tail) == Components(head) + Components(tail)
    ensures Components("") == [] && Components(".") == []
    ensures OrdinaryPiece(piece) ==> Components(piece) == [piece]
  {
    SplitBoth(head, tail);
    KeptBoth(Split(head, '/'), Split(tail, '/'));
    SplitJoined([""]);
    SplitJoined(["."]);
    assert Kept([""]) == Kept([""][1..]) && Kept(["."]) == Kept(["."][1..]);
    if OrdinaryPiece(piece) {
      SplitJoined([piece]);
      KeptAll([piece]);
    }
  }

  lemma {:induction false} SplitBoth(head: string, tail: string)
    ensures Split(head + "/" + tail, '/') == Split(head, '/') + Split(tail, '/')
    decreases |head|
  {
    var i := IndexOf(head, '/');
    if i == |head| {
      SplitAt(head, '/', tail);
    } else {
      SplitFirst(head, tail, i);
      SplitBoth(head[i + 1..], tail);
      Associate([head[..i]], Split(head[i + 1..], '/'), Split(tail, '/'));
    }
  }

  lemma {:induction false} SplitFirst(head: string, tail: string, i: nat)
    requires i < |head| && head[i] == '/' && '/' !in head[..i]
    ensures Split(head, '/') == [head[..i]] + Split(head[i + 1..], '/')
    ensures Split(head + "/" + tail, '/') == [head[..i]] + Split(head[i + 1..] + "/" + tail, '/')
  {
    assert head == head[..i] + ['/'] + head[i + 1..];
    SplitAt(head[..i], '/', head[i + 1..]);
    SplitLater(head[..i], head[i + 1..], tail);
  }

  lemma {:induction false} SplitLater(first: string, rest: string, tail: string)
    requires '/' !in first
    ensures Split(first + ['/'] + rest + "/" + tail, '/') == [first] + Split(rest + "/" + tail, '/')
  {
    SplitAt(first, '/', rest + "/" + tail);
    assert first + ['/'] + rest + "/" + tail == first + ['/'] + (rest + "/" + tail);
  }

  lemma {:induction false} Associate(x: seq<string>, y: seq<string>, z: seq<string>)
    ensures x + (y + z) == x + y + z
  {
  }

  lemma {:induction false} KeptBoth(left: seq<string>, right: seq<string>)
    ensures Kept(left + right) == Kept(left) + Kept(right)
  {
    if left == [] {
      assert left + right == right;
    } else {
      assert (left + right)[1..] == left[1..] + right;
      KeptBoth(left[1..], right);
    }
  }

  /** The lines of entry `i`. */
  predicate EntryAt(lines: seq<string>, i: nat, name: string, text: string) {
    |lines| > 2 + 2 * i && lines[1 + 2 * i] == "  " + name + ":" && lines[2 + 2 * i] == "    path: " + JsonString(text)
  }

  /** An output is a header and two lines for each name. */
  lemma {:induction false} OutputLines(
      project: Project, paths: Paths, names: seq<string>, dependencies: map<string, string>, output: string)
    requires Outputs(project, paths, names, dependencies, output) && WellKeyed(paths) && Plain(paths)
    ensures |Lines(output)| == 1 + 2 * |names| && Lines(output)[0] == "dependencies:"
    ensures forall i :: 0 <= i < |names| ==>
      names[i] in dependencies && EntryAt(Lines(output), i, names[i], dependencies[names[i]])
  {
    var texts := Texts(names, dependencies);
    OutputsAreRenderable(project, paths, names, dependencies, output);
    OutputIsLines(names, texts, output);
    LinesByName(names, texts);
    forall i | 0 <= i < |names|
      ensures names[i] in dependencies && EntryAt(Lines(output), i, names[i], dependencies[names[i]])
    {
      TextIsPlain(project, paths, names, dependencies, output, i);
      EntryIs(names, texts, Lines(output), i);
    }
  }

  lemma {:induction false} EntryIs(names: seq<string>, texts: seq<string>, lines: seq<string>, i: nat)
    requires |texts| == |names| && i < |names| && lines == ["dependencies:"] + RenderLines(names, texts)
    ensures EntryAt(lines, i, names[i], texts[i])
  {
    LinesByName(names, texts);
    assert lines[1 + 2 * i] == RenderLines(names, texts)[2 * i];
    assert lines[2 + 2 * i] == RenderLines(names, texts)[2 * i + 1];
  }

  lemma {:induction false} OutputIsLines(names: seq<string>, texts: seq<string>, output: string)
    requires Renderable(names, texts) && output == Document(names, texts)
    ensures Lines(output) == ["dependencies:"] + RenderLines(names, texts)
  {
    HeaderLine();
    RenderedLinesAreClean(names, texts);
    RenderedLines("dependencies:", RenderLines(names, texts));
    assert "dependencies:" + "\n" == "dependencies:\n";
  }

  lemma {:induction false} TextIsPlain(
      project: Project, paths: Paths, names: seq<string>, dependencies: map<string, string>, output: string, i: nat)
    requires Outputs(project, paths, names, dependencies, output) && WellKeyed(paths) && Plain(paths)
    requires i < |names|
    ensures names[i] in dependencies && Texts(names, dependencies)[i] == dependencies[names[i]]
  {
    assert names[i] in names;
    var root :| root in paths && NameAt(project, root) == Ok(names[i]);
    assert Declares(project, paths, dependencies, root);
    PortablePlain(paths[root]);
  }

  /** The names ascend, a prefix first. */
  lemma {:induction false} OutputsAscend(
      project: Project, paths: Paths, names: seq<string>, dependencies: map<string, string>, output: string)
    requires Outputs(project, paths, names, dependencies, output)
    ensures forall i, j :: 0 <= i < j < |names| ==> names[i] < names[j] || DecidedBelow(names[i], names[j])
  {
    forall i, j | 0 <= i < j < |names| ensures names[i] < names[j] || DecidedBelow(names[i], names[j]) {
      BelowExactly(names[i], names[j]);
    }
  }

  /** The first character that differs is the smaller one. */
  predicate DecidedBelow(a: string, b: string) {
    exists i :: 0 <= i < |a| && i < |b| && a[..i] == b[..i] && a[i] < b[i]
  }

  lemma {:induction false} LinesByName(names: seq<string>, texts: seq<string>)
    requires |texts| == |names|
    ensures |RenderLines(names, texts)| == 2 * |names|
    ensures forall i :: 0 <= i < |names| ==>
      && RenderLines(names, texts)[2 * i] == "  " + names[i] + ":"
      && RenderLines(names, texts)[2 * i + 1] == "    path: " + JsonString(texts[i])
    decreases |names|
  {
    if names != [] {
      var rest := RenderLines(names[1..], texts[1..]);
      LinesByName(names[1..], texts[1..]);
      forall i | 0 <= i < |names|
        ensures RenderLines(names, texts)[2 * i] == "  " + names[i] + ":"
        ensures RenderLines(names, texts)[2 * i + 1] == "    path: " + JsonString(texts[i])
      {
        if i > 0 {
          assert rest[2 * (i - 1)] == "  " + names[1..][i - 1] + ":";
          assert rest[2 * (i - 1) + 1] == "    path: " + JsonString(texts[1..][i - 1]);
        }
      }
    }
  }
}
