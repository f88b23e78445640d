/**
 `.zed/pub-deps.yaml`: a provisional list of installed Dart packages is rewritten
 under the names the packages declare.
 */
module DartWiring {
  import opened Wrappers
  import opened Enumerations
  import opened Strings

  // ---------- Install paths ----------

  function Kept(pieces: seq<string>): seq<string> {
    if pieces == [] then []
    else if pieces[0] == "" || pieces[0] == "." then Kept(pieces[1..])
    else [pieces[0]] + Kept(pieces[1..])
  }

  /** Paths are compared by their components. */
  function Components(path: string): seq<string> {
    Kept(Split(path, '/'))
  }

  predicate ValidInstallPath(path: string) {
    path != "" && path[0] != '/' && Split(path, '/')[0] != "." && ".." !in Split(path, '/')
  }

  function Portable(path: string): string {
    Replace(path, '\\', '/')
  }

  // ---------- Scalars and names ----------

  function ParseYamlScalar(value: string): Result<string> {
    if value == "" then Err
    else if value[0] == '"' then
      var parsed := ParseJsonString(value);
      if parsed.Some? then Ok(parsed.value) else Err
    else if value[0] == '\'' then
      var inner := value[1..];
      if HasSuffix(inner, "'") then Ok(Unquote(inner[..|inner| - 1])) else Err
    else
      var unquoted := Trim(BeforeComment(value));
      if unquoted == "" then Err else Ok(unquoted)
  }

  predicate IsValidPubName(name: string) {
    && name != "" && 'a' <= name[0] <= 'z'
    && forall c :: c in name ==> 'a' <= c <= 'z' || '0' <= c <= '9' || c == '_'
  }

  /** One line of a `pubspec.yaml`, given the name declared so far. */
  function DeclaredStep(declared: Option<string>, raw: string): Result<Option<string>> {
    var line := if HasPrefix(raw, "\U{FEFF}") then raw[1..] else raw;
    var trimmed := Trim(line);
    if line != "" && (line[0] == ' ' || line[0] == '\t') then Ok(declared)
    else if trimmed == "" || trimmed[0] == '#' || trimmed == "---" || !HasPrefix(trimmed, "name:") then Ok(declared)
    else
      var name := ParseYamlScalar(Trim(trimmed[5..]));
      if name.Err? || !IsValidPubName(name.value) || declared.Some? then Err else Ok(Some(name.value))
  }

  function DeclaredIn(declared: Option<string>, lines: seq<string>): Result<string>
    decreases |lines|
  {
    if lines == [] then (if declared.Some? then Ok(declared.value) else Err)
    else
      var next := DeclaredStep(declared, lines[0]);
      if next.Err? then Err else DeclaredIn(next.value, lines[1..])
  }

  function DeclaredName(pubspec: string): Result<string> {
    DeclaredIn(None, Lines(pubspec))
  }

  lemma {:induction false} DeclaredNamesAreValid(declared: Option<string>, lines: seq<string>)
    requires declared.Some? ==> IsValidPubName(declared.value)
    ensures DeclaredIn(declared, lines).Ok? ==> IsValidPubName(DeclaredIn(declared, lines).value)
    decreases |lines|
  {
    if lines != [] && DeclaredStep(declared, lines[0]).Ok? {
      DeclaredNamesAreValid(DeclaredStep(declared, lines[0]).value, lines[1..]);
    }
  }

  method DeclaredPubName(pubspec: string) returns (r: Result<string>)
    ensures r == DeclaredName(pubspec)
    ensures r.Ok? ==> IsValidPubName(r.value)
  {
    DeclaredNamesAreValid(None, Lines(pubspec));
    var lines := Lines(pubspec);
    var declared := None;
    for i := 0 to |lines|
      invariant DeclaredIn(None, lines) == DeclaredIn(declared, lines[i..])
    {
      assert lines[i..][1..] == lines[i + 1..];
      var next := DeclaredStep(declared, lines[i]);
      if next.Err? {
        return Err;
      }
      declared := next.value;
    }
    r := if declared.Some? then Ok(declared.value) else Err;
  }

  // ---------- Parsing the wiring file ----------

  /** Installed paths by components, each with its first spelling. */
  type Paths = map<seq<string>, string>

  datatype Parser = Parser(
    paths: Paths, keys: set<string>, pending: Option<(string, nat)>, documentMode: bool, sawPackage: bool)

  const START := Parser(map[], {}, None, false, false)

  function Insert(paths: Paths, path: string): Paths {
    if Components(path) in paths then paths else paths[Components(path) := path]
  }

  predicate Ignored(trimmed: string) {
    trimmed == "" || trimmed[0] == '#'
  }

  function ParseLine(p: Parser, raw: string): Result<Parser> {
    var trimmed := Trim(raw);
    var indent := Leading(raw);
    if Ignored(trimmed) then Ok(p)
    else if '\t' in raw[..indent] then Err
    else if trimmed == "dependencies:" then
      if p.pending.Some? || p.documentMode || p.sawPackage || indent != 0 then Err
      else Ok(p.(documentMode := true))
    else if HasPrefix(trimmed, "path:") then
      var path := ParseYamlScalar(Trim(trimmed[5..]));
      if p.pending.None? || indent != p.pending.value.1 + 2 || path.Err? || !ValidInstallPath(path.value) then Err
      else Ok(p.(pending := None, paths := Insert(p.paths, path.value)))
    else if HasSuffix(trimmed, ":") then
      var package := Trim(trimmed[..|trimmed| - 1]);
      if p.pending.Some? || package == "" || indent != (if p.documentMode then 2 else 0) || package in p.keys then Err
      else Ok(p.(keys := p.keys + {package}, sawPackage := true, pending := Some((package, indent))))
    else Err
  }

  function ParseLines(p: Parser, lines: seq<string>): Result<Parser>
    decreases |lines|
  {
    if lines == [] then Ok(p)
    else
      var next := ParseLine(p, lines[0]);
      if next.Err? then Err else ParseLines(next.value, lines[1..])
  }

  function Parse(document: string): Result<Paths> {
    var r := ParseLines(START, Lines(document));
    if r.Err? || r.value.pending.Some? || r.value.paths == map[] then Err else Ok(r.value.paths)
  }

  method ParseWiredPaths(document: string) returns (r: Result<Paths>)
    ensures r == Parse(document)
  {
    var lines := Lines(document);
    var p := START;
    for i := 0 to |lines|
      invariant ParseLines(START, lines) == ParseLines(p, lines[i..])
    {
      assert lines[i..][1..] == lines[i + 1..];
      var next := ParseLine(p, lines[i]);
      if next.Err? {
        return Err;
      }
      p := next.value;
    }
    r := if p.pending.Some? || p.paths == map[] then Err else Ok(p.paths);
  }

  // ---------- Rendering ----------

  /** The keys in the order of an ordered map. */
  ghost predicate InOrder(names: seq<string>, keys: set<string>) {
    && (forall i, j :: 0 <= i < j < |names| ==> Below(names[i], names[j]))
    && (forall name :: name in names <==> name in keys)
  }

  function EntryLines(name: string, text: string): seq<string> {
    ["  " + name + ":", "    path: " + JsonString(text)]
  }

  function RenderLines(names: seq<string>, texts: seq<string>): seq<string>
    requires |texts| == |names|
  {
    if names == [] then [] else EntryLines(names[0], texts[0]) + RenderLines(names[1..], texts[1..])
  }

  /** A dependency document with these names and path texts. */
  function Document(names: seq<string>, texts: seq<string>): string
    requires |texts| == |names|
  {
    "dependencies:\n" + Unlines(RenderLines(names, texts))
  }

  function Texts(names: seq<string>, dependencies: map<string, string>): (texts: seq<string>)
    requires forall name :: name in names ==> name in dependencies
    ensures |texts| == |names|
  {
    seq(|names|, i requires 0 <= i < |names| => Portable(dependencies[names[i]]))
  }

  function Render(names: seq<string>, dependencies: map<string, string>): string
    requires forall name :: name in names ==> name in dependencies
  {
    Document(names, Texts(names, dependencies))
  }

  // ---------- Rewriting ----------

  /** The pubspec of every installed package root, by the components of its path. */
  type Project = map<seq<string>, string>

  function NameAt(project: Project, root: seq<string>): Result<string> {
    if root in project then DeclaredName(project[root]) else Err
  }

  /** Each installed path under the one name its package declares, no name twice. */
  ghost predicate AreDependencies(project: Project, paths: Paths, dependencies: map<string, string>) {
    && (forall root :: root in paths ==> Declares(project, paths, dependencies, root))
    && (forall name :: name in dependencies ==> exists root :: root in paths && NameAt(project, root) == Ok(name))
    && (forall r1, r2 :: r1 in paths && r2 in paths && r1 != r2 ==> NameAt(project, r1) != NameAt(project, r2))
  }

  ghost predicate Declares(project: Project, paths: Paths, dependencies: map<string, string>, root: seq<string>)
    requires root in paths
  {
    var name := NameAt(project, root);
    name.Ok? && name.value in dependencies && dependencies[name.value] == paths[root]
  }

  /** Rewriting `document` in `project` succeeds with `output`. */
  ghost predicate Rewritten(project: Project, document: string, output: string) {
    exists names, dependencies: map<string, string> ::
      Parse(document).Ok? && Outputs(project, Parse(document).value, names, dependencies, output)
  }

  ghost predicate Outputs(
      project: Project, paths: Paths, names: seq<string>, dependencies: map<string, string>, output: string)
  {
    && AreDependencies(project, paths, dependencies) && InOrder(names, dependencies.Keys)
    && output == Render(names, dependencies)
  }

  /** Puts a new name at its place among ordered names. */
  method InsertName(names: seq<string>, name: string, ghost keys: set<string>) returns (all: seq<string>)
    requires InOrder(names, keys) && name !in keys
    ensures InOrder(all, keys + {name})
  {
    var i := 0;
    while i < |names| && Below(names[i], name)
      invariant 0 <= i <= |names| && forall k :: 0 <= k < i ==> Below(names[k], name)
    {
      i := i + 1;
    }
    forall k | i <= k < |names| ensures Below(name, names[k]) {
      BelowTotal(name, names[i]);
      assert names[i] in names;
      if i < k {
        BelowTransitive(name, names[i], names[k]);
      }
    }
    all := names[..i] + [name] + names[i..];
    forall n ensures n in all <==> n in keys + {name} {
      assert names == names[..i] + names[i..];
    }
  }

  /** The dependencies found among the first `count` roots. */
  ghost predicate Collected(
      project: Project, paths: Paths, roots: seq<seq<string>>, count: nat, dependencies: map<string, string>)
    requires count <= |roots| && forall root :: root in roots ==> root in paths
  {
    && (forall k :: 0 <= k < count ==> Declares(project, paths, dependencies, roots[k]))
    && (forall name :: name in dependencies ==> DeclaredBy(project, roots, count, name))
    && (forall j, k :: 0 <= j < k < count ==> NameAt(project, roots[j]) != NameAt(project, roots[k]))
  }

  ghost predicate DeclaredBy(project: Project, roots: seq<seq<string>>, count: nat, name: string)
    requires count <= |roots|
  {
    exists k :: 0 <= k < count && NameAt(project, roots[k]) == Ok(name)
  }

  lemma CollectMore(
      project: Project, paths: Paths, roots: seq<seq<string>>, i: nat, dependencies: map<string, string>, name: string)
    requires i < |roots| && (forall root :: root in roots ==> root in paths)
    requires Collected(project, paths, roots, i, dependencies)
    requires NameAt(project, roots[i]) == Ok(name) && name !in dependencies
    ensures Collected(project, paths, roots, i + 1, dependencies[name := paths[roots[i]]])
  {
  }

  lemma CollectAll(project: Project, paths: Paths, roots: seq<seq<string>>, dependencies: map<string, string>)
    requires Enumerates(roots, paths.Keys) && Collected(project, paths, roots, |roots|, dependencies)
    ensures AreDependencies(project, paths, dependencies)
  {
  }

  lemma NoDependencies(
      project: Project, paths: Paths, roots: seq<seq<string>>, i: nat, dependencies: map<string, string>)
    requires i < |roots| && Enumerates(roots, paths.Keys) && Collected(project, paths, roots, i, dependencies)
    requires roots[i] in paths
    requires NameAt(project, roots[i]).Err? || NameAt(project, roots[i]).value in dependencies
    ensures forall others: map<string, string> :: !AreDependencies(project, paths, others)
  {
  }

  method Rewrite(project: Project, document: string) returns (r: Result<string>)
    ensures r.Ok? ==> Rewritten(project, document, r.value)
    ensures r.Err? ==> forall output :: !Rewritten(project, document, output)
  {
    var paths := ParseWiredPaths(document);
    if paths.Err? {
      return Err;
    }
    var roots := Enumerate(paths.value.Keys);
    var names: seq<string> := [];
    var dependencies: map<string, string> := map[];
    for i := 0 to |roots|
      invariant InOrder(names, dependencies.Keys)
      invariant Collected(project, paths.value, roots, i, dependencies)
    {
      assert roots[i] in roots;
      var name := if roots[i] in project then Ok(project[roots[i]]) else Err;
      if name.Ok? {
        name := DeclaredPubName(name.value);
      }
      if name.Err? || name.value in dependencies {
        NoDependencies(project, paths.value, roots, i, dependencies);
        return Err;
      }
      CollectMore(project, paths.value, roots, i, dependencies, name.value);
      names := InsertName(names, name.value, dependencies.Keys);
      dependencies := dependencies[name.value := paths.value[roots[i]]];
    }
    CollectAll(project, paths.value, roots, dependencies);
    assert Outputs(project, paths.value, names, dependencies, Render(names, dependencies));
    r := Ok(Render(names, dependencies));
  }
}
