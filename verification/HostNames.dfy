/** The paths and logical addresses of host download views. */
module HostNames {
  import opened Wrappers
  import opened Strings

  /** A relative path, one entry a segment. */
  type Path = seq<string>

  datatype Coordinate = Coordinate(org: string, project: Option<string>, package: string, version: string)

  datatype Layout = Layout(
    delimiter: string, sources: seq<string>, projectIndex: bool, packageIndex: bool)

  /** What a registry takes for a slug, of which only this much is known. */
  ghost predicate SlugRule(isSlug: string -> bool) {
    forall s: string :: isSlug(s) ==> s != "" && '/' !in s && ':' !in s
  }

  // ---------- Portable segments ----------

  predicate Portable(c: char) {
    c > ' ' && c != '\U{7F}' && c !in {'/', '\\', ':', '?', '#', '%', '*', '"', '<', '>', '|'}
  }

  function Upper(s: string): string {
    seq(|s|, i requires 0 <= i < |s| => if 'a' <= s[i] <= 'z' then s[i] - 'a' + 'A' else s[i])
  }

  /** The part before the first dot, in upper case. */
  function DeviceStem(s: string): string {
    if s == "" || s[0] == '.' then "" else Upper([s[0]]) + DeviceStem(s[1..])
  }

  predicate IsDevice(stem: string) {
    || stem in {"CON", "PRN", "AUX", "NUL", "CLOCK$"}
    || (|stem| == 4 && stem[..3] in {"COM", "LPT"} && '1' <= stem[3] <= '9')
  }

  predicate SafeSegment(value: string) {
    && value != "" && Utf8Length(value) <= 255 && value !in {".", ".."}
    && (forall c :: c in value ==> Portable(c))
    && value[|value| - 1] != '.'
    && !IsDevice(DeviceStem(value))
  }

  /** A file system holds names of at most this many bytes. */
  const MAX_NAME_BYTES := 255

  predicate Holdable(path: Path) {
    forall i :: 0 <= i < |path| ==> Utf8Length(path[i]) <= MAX_NAME_BYTES
  }

  predicate ValidDelimiter(delimiter: string) {
    1 <= |delimiter| <= 8 && forall c :: c in delimiter ==> c in {'-', '_', '.', '+'}
  }

  predicate ValidSources(isSlug: string -> bool, sources: seq<string>) {
    && sources != []
    && (forall i :: 0 <= i < |sources| ==> isSlug(sources[i]) && SafeSegment(sources[i]))
    && forall i, j :: 0 <= i < j < |sources| ==> sources[i] != sources[j]
  }

  predicate ValidLayout(isSlug: string -> bool, layout: Layout) {
    ValidDelimiter(layout.delimiter) && ValidSources(isSlug, layout.sources)
  }

  function NewCoordinate(
      isSlug: string -> bool, org: string, project: Option<string>, package: string, version: string)
    : Result<Coordinate>
  {
    if !isSlug(org) || !isSlug(package) then Err
    else if project.Some? && !isSlug(project.value) then Err
    else if !SafeSegment(version) then Err
    else Ok(Coordinate(org, project, package, version))
  }

  predicate ValidCoordinate(isSlug: string -> bool, c: Coordinate) {
    NewCoordinate(isSlug, c.org, c.project, c.package, c.version) == Ok(c)
  }

  // ---------- Paths ----------

  datatype Part = Org | Project | Package

  function PartName(part: Part): string {
    match part
    case Org => "zed-org"
    case Project => "zed-project"
    case Package => "zed-package"
  }

  function Typed(layout: Layout, part: Part, value: string): string {
    PartName(part) + layout.delimiter + value
  }

  function Tail(c: Coordinate, source: string, target: string): Path {
    ["versions", c.version, source, "targets", target]
  }

  /** The order of the parts a path starts with, before its `versions` segment. */
  datatype View = Canonical | ByProject | ByPackage

  function Parts(view: View, c: Coordinate): seq<(Part, string)> {
    var project := if c.project.Some? then [(Project, c.project.value)] else [];
    match view
    case Canonical => [(Org, c.org)] + project + [(Package, c.package)]
    case ByProject => project + [(Org, c.org), (Package, c.package)]
    case ByPackage => [(Package, c.package), (Org, c.org)] + project
  }

  function Rendered(layout: Layout, parts: seq<(Part, string)>): Path {
    seq(|parts|, i requires 0 <= i < |parts| => Typed(layout, parts[i].0, parts[i].1))
  }

  function PathOf(layout: Layout, view: View, c: Coordinate, source: string, target: string): Path {
    Rendered(layout, Parts(view, c)) + Tail(c, source, target)
  }

  function CanonicalRelative(layout: Layout, c: Coordinate, source: string, target: string): Path {
    PathOf(layout, Canonical, c, source, target)
  }

  function ProjectFirst(layout: Layout, c: Coordinate, source: string, target: string): seq<Path> {
    if layout.projectIndex && c.project.Some? then [PathOf(layout, ByProject, c, source, target)] else []
  }

  function PackageFirst(layout: Layout, c: Coordinate, source: string, target: string): seq<Path> {
    if layout.packageIndex then [PathOf(layout, ByPackage, c, source, target)] else []
  }

  function IndexRelatives(layout: Layout, c: Coordinate, source: string, target: string): seq<Path> {
    ProjectFirst(layout, c, source, target) + PackageFirst(layout, c, source, target)
  }

  /** Everything one materialization publishes. */
  function Destinations(layout: Layout, c: Coordinate, source: string, target: string): seq<Path> {
    [CanonicalRelative(layout, c, source, target)] + IndexRelatives(layout, c, source, target)
  }

  lemma TypedIsInjective(layout: Layout, part: Part, value: string, part': Part, value': string)
    requires Typed(layout, part, value) == Typed(layout, part', value')
    ensures part == part' && value == value'
  {
    var (s, s') := (Typed(layout, part, value), Typed(layout, part', value'));
    assert s[4] == PartName(part)[4] && s[5] == PartName(part)[5];
    assert s'[4] == PartName(part')[4] && s'[5] == PartName(part')[5];
    var n := |PartName(part) + layout.delimiter|;
    assert s[n..] == value && s'[n..] == value';
  }

  lemma TypedIsNotVersions(layout: Layout, part: Part, value: string)
    ensures Typed(layout, part, value) != "versions"
  {
    assert Typed(layout, part, value)[0] == PartName(part)[0];
  }

  lemma {:induction false} RenderedIsInjective(
      layout: Layout, parts: seq<(Part, string)>, rest: Path, parts': seq<(Part, string)>, rest': Path)
    requires rest != [] && rest' != [] && rest[0] == rest'[0] == "versions"
    requires Rendered(layout, parts) + rest <= Rendered(layout, parts') + rest'
    ensures parts == parts' && rest <= rest'
  {
    var (p, p') := (Rendered(layout, parts) + rest, Rendered(layout, parts') + rest');
    var n := if |parts| < |parts'| then |parts| else |parts'|;
    forall i | 0 <= i < n ensures parts[i] == parts'[i] {
      assert p[i] == p'[i];
      TypedIsInjective(layout, parts[i].0, parts[i].1, parts'[i].0, parts'[i].1);
    }
    assert p[n] == p'[n];
    if n < |parts| {
      TypedIsNotVersions(layout, parts[n].0, parts[n].1);
    }
    if n < |parts'| {
      TypedIsNotVersions(layout, parts'[n].0, parts'[n].1);
    }
    assert p[n..] == rest && p'[n..] == rest';
  }

  lemma PartsIdentify(view: View, c: Coordinate, view': View, c': Coordinate)
    requires view == ByProject ==> c.project.Some?
    requires view' == ByProject ==> c'.project.Some?
    requires Parts(view, c) == Parts(view', c')
    ensures view == view' && c.org == c'.org && c.project == c'.project && c.package == c'.package
  {
    var (p, p') := (Parts(view, c), Parts(view', c'));
    assert p[0] == p'[0] && p[1] == p'[1] && p[|p| - 1] == p'[|p'| - 1];
  }

  /**
   One view never lies at or below another: if a destination is a prefix of a destination, both
   belong to the same coordinate, source and target, and are the same one.
   */
  lemma DestinationsIdentify(
      layout: Layout, c: Coordinate, source: string, target: string, i: nat, p: Path,
      c': Coordinate, source': string, target': string, i': nat, p': Path)
    requires IsDestination(layout, c, source, target, i, p)
    requires IsDestination(layout, c', source', target', i', p')
    requires p <= p'
    ensures c == c' && source == source' && target == target' && i == i'
  {
    var (view, view') := (ViewAt(layout, c, i), ViewAt(layout, c', i'));
    var (tail, tail') := (Tail(c, source, target), Tail(c', source', target'));
    DestinationView(layout, c, source, target, i, p);
    DestinationView(layout, c', source', target', i', p');
    RenderedIsInjective(layout, Parts(view, c), tail, Parts(view', c'), tail');
    PartsIdentify(view, c, view', c');
    assert tail[1] == tail'[1] && tail[2] == tail'[2] && tail[4] == tail'[4];
    PlaceOfView(layout, c, source, target, i, p);
    PlaceOfView(layout, c, source, target, i', p');
  }

  predicate IsDestination(layout: Layout, c: Coordinate, source: string, target: string, i: nat, p: Path) {
    i < |Destinations(layout, c, source, target)| && p == Destinations(layout, c, source, target)[i]
  }

  lemma DestinationView(layout: Layout, c: Coordinate, source: string, target: string, i: nat, p: Path)
    requires IsDestination(layout, c, source, target, i, p)
    ensures p == PathOf(layout, ViewAt(layout, c, i), c, source, target)
    ensures ViewAt(layout, c, i) == ByProject ==> c.project.Some?
  {
  }

  lemma PlaceOfView(layout: Layout, c: Coordinate, source: string, target: string, i: nat, p: Path)
    requires IsDestination(layout, c, source, target, i, p)
    ensures i == match ViewAt(layout, c, i)
                 case Canonical => 0
                 case ByProject => 1
                 case ByPackage => if layout.projectIndex && c.project.Some? then 2 else 1
  {
  }

  /** The view a destination is, by its place in the list. */
  function ViewAt(layout: Layout, c: Coordinate, i: nat): View {
    if i == 0 then Canonical
    else if i == 1 && layout.projectIndex && c.project.Some? then ByProject
    else ByPackage
  }

  // ---------- Texts and addresses ----------

  /** A path as text, as the lock key digests it. */
  function Text(path: Path): string
    requires path != []
  {
    if |path| == 1 then path[0] else path[0] + "/" + Text(path[1..])
  }

  predicate Plain(path: Path) {
    forall i :: 0 <= i < |path| ==> '/' !in path[i]
  }

  lemma {:induction false} FirstSegment(p: Path)
    requires p != [] && Plain(p)
    ensures var (text, n) := (Text(p), |p[0]|);
            && n <= |text| && text[..n] == p[0] && (forall k :: 0 <= k < n ==> text[k] != '/')
            && (|p| == 1 ==> n == |text|) && (|p| > 1 ==> n < |text| && text[n] == '/' && text[n + 1..] == Text(p[1..]))
  {
  }

  lemma {:induction false} TextIsInjective(p: Path, q: Path)
    requires p != [] && q != [] && Plain(p) && Plain(q) && Text(p) == Text(q)
    ensures p == q
  {
    FirstSegment(p);
    FirstSegment(q);
    assert |p[0]| == |q[0]|;
    if |p| > 1 && |q| > 1 {
      TextIsInjective(p[1..], q[1..]);
      assert p == [p[0]] + p[1..] && q == [q[0]] + q[1..];
    }
  }

  /** What `materialize_binary` has checked by the time it computes a path. */
  predicate Checked(isSlug: string -> bool, layout: Layout, c: Coordinate, source: string, target: string) {
    && ValidLayout(isSlug, layout) && ValidCoordinate(isSlug, c)
    && source in layout.sources && SafeSegment(target)
  }

  lemma TypedIsPlain(layout: Layout, part: Part, value: string)
    requires ValidDelimiter(layout.delimiter) && '/' !in value
    ensures '/' !in Typed(layout, part, value)
  {
  }

  lemma TailIsPlain(c: Coordinate, source: string, target: string)
    requires SafeSegment(c.version) && SafeSegment(target) && '/' !in source
    ensures Plain(Tail(c, source, target))
  {
  }

  lemma CheckedIsPlain(
      isSlug: string -> bool, layout: Layout, c: Coordinate, source: string, target: string, i: nat, p: Path)
    requires SlugRule(isSlug) && Checked(isSlug, layout, c, source, target)
    requires IsDestination(layout, c, source, target, i, p)
    ensures Plain(p)
  {
    DestinationView(layout, c, source, target, i, p);
    var parts := Parts(ViewAt(layout, c, i), c);
    forall k | 0 <= k < |parts| ensures '/' !in Typed(layout, parts[k].0, parts[k].1) {
      PartsArePlain(isSlug, ViewAt(layout, c, i), c, k);
      TypedIsPlain(layout, parts[k].0, parts[k].1);
    }
    SourceIsSlug(isSlug, layout, source);
    TailIsPlain(c, source, target);
  }

  lemma SourceIsSlug(isSlug: string -> bool, layout: Layout, source: string)
    requires ValidSources(isSlug, layout.sources) && source in layout.sources
    ensures isSlug(source)
  {
  }

  lemma PartsArePlain(isSlug: string -> bool, view: View, c: Coordinate, k: nat)
    requires SlugRule(isSlug) && ValidCoordinate(isSlug, c) && k < |Parts(view, c)|
    ensures '/' !in Parts(view, c)[k].1
  {
  }

  /** Also as texts, the destinations of two calls differ unless the calls name the same download. */
  lemma {:induction false} TextsIdentify(
      isSlug: string -> bool, layout: Layout, c: Coordinate, source: string, target: string, i: nat, p: Path,
      c': Coordinate, source': string, target': string, i': nat, p': Path)
    requires SlugRule(isSlug)
    requires Checked(isSlug, layout, c, source, target) && IsDestination(layout, c, source, target, i, p)
    requires Checked(isSlug, layout, c', source', target') && IsDestination(layout, c', source', target', i', p')
    requires p != [] && p' != [] && Text(p) == Text(p')
    ensures c == c' && source == source' && target == target' && i == i'
  {
    CheckedIsPlain(isSlug, layout, c, source, target, i, p);
    CheckedIsPlain(isSlug, layout, c', source', target', i', p');
    TextIsInjective(p, p');
    DestinationsIdentify(layout, c, source, target, i, p, c', source', target', i', p');
  }

  function LogicalUri(c: Coordinate, source: string, target: Option<string>): string {
    "zed:org:" + c.org + "/"
    + (if c.project.Some? then "zed:project:" + c.project.value + "/" else "")
    + ("zed:package:" + c.package + "/versions/" + c.version + "/" + source)
    + (if target.Some? then "/targets/" + target.value else "")
  }

  function UriSegments(c: Coordinate, source: string, target: Option<string>): Path {
    ["zed:org:" + c.org]
    + (if c.project.Some? then ["zed:project:" + c.project.value] else [])
    + ["zed:package:" + c.package, "versions", c.version, source]
    + (if target.Some? then ["targets", target.value] else [])
  }

  lemma {:induction false} TextAppend(p: Path, q: Path)
    requires p != [] && q != []
    ensures Text(p + q) == Text(p) + "/" + Text(q)
  {
    assert (p + q)[1..] == p[1..] + q;
    if |p| > 1 {
      TextAppend(p[1..], q);
    } else {
      assert p[1..] + q == q;
    }
  }

  lemma PackageText(package: string, version: string, source: string)
    ensures Text([package, "versions", version, source])
         == package + "/versions/" + version + "/" + source
  {
    var p := [package, "versions", version, source];
    assert p[1..] == ["versions", version, source];
    assert p[1..][1..] == [version, source] && p[1..][1..][1..] == [source];
    assert Text(p[1..][1..]) == version + "/" + source;
    assert Text(p) == package + "/" + ("versions" + "/" + (version + "/" + source));
    assert "/" + "versions" + "/" == "/versions/";
    assert package + "/" + ("versions" + "/" + (version + "/" + source))
        == package + ("/" + "versions" + "/") + version + "/" + source;
  }

  lemma UriIsText(c: Coordinate, source: string, target: Option<string>)
    ensures LogicalUri(c, source, target) == Text(UriSegments(c, source, target))
  {
    var org := ["zed:org:" + c.org];
    var package := ["zed:package:" + c.package, "versions", c.version, source];
    PackageText("zed:package:" + c.package, c.version, source);
    var head := org + if c.project.Some? then ["zed:project:" + c.project.value] else [];
    assert Text(head) + "/" == "zed:org:" + c.org + "/"
      + (if c.project.Some? then "zed:project:" + c.project.value + "/" else "");
    TextAppend(head, package);
    assert UriSegments(c, source, None) == head + package;
    if target.Some? {
      assert UriSegments(c, source, target) == head + package + ["targets", target.value];
      TextAppend(head + package, ["targets", target.value]);
      assert ["targets", target.value][1..] == [target.value];
    }
  }

  predicate CheckedUri(isSlug: string -> bool, c: Coordinate, source: string, target: Option<string>) {
    ValidCoordinate(isSlug, c) && isSlug(source) && (target.Some? ==> SafeSegment(target.value))
  }

  /** Two downloads with the same address are the same download. */
  lemma UriIdentifies(
      isSlug: string -> bool, c: Coordinate, source: string, target: Option<string>,
      c': Coordinate, source': string, target': Option<string>)
    requires SlugRule(isSlug) && CheckedUri(isSlug, c, source, target) && CheckedUri(isSlug, c', source', target')
    requires LogicalUri(c, source, target) == LogicalUri(c', source', target')
    ensures c == c' && source == source' && target == target'
  {
    UriIsText(c, source, target);
    UriIsText(c', source', target');
    var (p, p') := (UriSegments(c, source, target), UriSegments(c', source', target'));
    UriIsPlain(isSlug, c, source, target);
    UriIsPlain(isSlug, c', source', target');
    TextIsInjective(p, p');
    SegmentsIdentify(c, source, target, c', source', target');
  }

  lemma UriIsPlain(isSlug: string -> bool, c: Coordinate, source: string, target: Option<string>)
    requires SlugRule(isSlug) && CheckedUri(isSlug, c, source, target)
    ensures Plain(UriSegments(c, source, target))
  {
  }

  lemma SegmentsIdentify(
      c: Coordinate, source: string, target: Option<string>, c': Coordinate, source': string, target': Option<string>)
    requires UriSegments(c, source, target) == UriSegments(c', source', target')
    ensures c == c' && source == source' && target == target'
  {
    var (p, p') := (UriSegments(c, source, target), UriSegments(c', source', target'));
    var (k, k') := (if c.project.Some? then 2 else 1, if c'.project.Some? then 2 else 1);
    assert p[0] == p'[0] && p[1] == p'[1];
    assert p[1][5] == (if k == 2 then 'r' else 'a') && p'[1][5] == if k' == 2 then 'r' else 'a';
    assert p[0][8..] == c.org && p'[0][8..] == c'.org;
    assert p[k][12..] == c.package && p'[k'][12..] == c'.package;
    assert p[k + 2] == c.version && p[k + 3] == source && p'[k + 2] == c'.version && p'[k + 3] == source';
    assert k == 2 ==> p[1][12..] == c.project.value && p'[1][12..] == c'.project.value;
    assert target.Some? ==> p[k + 5] == target.value;
    assert target'.Some? ==> p'[k + 5] == target'.value;
  }

  // ---------- Lengths ----------

  lemma {:induction false} TypedLength(layout: Layout, part: Part, value: string)
    ensures Utf8Length(value) <= Utf8Length(Typed(layout, part, value))
  {
    Utf8LengthAppend(PartName(part) + layout.delimiter, value);
  }

  /** What a file system can hold has short parts. */
  lemma {:induction false} HoldableParts(layout: Layout, c: Coordinate, source: string, target: string)
    requires Holdable(CanonicalRelative(layout, c, source, target))
    ensures Utf8Length(c.org) <= MAX_NAME_BYTES && Utf8Length(c.package) <= MAX_NAME_BYTES
    ensures c.project.Some? ==> Utf8Length(c.project.value) <= MAX_NAME_BYTES
    ensures Utf8Length(c.version) <= MAX_NAME_BYTES && Utf8Length(source) <= MAX_NAME_BYTES
    ensures Utf8Length(target) <= MAX_NAME_BYTES
  {
    var (parts, path) := (Parts(Canonical, c), CanonicalRelative(layout, c, source, target));
    var n := |parts|;
    assert path[0] == Typed(layout, Org, c.org) && path[n - 1] == Typed(layout, Package, c.package);
    assert c.project.Some? ==> path[1] == Typed(layout, Project, c.project.value);
    assert path[n + 1] == c.version && path[n + 2] == source && path[n + 4] == target;
    TypedLength(layout, Org, c.org);
    TypedLength(layout, Package, c.package);
    if c.project.Some? {
      TypedLength(layout, Project, c.project.value);
    }
  }

  lemma {:induction false} SegmentLengths(path: Path, bound: nat)
    requires path != [] && forall i :: 0 <= i < |path| ==> Utf8Length(path[i]) <= bound
    ensures Utf8Length(Text(path)) <= |path| * (bound + 1)
  {
    if |path| > 1 {
      SegmentLengths(path[1..], bound);
      Utf8LengthAppend(path[0] + "/", Text(path[1..]));
      Utf8LengthAppend(path[0], "/");
      assert |path| * (bound + 1) == (bound + 1) + |path[1..]| * (bound + 1);
      assert Utf8Length("/") == 1 by {
        assert "/"[1..] == "";
      }
    }
  }

  /** So the address is short as well. */
  lemma {:induction false} UriLength(layout: Layout, c: Coordinate, source: string, target: string)
    requires Holdable(CanonicalRelative(layout, c, source, target))
    ensures Utf8Length(LogicalUri(c, source, Some(target))) <= 8 * 311
  {
    HoldableParts(layout, c, source, target);
    var path := UriSegments(c, source, Some(target));
    forall i | 0 <= i < |path| ensures Utf8Length(path[i]) <= 310 {
      UriSegmentLength(c, source, target, i);
    }
    UriIsText(c, source, Some(target));
    SegmentLengths(path, 310);
  }

  lemma {:induction false} UriSegmentLength(c: Coordinate, source: string, target: string, i: nat)
    requires Utf8Length(c.org) <= MAX_NAME_BYTES && Utf8Length(c.package) <= MAX_NAME_BYTES
    requires c.project.Some? ==> Utf8Length(c.project.value) <= MAX_NAME_BYTES
    requires Utf8Length(c.version) <= MAX_NAME_BYTES && Utf8Length(source) <= MAX_NAME_BYTES
    requires Utf8Length(target) <= MAX_NAME_BYTES && i < |UriSegments(c, source, Some(target))|
    ensures Utf8Length(UriSegments(c, source, Some(target))[i]) <= 310
  {
    var segment := UriSegments(c, source, Some(target))[i];
    var n := if c.project.Some? then 2 else 1;
    if i == 0 {
      Labelled("zed:org:", c.org);
    } else if i < n {
      Labelled("zed:project:", c.project.value);
    } else if i == n {
      Labelled("zed:package:", c.package);
    } else if i == n + 1 || i == n + 4 {
      ShortWord(segment);
    }
  }

  lemma {:induction false} ShortWord(word: string)
    ensures Utf8Length(word) <= 4 * |word|
  {
    if word != "" {
      ShortWord(word[1..]);
    }
  }

  lemma {:induction false} Labelled(mark: string, value: string)
    requires Utf8Length(value) <= MAX_NAME_BYTES && |mark| <= 12
    ensures Utf8Length(mark + value) <= 310
  {
    Utf8LengthAppend(mark, value);
    ShortWord(mark);
  }
}
