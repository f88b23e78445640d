/** What a materialized download is, in the segments of its paths and the bytes of its views. */
module HostMeaning {
  import opened Wrappers
  import opened Strings
  import opened HostNames
  import opened HostViews

  // ---------- Where the views are ----------

  function OrgSegment(layout: Layout, request: Request): string {
    "zed-org" + layout.delimiter + request.verified.manifest.org
  }

  function ProjectSegments(layout: Layout, request: Request): Path {
    if request.project.Some? then ["zed-project" + layout.delimiter + request.project.value] else []
  }

  function PackageSegment(layout: Layout, request: Request): string {
    "zed-package" + layout.delimiter + request.verified.manifest.name
  }

  function EndSegments(request: Request): Path {
    ["versions", request.verified.manifest.version, request.source, "targets", request.verified.descriptor.target]
  }

  /** The organization first, with or without a project. */
  function OrgFirst(layout: Layout, request: Request): Path {
    [OrgSegment(layout, request)] + ProjectSegments(layout, request) + [PackageSegment(layout, request)]
    + EndSegments(request)
  }

  /** The other views that a layout enables: by project, if there is one, and by package. */
  function Indexes(layout: Layout, request: Request): seq<Path> {
    (if layout.projectIndex && request.project.Some? then
       [ProjectSegments(layout, request) + [OrgSegment(layout, request), PackageSegment(layout, request)]
        + EndSegments(request)]
     else [])
    + if layout.packageIndex then
        [[PackageSegment(layout, request), OrgSegment(layout, request)] + ProjectSegments(layout, request)
         + EndSegments(request)]
      else []
  }

  function Address(request: Request): string {
    var m := request.verified.manifest;
    "zed:org:" + m.org + "/" + (if request.project.Some? then "zed:project:" + request.project.value + "/" else "")
    + "zed:package:" + m.name + "/versions/" + m.version + "/" + request.source
    + "/targets/" + request.verified.descriptor.target
  }

  // ---------- What a view holds ----------

  /** Exactly the listed files, each of its size, digest and mode, and the descriptor itself. */
  ghost predicate Unpacked(lib: Library, package: map<Path, Payload>, d: Descriptor) {
    && (forall i :: 0 <= i < |d.files| ==>
          && d.files[i].path in package && |package[d.files[i].path].bytes| == d.files[i].size
          && lib.digest(package[d.files[i].path].bytes) == d.files[i].sha256
          && package[d.files[i].path].executable == d.files[i].executable)
    && lib.descriptorPath in package && package[lib.descriptorPath].bytes == lib.encodeDescriptor(d)
    && forall path :: path in package ==>
      path == lib.descriptorPath || exists i :: 0 <= i < |d.files| && d.files[i].path == path
  }

  /** The archive of the request and its package, bound to it by the record. */
  ghost predicate Whole(lib: Library, entry: Entry, request: Request) {
    && entry.Directory? && entry.archive.Some? && entry.package.Some? && entry.origin.Some?
    && |entry.archive.value| == request.verified.size && lib.digest(entry.archive.value) == request.verified.sha256
    && lib.inspect(entry.archive.value).Some?
    && lib.inspect(entry.archive.value).value.descriptor.target == request.verified.descriptor.target
    && Unpacked(lib, entry.package.value, lib.inspect(entry.archive.value).value.descriptor)
    && Names(lib, entry.origin.value, request)
  }

  /** The record says which download this is. */
  ghost predicate Names(lib: Library, record: Bytes, request: Request) {
    && lib.decodeOrigin(record).Some?
    && var (o, m) := (lib.decodeOrigin(record).value, request.verified.manifest);
       && o.logicalUri == Address(request) && o.source == request.source
       && o.coordinate.org == m.org && o.coordinate.project == request.project
       && o.coordinate.package == m.name && o.coordinate.version == m.version
       && o.target == request.verified.descriptor.target && o.archiveSha256 == request.verified.sha256
       && o.archiveSize == request.verified.size
       && o.descriptorSha256 == lib.digest(lib.encodeDescriptor(request.verified.descriptor))
  }

  // ---------- Successful calls ----------

  /**
   A successful call answers with exactly the views that the layout enables, and each of them is there, whole.
   */
  lemma {:induction false} SuccessServesAllViews(
      lib: Library, layout: Layout, before: map<Path, Entry>, after: map<Path, Entry>, request: Request,
      r: Result<Download>, quiet: bool, alone: bool)
    requires lib.Valid() && Materialized(lib, layout, before, after, request, r, quiet, alone) && r.Ok?
    ensures r.value == Download(Address(request), OrgFirst(layout, request), Indexes(layout, request))
    ensures forall path :: path in [OrgFirst(layout, request)] + Indexes(layout, request) ==>
      path in after && Whole(lib, after[path], request)
  {
    TargetsAre(lib, layout, request);
    AddressIs(lib, request);
    assert [r.value.canonicalPath] + r.value.indexPaths == [OrgFirst(layout, request)] + Indexes(layout, request);
    assert ([r.value.canonicalPath] + r.value.indexPaths)[1..] == r.value.indexPaths;
    assert ([OrgFirst(layout, request)] + Indexes(layout, request))[1..] == Indexes(layout, request);
    forall path | path in [OrgFirst(layout, request)] + Indexes(layout, request)
      ensures path in after && Whole(lib, after[path], request)
    {
      assert path in Targets(lib, layout, request);
      AcceptedIsWhole(lib, after[path], request);
    }
  }

  lemma {:induction false} AddressIs(lib: Library, request: Request)
    requires CoordinateOf(lib, request).Ok?
    ensures OriginFor(lib, request).logicalUri == Address(request)
  {
    var (c, target) := (CoordinateOf(lib, request).value, request.verified.descriptor.target);
    var head := "zed:org:" + c.org + "/" + if c.project.Some? then "zed:project:" + c.project.value + "/" else "";
    var body := "zed:package:" + c.package + "/versions/" + c.version + "/" + request.source;
    assert LogicalUri(c, request.source, Some(target)) == head + body + ("/targets/" + target);
    assert Address(request) == head + body + ("/targets/" + target);
  }

  lemma {:induction false} TargetsAre(lib: Library, layout: Layout, request: Request)
    requires CoordinateOf(lib, request).Ok?
    ensures Targets(lib, layout, request) == [OrgFirst(layout, request)] + Indexes(layout, request)
  {
    var (c, source, target) :=
      (CoordinateOf(lib, request).value, request.source, request.verified.descriptor.target);
    assert Tail(c, source, target) == EndSegments(request);
    assert PathOf(layout, Canonical, c, source, target) == OrgFirst(layout, request);
    if c.project.Some? {
      assert PathOf(layout, ByProject, c, source, target)
          == ProjectSegments(layout, request) + [OrgSegment(layout, request), PackageSegment(layout, request)]
             + EndSegments(request);
    }
    assert PathOf(layout, ByPackage, c, source, target)
        == [PackageSegment(layout, request), OrgSegment(layout, request)] + ProjectSegments(layout, request)
           + EndSegments(request);
  }

  lemma {:induction false} AcceptedIsWhole(lib: Library, entry: Entry, request: Request)
    requires lib.Valid() && CoordinateOf(lib, request).Ok? && Accepted(lib, entry, OriginFor(lib, request))
    ensures Whole(lib, entry, request)
  {
    AddressIs(lib, request);
    MatchingIsUnpacked(lib, entry.package.value, lib.inspect(entry.archive.value).value.descriptor);
  }

  lemma {:induction false} MatchingIsUnpacked(lib: Library, package: map<Path, Payload>, d: Descriptor)
    requires PackageMatches(lib, package, d)
    ensures Unpacked(lib, package, d)
  {
    forall path | path in package
      ensures path == lib.descriptorPath || exists i :: 0 <= i < |d.files| && d.files[i].path == path
    {
      assert path in ListedPaths(d, |d.files|) + {lib.descriptorPath};
    }
    forall i | 0 <= i < |d.files| ensures IsPayload(lib, package[d.files[i].path], d.files[i]) {
    }
  }

  // ---------- Calls that nothing hinders ----------

  /** The archive is still the one that was verified, and holds what its descriptor lists under names that fit. */
  ghost predicate Intact(lib: Library, request: Request) {
    var (bytes, d) := (ReadAll(request.stream), request.verified.descriptor);
    && |bytes| == request.verified.size && lib.digest(bytes) == request.verified.sha256
    && lib.inspect(bytes) == Some(request.verified)
    && (forall i :: 0 <= i < |d.files| ==>
          && lib.payload(bytes, d.files[i].path).Some?
          && |lib.payload(bytes, d.files[i].path).value| == d.files[i].size
          && lib.digest(lib.payload(bytes, d.files[i].path).value) == d.files[i].sha256
          && d.files[i].path != [] && !(d.files[i].path <= lib.descriptorPath)
          && !(lib.descriptorPath <= d.files[i].path))
    && forall i, j :: 0 <= i < j < |d.files| ==>
      !(d.files[i].path <= d.files[j].path) && !(d.files[j].path <= d.files[i].path)
  }

  /** Valid names, short enough, and a source that is configured. */
  ghost predicate Named(lib: Library, layout: Layout, request: Request) {
    var m := request.verified.manifest;
    && request.source in layout.sources && lib.isSlug(m.org) && lib.isSlug(m.name)
    && (request.project.Some? ==> lib.isSlug(request.project.value))
    && SafeSegment(m.version) && SafeSegment(request.verified.descriptor.target)
    && forall i :: 0 <= i < |OrgFirst(layout, request)| ==> Utf8Length(OrgFirst(layout, request)[i]) <= 255
  }

  /** Nothing of the download is there. */
  ghost predicate Absent(layout: Layout, views: map<Path, Entry>, request: Request) {
    forall path :: path in [OrgFirst(layout, request)] + Indexes(layout, request) ==> path !in views
  }

  /** With such names, nothing published yet and no failure the archive decides; without them nothing is done. */
  lemma {:induction false} FirstCallSucceeds(
      lib: Library, layout: Layout, before: map<Path, Entry>, after: map<Path, Entry>, request: Request,
      r: Result<Download>, quiet: bool, alone: bool)
    requires Materialized(lib, layout, before, after, request, r, quiet, alone)
    ensures !Named(lib, layout, request) ==> r.Err? && after == before
    ensures Named(lib, layout, request) && Absent(layout, before, request) && quiet ==>
      (r.Ok? <==> Intact(lib, request))
  {
    NamedExactly(lib, layout, request);
    if Named(lib, layout, request) {
      TargetsAre(lib, layout, request);
      IntactExactly(lib, request);
    }
  }

  lemma {:induction false} NamedExactly(lib: Library, layout: Layout, request: Request)
    ensures Named(lib, layout, request) <==> WellNamed(lib, layout, request)
  {
    if CoordinateOf(lib, request).Ok? {
      TargetsAre(lib, layout, request);
    }
  }

  lemma {:induction false} IntactExactly(lib: Library, request: Request)
    ensures Intact(lib, request) <==> Stageable(lib, request)
  {
  }

  /** Segments cannot leave their directory, hide a separator or name a device. */
  lemma {:induction false} SegmentsAreSafe(value: string)
    requires SafeSegment(value)
    ensures value !in {"", ".", ".."} && '/' !in value && '\\' !in value && ':' !in value && ' ' !in value
    ensures '\0' !in value && '\n' !in value && value[|value| - 1] != '.' && Utf8Length(value) <= 255
  {
    assert forall c :: c in value ==> Portable(c);
  }

  /** Device names are refused in any case and with any ending. */
  lemma {:induction false} DevicesAreRefused(rest: string)
    requires rest == "" || rest[0] == '.'
    ensures !SafeSegment("con" + rest) && !SafeSegment("Aux" + rest) && !SafeSegment("LPT9" + rest)
  {
    StemIs("con", rest);
    StemIs("Aux", rest);
    StemIs("LPT9", rest);
    assert Upper("con") == "CON" && Upper("Aux") == "AUX" && Upper("LPT9") == "LPT9" && "LPT9"[..3] == "LPT";
  }

  /** Ordinary versions are not. */
  lemma {:induction false} VersionsAreSafe()
    ensures SafeSegment("1.2.3")
  {
    StemIs("1", ".2.3");
    assert "1" + ".2.3" == "1.2.3" && |Upper("1")| == 1;
    ShortWord("1.2.3");
  }

  lemma {:induction false} StemIs(stem: string, rest: string)
    requires '.' !in stem && (rest == "" || rest[0] == '.')
    ensures DeviceStem(stem + rest) == Upper(stem)
  {
    if stem == "" {
      assert "" + rest == rest;
    } else {
      assert (stem + rest)[1..] == stem[1..] + rest;
      StemIs(stem[1..], rest);
      assert Upper([stem[0]]) + Upper(stem[1..]) == Upper(stem);
    }
  }

  /** Whatever else stands at one of the places stops the call, and stays. */
  lemma {:induction false} OthersStopTheCall(
      lib: Library, layout: Layout, before: map<Path, Entry>, after: map<Path, Entry>, request: Request,
      r: Result<Download>, quiet: bool, alone: bool, path: Path)
    requires lib.Valid() && Materialized(lib, layout, before, after, request, r, quiet, alone)
    requires path in before
    ensures path in after && after[path] == before[path]
    ensures path in [OrgFirst(layout, request)] + Indexes(layout, request) && !Whole(lib, before[path], request) ==>
      r.Err?
  {
    if r.Ok? {
      SuccessServesAllViews(lib, layout, before, after, request, r, quiet, alone);
    }
  }

  /** The archive is what its reads deliver up to the first empty one. */
  lemma {:induction false} ReadsAreJoined(chunk: Bytes, rest: seq<Bytes>)
    ensures chunk != "" ==> ReadAll([chunk] + rest) == chunk + ReadAll(rest)
    ensures ReadAll([""] + rest) == "" && ReadAll([]) == ""
  {
    assert ([chunk] + rest)[1..] == rest;
  }
}
