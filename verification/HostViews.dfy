/** Publishing verified archives as immutable directories under one downloads root. */
module HostViews {
  import opened Wrappers
  import opened Enumerations
  import opened HostNames
  import opened Strings
  import opened Faults

  type Bytes = string

  type U64 = n: nat | n < 0x1_0000_0000_0000_0000

  datatype FileSpec = FileSpec(path: Path, sha256: string, size: nat, executable: bool)

  datatype Descriptor = Descriptor(target: string, platform: string, files: seq<FileSpec>)

  /** `rest` stands for the fields that are only compared. */
  datatype Manifest = Manifest(org: string, name: string, version: string, rest: string)

  datatype Verified = Verified(manifest: Manifest, descriptor: Descriptor, sha256: string, size: U64)

  /** The binding record of a view, without its three constant fields. */
  datatype Origin = Origin(
    logicalUri: string, coordinate: Coordinate, source: string, target: string,
    archiveSha256: string, archiveSize: U64, descriptorSha256: string)

  datatype Payload = Payload(bytes: Bytes, executable: bool)

  /** A regular file, symbolic link or special file is `Foreign`; absent members are missing or unsafe. */
  datatype Entry =
    | Directory(archive: Option<Bytes>, origin: Option<Bytes>, package: Option<map<Path, Payload>>)
    | Foreign

  /** Library code whose bodies are not part of this model. */
  datatype Library = Library(
    isSlug: string -> bool,
    digest: Bytes -> string,
    inspect: Bytes -> Option<Verified>,
    payload: (Bytes, Path) -> Option<Bytes>,
    encodeDescriptor: Descriptor -> Bytes,
    encodeOrigin: Origin -> Bytes,
    decodeOrigin: Bytes -> Option<Origin>,
    descriptorPath: Path)
  {
    ghost predicate Valid() {
      && SlugRule(isSlug) && descriptorPath != []
      && (forall b :: Utf8Length(digest(b)) == DIGEST_BYTES)
      && (forall o :: |encodeOrigin(o)| <= RECORD_BYTES + 6 * FieldBytes(o))
      && (forall o :: decodeOrigin(encodeOrigin(o)) == Some(o))
      && (forall b :: inspect(b).Some? ==> inspect(b).value.sha256 == digest(b) && inspect(b).value.size == |b|)
    }
  }

  const MAX_ORIGIN_BYTES := 1024 * 1024

  /** A digest in hexadecimal. */
  const DIGEST_BYTES := 64

  /** The keys, constant fields, numbers and layout of a record take no more than this. */
  const RECORD_BYTES := 4096

  /** The text fields of a record. JSON spells each of their bytes in at most six. */
  function FieldBytes(o: Origin): nat {
    Utf8Length(o.logicalUri) + Utf8Length(o.coordinate.org)
    + (if o.coordinate.project.Some? then Utf8Length(o.coordinate.project.value) else 0)
    + Utf8Length(o.coordinate.package) + Utf8Length(o.coordinate.version)
    + Utf8Length(o.source) + Utf8Length(o.target)
    + Utf8Length(o.archiveSha256) + Utf8Length(o.descriptorSha256)
  }

  /** A record of a real archive can be read again. */
  predicate Readable(lib: Library, origin: Origin) {
    Utf8Length(origin.archiveSha256) == DIGEST_BYTES ==> |lib.encodeOrigin(origin)| <= MAX_ORIGIN_BYTES
  }

  // ---------- What a view has to be ----------

  /** The package directory holds the descriptor and exactly the files it lists, as it lists them. */
  ghost predicate PackageMatches(lib: Library, package: map<Path, Payload>, d: Descriptor) {
    && Listed(lib, package, d, |d.files|)
    && lib.descriptorPath in package
    && package[lib.descriptorPath].bytes == lib.encodeDescriptor(d)
    && package.Keys == ListedPaths(d, |d.files|) + {lib.descriptorPath}
  }

  predicate IsPayload(lib: Library, payload: Payload, file: FileSpec) {
    |payload.bytes| == file.size && lib.digest(payload.bytes) == file.sha256 && payload.executable == file.executable
  }

  ghost predicate Listed(lib: Library, package: map<Path, Payload>, d: Descriptor, n: nat)
    requires n <= |d.files|
  {
    forall i :: 0 <= i < n ==> d.files[i].path in package && IsPayload(lib, package[d.files[i].path], d.files[i])
  }

  ghost function ListedPaths(d: Descriptor, n: nat): set<Path>
    requires n <= |d.files|
  {
    set i | 0 <= i < n :: d.files[i].path
  }

  /** A whole view, bound to its origin. */
  ghost predicate Faithful(lib: Library, entry: Entry, origin: Origin) {
    && entry.Directory? && entry.origin.Some? && entry.archive.Some? && entry.package.Some?
    && lib.decodeOrigin(entry.origin.value) == Some(origin)
    && match lib.inspect(entry.archive.value)
       case None => false
       case Some(v) =>
         && v.sha256 == origin.archiveSha256 && v.size == origin.archiveSize
         && v.descriptor.target == origin.target
         && PackageMatches(lib, entry.package.value, v.descriptor)
  }

  /** A whole view whose record is also small enough to be read again. */
  ghost predicate Accepted(lib: Library, entry: Entry, origin: Origin) {
    Faithful(lib, entry, origin) && |entry.origin.value| <= MAX_ORIGIN_BYTES
  }

  // ---------- Reading ----------

  /** What successive reads return, up to the first empty one. */
  function ReadAll(chunks: seq<Bytes>): Bytes {
    if chunks == [] || chunks[0] == "" then "" else chunks[0] + ReadAll(chunks[1..])
  }

  /** The reads of an unchanging stream: any number of non-empty pieces. */
  method Reads(bytes: Bytes) returns (chunks: seq<Bytes>)
    ensures ReadAll(chunks) == bytes
  {
    if bytes == "" {
      return [];
    }
    var n :| 0 < n <= |bytes|;
    var rest := Reads(bytes[n..]);
    chunks := [bytes[..n]] + rest;
    assert bytes == bytes[..n] + bytes[n..];
  }

  /** The copying loop of `copy_archive_bound` and of `extract_verified_package`. */
  method CopyBound(lib: Library, chunks: seq<Bytes>, sha256: string, size: nat) returns (r: Result<Bytes>)
    ensures r ==
      if |ReadAll(chunks)| == size && lib.digest(ReadAll(chunks)) == sha256 then Ok(ReadAll(chunks)) else Err
  {
    var output, copied, i := "", 0, 0;
    while i < |chunks| && chunks[i] != ""
      invariant 0 <= i <= |chunks| && copied == |output| <= size
      invariant ReadAll(chunks) == output + ReadAll(chunks[i..])
    {
      assert chunks[i..][0] == chunks[i] && chunks[i..][1..] == chunks[i + 1..];
      copied := copied + |chunks[i]|;
      if copied > size {
        assert |ReadAll(chunks)| >= |output + chunks[i]|;
        return Err;
      }
      output := output + chunks[i];
      i := i + 1;
    }
    assert ReadAll(chunks[i..]) == "" && output + "" == output;
    r := if copied == size && lib.digest(output) == sha256 then Ok(output) else Err;
  }

  // ---------- Extracting ----------

  /** Two files one of which is at or below the other cannot both be created. */
  predicate Clash(p: Path, q: Path) {
    p <= q || q <= p
  }

  ghost predicate Creatable(files: seq<FileSpec>, i: nat)
    requires i < |files|
  {
    files[i].path != [] && forall j :: 0 <= j < i ==> !Clash(files[j].path, files[i].path)
  }

  ghost predicate HasPayload(lib: Library, archive: Bytes, file: FileSpec) {
    && lib.payload(archive, file.path).Some?
    && |lib.payload(archive, file.path).value| == file.size
    && lib.digest(lib.payload(archive, file.path).value) == file.sha256
  }

  ghost predicate Extractable(lib: Library, archive: Bytes, d: Descriptor) {
    && (forall i :: 0 <= i < |d.files| ==> Creatable(d.files, i) && HasPayload(lib, archive, d.files[i]))
    && forall i :: 0 <= i < |d.files| ==> !Clash(d.files[i].path, lib.descriptorPath)
  }

  method CreateFile(machine: Machine, package: map<Path, Payload>, path: Path) returns (r: Result<()>)
    modifies machine
    ensures machine.failures >= old(machine.failures)
    ensures r.Ok? ==> path != [] && forall q :: q in package ==> !Clash(q, path)
    ensures r.Err? && machine.failures == old(machine.failures) ==>
      path == [] || exists q :: q in package && Clash(q, path)
  {
    if path == [] || exists q :: q in package.Keys && Clash(q, path) {
      return Err;
    }
    var ok := machine.Attempt();
    r := if ok then Ok(()) else Err;
  }

  method ExtractFile(machine: Machine, lib: Library, archive: Bytes, package: map<Path, Payload>, file: FileSpec)
    returns (r: Result<map<Path, Payload>>)
    modifies machine
    ensures machine.failures >= old(machine.failures)
    ensures r.Ok? ==>
      && HasPayload(lib, archive, file) && file.path != [] && (forall q :: q in package ==> !Clash(q, file.path))
      && r.value == package[file.path := Payload(lib.payload(archive, file.path).value, file.executable)]
    ensures r.Err? && machine.failures == old(machine.failures) ==>
      || !HasPayload(lib, archive, file) || file.path == [] || exists q :: q in package && Clash(q, file.path)
  {
    if lib.payload(archive, file.path).None? {
      return Err;
    }
    var created := CreateFile(machine, package, file.path);
    if created.Err? {
      return Err;
    }
    var chunks := Reads(lib.payload(archive, file.path).value);
    var output := CopyBound(lib, chunks, file.sha256, file.size);
    if output.Err? {
      return Err;
    }
    var written := machine.Attempt();
    r := if written then Ok(package[file.path := Payload(output.value, file.executable)]) else Err;
  }

  /** The package directory after the first `n` files. */
  ghost predicate Partly(lib: Library, archive: Bytes, d: Descriptor, package: map<Path, Payload>, n: nat)
    requires n <= |d.files|
  {
    && (forall i :: 0 <= i < n ==> Creatable(d.files, i) && HasPayload(lib, archive, d.files[i]))
    && Listed(lib, package, d, n) && package.Keys == ListedPaths(d, n)
  }

  lemma PartlyNext(
      lib: Library, archive: Bytes, d: Descriptor, package: map<Path, Payload>, n: nat, payload: Payload)
    requires n < |d.files| && Partly(lib, archive, d, package, n)
    requires HasPayload(lib, archive, d.files[n]) && IsPayload(lib, payload, d.files[n]) && d.files[n].path != []
    requires forall q :: q in package ==> !Clash(q, d.files[n].path)
    ensures Partly(lib, archive, d, package[d.files[n].path := payload], n + 1)
  {
  }

  lemma PartlyBlocked(
      lib: Library, archive: Bytes, d: Descriptor, package: map<Path, Payload>, n: nat, path: Path, q: Path)
    requires n <= |d.files| && Partly(lib, archive, d, package, n) && q in package && Clash(q, path)
    ensures n < |d.files| && path == d.files[n].path ==> !Extractable(lib, archive, d)
    ensures path == lib.descriptorPath ==> !Extractable(lib, archive, d)
  {
  }

  lemma PartlyComplete(lib: Library, archive: Bytes, d: Descriptor, package: map<Path, Payload>)
    requires Partly(lib, archive, d, package, |d.files|)
    requires forall q :: q in package ==> !Clash(q, lib.descriptorPath)
    ensures Extractable(lib, archive, d)
    ensures PackageMatches(
              lib, package[lib.descriptorPath := Payload(lib.encodeDescriptor(d), false)], d)
  {
  }

  method ExtractVerifiedPackage(machine: Machine, lib: Library, archive: Bytes, d: Descriptor)
    returns (r: Result<map<Path, Payload>>)
    requires lib.Valid()
    modifies machine
    ensures machine.failures >= old(machine.failures)
    ensures r.Ok? ==> Extractable(lib, archive, d) && PackageMatches(lib, r.value, d)
    ensures r.Err? && machine.failures == old(machine.failures) ==> !Extractable(lib, archive, d)
  {
    var package: map<Path, Payload> := map[];
    for i := 0 to |d.files|
      invariant machine.failures >= old(machine.failures) && Partly(lib, archive, d, package, i)
    {
      var next := ExtractFile(machine, lib, archive, package, d.files[i]);
      if next.Err? {
        if q :| q in package && Clash(q, d.files[i].path) {
          PartlyBlocked(lib, archive, d, package, i, d.files[i].path, q);
        }
        return Err;
      }
      PartlyNext(lib, archive, d, package, i, next.value[d.files[i].path]);
      package := next.value;
    }
    var created := CreateFile(machine, package, lib.descriptorPath);
    if created.Err? {
      if q :| q in package && Clash(q, lib.descriptorPath) {
        PartlyBlocked(lib, archive, d, package, |d.files|, lib.descriptorPath, q);
      }
      return Err;
    }
    PartlyComplete(lib, archive, d, package);
    r := Ok(package[lib.descriptorPath := Payload(lib.encodeDescriptor(d), false)]);
  }

  // ---------- Checking a published view ----------

  method VerifyMaterializedPackage(lib: Library, package: map<Path, Payload>, d: Descriptor)
    returns (matches: bool)
    ensures matches == PackageMatches(lib, package, d)
  {
    var path := lib.descriptorPath;
    if path !in package || package[path].bytes != lib.encodeDescriptor(d) {
      return false;
    }
    var expected := {path};
    for i := 0 to |d.files|
      invariant Listed(lib, package, d, i) && expected == ListedPaths(d, i) + {path}
    {
      var file := d.files[i];
      if file.path !in package || !IsPayload(lib, package[file.path], file) {
        return false;
      }
      expected := expected + {file.path};
    }
    matches := package.Keys == expected;
  }

  /** `Ok(false)` when nothing is there, `Ok(true)` for the same download, and an error for anything else. */
  method ExistingViewMatches(machine: Machine, lib: Library, views: map<Path, Entry>, path: Path, expected: Origin)
    returns (r: Result<bool>)
    modifies machine
    ensures machine.failures >= old(machine.failures)
    ensures r.Ok? ==> r.value == (path in views) && (r.value ==> Accepted(lib, views[path], expected))
    ensures r.Err? && machine.failures == old(machine.failures) ==>
      path in views && !Accepted(lib, views[path], expected)
  {
    var readable := machine.Attempt();
    if !readable {
      return Err;
    }
    if path !in views {
      return Ok(false);
    }
    var entry := views[path];
    if entry.Foreign? || entry.origin.None? || |entry.origin.value| > MAX_ORIGIN_BYTES {
      return Err;
    }
    if lib.decodeOrigin(entry.origin.value) != Some(expected) || entry.archive.None? || entry.package.None? {
      return Err;
    }
    var verified := lib.inspect(entry.archive.value);
    if verified.None? || verified.value.sha256 != expected.archiveSha256
       || verified.value.size != expected.archiveSize || verified.value.descriptor.target != expected.target {
      return Err;
    }
    var matches := VerifyMaterializedPackage(lib, entry.package.value, verified.value.descriptor);
    r := if matches then Ok(true) else Err;
  }

  // ---------- Publishing ----------

  datatype Request = Request(
    stream: seq<Bytes>, verified: Verified, project: Option<string>, source: string)

  datatype Download = Download(logicalUri: string, canonicalPath: Path, indexPaths: seq<Path>)

  function OriginOf(lib: Library, c: Coordinate, request: Request): Origin {
    var v := request.verified;
    Origin(LogicalUri(c, request.source, Some(v.descriptor.target)), c, request.source, v.descriptor.target,
           v.sha256, v.size, lib.digest(lib.encodeDescriptor(v.descriptor)))
  }

  /** The archive still is the verified one and can be unpacked. */
  ghost predicate Stageable(lib: Library, request: Request) {
    var bytes := ReadAll(request.stream);
    && |bytes| == request.verified.size && lib.digest(bytes) == request.verified.sha256
    && lib.inspect(bytes) == Some(request.verified)
    && Extractable(lib, bytes, request.verified.descriptor)
  }

  /** Published views stay as they are, and only `path` may be new. */
  ghost predicate Extends(before: map<Path, Entry>, after: map<Path, Entry>, path: Path) {
    && (forall q :: q in before ==> q in after && after[q] == before[q])
    && forall q :: q in after && q != path ==> q in before
  }

  function CoordinateOf(lib: Library, request: Request): Result<Coordinate> {
    var m := request.verified.manifest;
    NewCoordinate(lib.isSlug, m.org, request.project, m.name, m.version)
  }

  predicate WellNamed(lib: Library, layout: Layout, request: Request) {
    && request.source in layout.sources && CoordinateOf(lib, request).Ok?
    && SafeSegment(request.verified.descriptor.target)
    && Holdable(Targets(lib, layout, request)[0])
  }

  function OriginFor(lib: Library, request: Request): Origin
    requires CoordinateOf(lib, request).Ok?
  {
    OriginOf(lib, CoordinateOf(lib, request).value, request)
  }

  function Targets(lib: Library, layout: Layout, request: Request): seq<Path>
    requires CoordinateOf(lib, request).Ok?
  {
    Destinations(layout, CoordinateOf(lib, request).value, request.source, request.verified.descriptor.target)
  }

  /** Records of what a file system can hold are readable. */
  lemma {:induction false} OriginIsReadable(lib: Library, layout: Layout, request: Request)
    requires lib.Valid() && WellNamed(lib, layout, request)
    ensures Readable(lib, OriginFor(lib, request))
  {
    var (c, target) := (CoordinateOf(lib, request).value, request.verified.descriptor.target);
    HoldableParts(layout, c, request.source, target);
    UriLength(layout, c, request.source, target);
  }

  /** What a call is about: its targets in order, and what it makes of a view and of its archive. */
  datatype Job = Job(targets: seq<Path>, accepted: Entry -> bool, stageable: bool)

  /** The first `n` targets are served. `quiet` and `alone` as for `Materialized`. */
  ghost predicate Progress(
    job: Job, before: map<Path, Entry>, now: map<Path, Entry>, n: nat, quiet: bool, alone: bool)
  {
    && n <= |job.targets|
    && (forall path :: path in before ==> path in now && now[path] == before[path])
    && (forall path :: path in now && path !in before ==>
          path in job.targets[..n] && (alone ==> job.accepted(now[path])))
    && (forall i :: 0 <= i < n ==> job.targets[i] in now && job.accepted(now[job.targets[i]]))
    && (quiet ==>
          && (forall i :: 0 <= i < n && job.targets[i] in before ==> job.accepted(before[job.targets[i]]))
          && (n > 0 ==> job.targets[0] in before || job.stageable))
  }

  /** What materializing the next target does, as its contract says. */
  ghost predicate Advanced(
    job: Job, before: map<Path, Entry>, after: map<Path, Entry>, n: nat, ok: bool, quiet: bool, alone: bool)
    requires n < |job.targets|
  {
    var path := job.targets[n];
    && Extends(before, after, path)
    && (alone && path in after && path !in before ==> job.accepted(after[path]))
    && (ok ==> path in after && job.accepted(after[path]))
    && (quiet ==>
          (ok <==> if path in before then job.accepted(before[path]) else n == 0 ==> job.stageable))
  }

  lemma ProgressNext(
      job: Job, before: map<Path, Entry>, now: map<Path, Entry>, after: map<Path, Entry>,
      n: nat, quiet: bool, alone: bool)
    requires Distinct(job.targets) && n < |job.targets| && Progress(job, before, now, n, quiet, alone)
    requires Advanced(job, now, after, n, true, quiet, alone)
    ensures Progress(job, before, after, n + 1, quiet, alone)
  {
  }

  /** The views after a call that stopped at target `n`, and why it stopped. */
  lemma ProgressFailed(
      job: Job, before: map<Path, Entry>, now: map<Path, Entry>, after: map<Path, Entry>,
      n: nat, quiet: bool, alone: bool)
    requires Distinct(job.targets) && n < |job.targets| && Progress(job, before, now, n, quiet, alone)
    requires Advanced(job, now, after, n, false, quiet, alone)
    ensures Grew(job, before, after, alone)
    ensures quiet ==> !Startable(job, before)
  {
  }

  lemma ProgressStep(
      job: Job, before: map<Path, Entry>, now: map<Path, Entry>, after: map<Path, Entry>,
      n: nat, ok: bool, quiet: bool, calm: bool, alone: bool)
    requires Distinct(job.targets) && n < |job.targets|
    requires exists was :: (alone ==> was) && Progress(job, before, now, n, quiet, was)
    requires Advanced(job, now, after, n, ok, calm, alone)
    ensures ok ==> Progress(job, before, after, n + 1, quiet && calm, alone)
    ensures !ok ==> Grew(job, before, after, alone) && (quiet && calm ==> !Startable(job, before))
  {
    assert Progress(job, before, now, n, quiet && calm, alone);
    if ok {
      ProgressNext(job, before, now, after, n, quiet && calm, alone);
    } else {
      ProgressFailed(job, before, now, after, n, quiet && calm, alone);
    }
  }

  ghost predicate Grew(job: Job, before: map<Path, Entry>, after: map<Path, Entry>, alone: bool) {
    && (forall path :: path in before ==> path in after && after[path] == before[path])
    && forall path :: path in after && path !in before ==>
         path in job.targets && (alone ==> job.accepted(after[path]))
  }

  ghost predicate Startable(job: Job, views: map<Path, Entry>) {
    && job.targets != [] && (job.targets[0] in views || job.stageable)
    && forall path :: path in job.targets && path in views ==> job.accepted(views[path])
  }

  lemma ProgressDone(
      job: Job, before: map<Path, Entry>, now: map<Path, Entry>, quiet: bool, alone: bool)
    requires job.targets != [] && Progress(job, before, now, |job.targets|, quiet, alone)
    ensures Grew(job, before, now, alone)
    ensures forall path :: path in job.targets ==> path in now && job.accepted(now[path])
    ensures quiet ==> Startable(job, before)
  {
  }

  ghost function NewJob(lib: Library, targets: seq<Path>, origin: Origin, stageable: bool): Job {
    Job(targets, entry => Accepted(lib, entry, origin), stageable)
  }

  ghost function JobOf(lib: Library, layout: Layout, request: Request): Job
    requires CoordinateOf(lib, request).Ok?
  {
    NewJob(lib, Targets(lib, layout, request), OriginFor(lib, request), Stageable(lib, request))
  }

  /** When a call succeeds if nothing goes wrong around it. */
  ghost predicate Admissible(lib: Library, layout: Layout, views: map<Path, Entry>, request: Request) {
    WellNamed(lib, layout, request) && Startable(JobOf(lib, layout, request), views)
  }

  /** Every view of a download is there. */
  ghost predicate Served(lib: Library, layout: Layout, views: map<Path, Entry>, request: Request) {
    && WellNamed(lib, layout, request)
    && forall path :: path in Targets(lib, layout, request) ==>
         path in views && Accepted(lib, views[path], OriginFor(lib, request))
  }

  /** What a call leaves. `quiet`: nothing failed by itself; `alone`: nobody else created a view. */
  ghost predicate Materialized(
    lib: Library, layout: Layout, before: map<Path, Entry>, after: map<Path, Entry>,
    request: Request, r: Result<Download>, quiet: bool, alone: bool)
  {
    && (if WellNamed(lib, layout, request) then Grew(JobOf(lib, layout, request), before, after, alone)
        else after == before)
    && (r.Ok? ==>
          && Served(lib, layout, after, request)
          && r.value.logicalUri == OriginFor(lib, request).logicalUri
          && [r.value.canonicalPath] + r.value.indexPaths == Targets(lib, layout, request))
    && (quiet ==> (r.Ok? <==> Admissible(lib, layout, before, request)))
  }

  lemma Concluded(
      lib: Library, layout: Layout, before: map<Path, Entry>, after: map<Path, Entry>,
      request: Request, r: Result<Download>, quiet: bool, alone: bool)
    requires WellNamed(lib, layout, request)
    requires Grew(JobOf(lib, layout, request), before, after, alone)
    requires r.Ok? ==>
      && (forall path :: path in Targets(lib, layout, request) ==>
            path in after && Accepted(lib, after[path], OriginFor(lib, request)))
      && r.value.logicalUri == OriginFor(lib, request).logicalUri
      && [r.value.canonicalPath] + r.value.indexPaths == Targets(lib, layout, request)
    requires quiet ==> (r.Ok? <==> Startable(JobOf(lib, layout, request), before))
    ensures Materialized(lib, layout, before, after, request, r, quiet, alone)
  {
  }

  lemma TargetsDiffer(lib: Library, layout: Layout, request: Request)
    requires CoordinateOf(lib, request).Ok?
    ensures Distinct(Targets(lib, layout, request))
  {
    var (c, target) := (CoordinateOf(lib, request).value, request.verified.descriptor.target);
    var targets := Targets(lib, layout, request);
    forall i, j | 0 <= i < j < |targets| ensures targets[i] != targets[j] {
      if targets[i] == targets[j] {
        DestinationsIdentify(
          layout, c, request.source, target, i, targets[i], c, request.source, target, j, targets[j]);
      }
    }
  }

  class Downloads {
    const machine: Machine
    const lib: Library
    const layout: Layout
    var views: map<Path, Entry>
    /** Nobody else has created a view. */
    ghost var alone: bool

    constructor (machine: Machine, lib: Library, layout: Layout)
      ensures this.machine == machine && this.lib == lib && this.layout == layout && views == map[] && alone
    {
      this.machine := machine;
      this.lib := lib;
      this.layout := layout;
      views := map[];
      alone := true;
    }

    /** The destination may be new; then it is a whole view, unless somebody else created it. */
    twostate predicate Grown(path: Path, origin: Origin)
      reads this
    {
      && Extends(old(views), views, path)
      && (alone ==> old(alone))
      && (alone && path in views && path !in old(views) ==> Accepted(lib, views[path], origin))
    }

    /**
     The rename that publishes a staged directory. It never replaces anything. When it fails,
     someone else may just have created the destination.
     */
    method Rename(path: Path, staged: Entry) returns (done: bool)
      modifies this, machine
      ensures machine.failures >= old(machine.failures)
      ensures Extends(old(views), views, path) && (alone ==> old(alone))
      ensures alone && !done ==> views == old(views)
      ensures done ==> path !in old(views) && views == old(views)[path := staged]
      ensures machine.failures == old(machine.failures) ==>
        done == (path !in old(views)) && (!done ==> views == old(views))
    {
      if path in views {
        return false;
      }
      done := machine.Attempt();
      var raced: bool := *;
      if done {
        views := views[path := staged];
      } else if raced {
        var other: Entry := *;
        views := views[path := other];
        alone := false;
      }
    }

    /** What follows a rename: a failed one is forgiven if the same view is there by now. */
    method Publish(path: Path, staged: Entry, origin: Origin) returns (r: Result<()>)
      requires Accepted(lib, staged, origin)
      modifies this, machine
      ensures machine.failures >= old(machine.failures)
      ensures Grown(path, origin)
      ensures r.Ok? ==> path in views && Accepted(lib, views[path], origin)
      ensures machine.failures == old(machine.failures) ==>
        (r.Ok? <==> (path in old(views) ==> Accepted(lib, old(views)[path], origin)))
    {
      var done := Rename(path, staged);
      if done {
        var synced := machine.Attempt();
        r := if synced then Ok(()) else Err;
      } else if path in views {
        var existing := ExistingViewMatches(machine, lib, views, path, origin);
        r := if existing == Ok(true) then Ok(()) else Err;
      } else {
        r := Err;
      }
    }

    method Stage(request: Request, origin: Origin) returns (r: Result<Entry>)
      requires lib.Valid()
      requires origin.archiveSha256 == request.verified.sha256 && origin.archiveSize == request.verified.size
      requires origin.target == request.verified.descriptor.target && Readable(lib, origin)
      modifies machine
      ensures machine.failures >= old(machine.failures)
      ensures r.Ok? ==> Stageable(lib, request) && Accepted(lib, r.value, origin)
      ensures r.Err? && machine.failures == old(machine.failures) ==> !Stageable(lib, request)
    {
      var copied := CopyBound(lib, request.stream, origin.archiveSha256, origin.archiveSize);
      if copied.Err? {
        return Err;
      }
      if lib.inspect(copied.value) != Some(request.verified) {
        return Err;
      }
      var package := ExtractVerifiedPackage(machine, lib, copied.value, request.verified.descriptor);
      if package.Err? {
        return Err;
      }
      var written := machine.Attempt();
      if !written {
        return Err;
      }
      r := Ok(Directory(Some(copied.value), Some(lib.encodeOrigin(origin)), Some(package.value)));
    }

    method MaterializeCanonicalView(path: Path, request: Request, origin: Origin) returns (r: Result<()>)
      requires lib.Valid()
      requires origin.archiveSha256 == request.verified.sha256 && origin.archiveSize == request.verified.size
      requires origin.target == request.verified.descriptor.target && Readable(lib, origin)
      modifies this, machine
      ensures machine.failures >= old(machine.failures)
      ensures Grown(path, origin)
      ensures r.Ok? ==> path in views && Accepted(lib, views[path], origin)
      ensures machine.failures == old(machine.failures) ==>
        (r.Ok? <==> if path in old(views) then Accepted(lib, old(views)[path], origin) else Stageable(lib, request))
    {
      var existing := ExistingViewMatches(machine, lib, views, path, origin);
      if existing.Err? {
        return Err;
      }
      if existing.value {
        return Ok(());
      }
      var staged := Stage(request, origin);
      if staged.Err? {
        return Err;
      }
      r := Publish(path, staged.value, origin);
    }

    method ReplicateTree(entry: Entry) returns (r: Result<Entry>)
      requires entry.Directory?
      modifies machine
      ensures machine.failures == old(machine.failures) + if r.Ok? then 0 else 1
      ensures r.Ok? ==> r.value == entry
    {
      var package: Option<map<Path, Payload>> := None;
      if entry.package.Some? {
        var paths := Enumerate(entry.package.value.Keys);
        var copy: map<Path, Payload> := map[];
        for i := 0 to |paths|
          invariant machine.failures == old(machine.failures)
          invariant copy.Keys == set p | p in paths[..i]
          invariant forall p :: p in copy ==> p in entry.package.value && copy[p] == entry.package.value[p]
        {
          var linked := machine.Attempt();
          if !linked {
            return Err;
          }
          copy := copy[paths[i] := entry.package.value[paths[i]]];
        }
        assert paths[..|paths|] == paths;
        assert copy == entry.package.value;
        package := Some(copy);
      }
      var synced := machine.Attempt();
      r := if synced then Ok(Directory(entry.archive, entry.origin, package)) else Err;
    }

    method MaterializeIndexView(path: Path, canonical: Path, origin: Origin) returns (r: Result<()>)
      requires canonical in views && Accepted(lib, views[canonical], origin)
      modifies this, machine
      ensures machine.failures >= old(machine.failures)
      ensures Grown(path, origin)
      ensures r.Ok? ==> path in views && Accepted(lib, views[path], origin)
      ensures machine.failures == old(machine.failures) ==>
        (r.Ok? <==> (path in old(views) ==> Accepted(lib, old(views)[path], origin)))
    {
      var existing := ExistingViewMatches(machine, lib, views, path, origin);
      if existing.Err? {
        return Err;
      }
      if existing.value {
        return Ok(());
      }
      var staged := ReplicateTree(views[canonical]);
      if staged.Err? {
        return Err;
      }
      r := Publish(path, staged.value, origin);
    }

    /** The canonical view and then the others, in order; the first failure ends it. */
    method MaterializeViews(request: Request, origin: Origin, relative: Path, aliases: seq<Path>, ghost job: Job)
      returns (r: Result<()>)
      requires lib.Valid()
      requires origin.archiveSha256 == request.verified.sha256 && origin.archiveSize == request.verified.size
      requires origin.target == request.verified.descriptor.target && Readable(lib, origin)
      requires job == NewJob(lib, [relative] + aliases, origin, Stageable(lib, request)) && Distinct(job.targets)
      modifies this, machine
      ensures Grew(job, old(views), views, alone) && (alone ==> old(alone))
      ensures r.Ok? ==> forall path :: path in job.targets ==> path in views && Accepted(lib, views[path], origin)
      ensures machine.failures == old(machine.failures) ==> (r.Ok? <==> Startable(job, old(views)))
    {
      r := MaterializeCanonicalView(relative, request, origin);
      ghost var quiet := machine.failures == old(machine.failures);
      if r.Err? {
        ProgressFailed(job, old(views), old(views), views, 0, quiet, alone);
        return;
      }
      ProgressNext(job, old(views), old(views), views, 0, quiet, alone);
      r := MaterializeIndexViews(aliases, relative, origin, job, old(views), old(machine.failures));
      if r.Ok? {
        ProgressDone(job, old(views), views, machine.failures == old(machine.failures), alone);
      }
    }

    method MaterializeIndexViews(
        aliases: seq<Path>, canonical: Path, origin: Origin, ghost job: Job, ghost before: map<Path, Entry>,
        ghost since: nat)
      returns (r: Result<()>)
      requires job.targets == [canonical] + aliases && Distinct(job.targets)
      requires job == NewJob(lib, job.targets, origin, job.stageable)
      requires since <= machine.failures && Progress(job, before, views, 1, machine.failures == since, alone)
      modifies this, machine
      ensures since <= machine.failures && (alone ==> old(alone))
      ensures r.Ok? ==> Progress(job, before, views, |job.targets|, machine.failures == since, alone)
      ensures r.Err? ==>
        Grew(job, before, views, alone) && (machine.failures == since ==> !Startable(job, before))
    {
      r := Ok(());
      for i := 0 to |aliases|
        invariant r.Ok? && (alone ==> old(alone)) && since <= machine.failures
        invariant Progress(job, before, views, i + 1, machine.failures == since, alone)
      {
        ghost var now, quiet, reached := views, machine.failures == since, machine.failures;
        assert job.targets[0] == canonical && job.targets[i + 1] == aliases[i];
        r := AdvanceIndex(i + 1, aliases[i], canonical, origin, job);
        ProgressStep(job, before, now, views, i + 1, r.Ok?, quiet, machine.failures == reached, alone);
        if r.Err? {
          return;
        }
      }
    }

    /** The same as a step of a job. */
    method AdvanceIndex(n: nat, alias: Path, canonical: Path, origin: Origin, ghost job: Job) returns (r: Result<()>)
      requires 0 < n < |job.targets| && job.targets[n] == alias
      requires canonical in views && job.accepted(views[canonical])
      requires job == NewJob(lib, job.targets, origin, job.stageable)
      modifies this, machine
      ensures machine.failures >= old(machine.failures) && (alone ==> old(alone))
      ensures Advanced(job, old(views), views, n, r.Ok?, machine.failures == old(machine.failures), alone)
    {
      r := MaterializeIndexView(alias, canonical, origin);
    }

    method MaterializeBinary(request: Request) returns (r: Result<Download>)
      requires lib.Valid()
      modifies this, machine
      ensures Materialized(
                lib, layout, old(views), views, request, r, machine.failures == old(machine.failures), alone)
      ensures alone ==> old(alone)
    {
      if request.source !in layout.sources || CoordinateOf(lib, request).Err? {
        return Err;
      }
      var coordinate := CoordinateOf(lib, request).value;
      var target := request.verified.descriptor.target;
      if !SafeSegment(target) {
        return Err;
      }
      var origin := OriginOf(lib, coordinate, request);
      var relative := CanonicalRelative(layout, coordinate, request.source, target);
      var aliases := IndexRelatives(layout, coordinate, request.source, target);
      if !Holdable(relative) {
        return Err;
      }
      TargetsDiffer(lib, layout, request);
      OriginIsReadable(lib, layout, request);
      var done := MaterializeViews(request, origin, relative, aliases, JobOf(lib, layout, request));
      r := if done.Ok? then Ok(Download(origin.logicalUri, relative, aliases)) else Err;
      Concluded(
        lib, layout, old(views), views, request, r, machine.failures == old(machine.failures), alone);
    }
  }
}
