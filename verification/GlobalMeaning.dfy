/** What the promises of the global commands come to, in files and stored bytes only. */
module GlobalMeaning {
  import opened Wrappers
  import opened GlobalFiles
  import opened GlobalBins
  import opened GlobalProfiles

  /** A profile with this executable stands at `org/name`. */
  ghost predicate Exhibits(files: Files, env: Env, org: string, name: string, logical: string, bytes: Bytes) {
    && env.isSlug(org) && env.isSlug(name)
    && Profile(org, name) in files && files[Profile(org, name)].Dir?
    && files[Profile(org, name)].tree.metadata != Missing
    && logical in files[Profile(org, name)].tree.bins && files[Profile(org, name)].tree.bins[logical] == bytes
  }

  /** The stored index has this entry. */
  ghost predicate Recorded(files: Files, env: Env, file: string, entry: ManagedBin) {
    && Index in files && files[Index].File? && env.decode(files[Index].bytes).Some?
    && var state := env.decode(files[Index].bytes).value;
       file in state && state[file] == entry
  }

  /** A file with exactly these bytes stands in the bin directory. */
  predicate Stored(files: Files, file: string, bytes: Bytes) {
    Bin(file) in files && files[Bin(file)] == File(bytes)
  }

  /** After a successful command every installed executable is in the bin directory and in the index. */
  lemma {:induction false} CommitLinks(
      before: Files, after: Files, env: Env, org: string, name: string, logical: string, bytes: Bytes)
    requires env.Valid() && Synchronized(before, after, env)
    requires Exhibits(after, env, org, name, logical, bytes)
    ensures Stored(after, env.destination(logical), bytes)
    ensures Recorded(after, env, env.destination(logical), ManagedBin(org + "/" + name, env.hash(bytes)))
  {
    var state :| Consistent(after, env, state) && Retired(before, after, env, state);
    assert Exposes(after, env, Profile(org, name), logical);
    assert Served(after, env, state, Profile(org, name), logical);
  }

  /** And the index has nothing else. */
  lemma {:induction false} CommitRecords(before: Files, after: Files, env: Env, file: string, entry: ManagedBin)
    requires env.Valid() && Synchronized(before, after, env) && Recorded(after, env, file, entry)
    ensures exists org, name, logical, bytes ::
      Exhibits(after, env, org, name, logical, bytes) && env.destination(logical) == file
  {
    var state :| Consistent(after, env, state) && Retired(before, after, env, state);
    assert Justified(after, env, file);
    var path, logical :| Exposes(after, env, path, logical) && env.destination(logical) == file;
    assert Exhibits(after, env, path.org, path.name, logical, after[path].tree.bins[logical]);
  }

  /** A recorded, unchanged executable that no profile has any more is gone. */
  lemma {:induction false} CommitRetires(
      before: Files, after: Files, env: Env, file: string, entry: ManagedBin, bytes: Bytes)
    requires env.Valid() && Synchronized(before, after, env)
    requires Recorded(before, env, file, entry) && Stored(before, file, bytes) && env.hash(bytes) == entry.sha256
    requires forall org, name, logical, other ::
      Exhibits(after, env, org, name, logical, other) ==> env.destination(logical) != file
    ensures Bin(file) !in after
  {
    var state :| Consistent(after, env, state) && Retired(before, after, env, state);
    if file in state {
      CommitRecords(before, after, env, file, state[file]);
    }
  }

  /** Whatever the outcome, a file is left alone unless it is recorded with its own hash; directories always are. */
  lemma {:induction false} CommandsSpare(
      before: Files, after: Files, id: nat, env: Env, roots: set<Path>, ok: bool, lost: set<Path>, file: string)
    requires Transacted(before, after, id, env, roots, ok, lost) && Bin(file) in before
    requires forall entry, bytes :: Recorded(before, env, file, entry) && Stored(before, file, bytes) ==>
      env.hash(bytes) != entry.sha256
    ensures Bin(file) in after && after[Bin(file)] == before[Bin(file)]
  {
    if LoadIndex(before, env).Some? && file in LoadIndex(before, env).value && before[Bin(file)].File? {
      var entry := LoadIndex(before, env).value[file];
      assert Recorded(before, env, file, entry) && Stored(before, file, before[Bin(file)].bytes);
    }
  }

  /** From a home without an index through any success to one without profiles: the bin directory is as it was. */
  lemma {:induction false} RemovingUndoesInstalling(before: Files, between: Files, after: Files, env: Env, file: string)
    requires env.Valid() && Synchronized(before, between, env) && Synchronized(between, after, env)
    requires Index !in before
    requires forall org, name, logical, bytes :: !Exhibits(after, env, org, name, logical, bytes)
    ensures Lookup(after, Bin(file)) == Lookup(before, Bin(file))
  {
    var first :| Consistent(between, env, first) && Retired(before, between, env, first);
    var second :| Consistent(after, env, second) && Retired(between, after, env, second);
    if file in second {
      CommitRecords(between, after, env, file, second[file]);
    }
    if file in first {
      assert Justified(between, env, file);
      var path, logical :| Exposes(between, env, path, logical) && env.destination(logical) == file;
      assert Served(between, env, first, path, logical);
      assert Owned(between, env, first, file);
    }
  }

  // ---------- When the commands succeed ----------

  /** Letters, digits and a few marks, and not a directory's own name. */
  predicate SafeName(name: string) {
    && name !in {"", ".", ".."}
    && forall c :: c in name ==>
      'a' <= c <= 'z' || 'A' <= c <= 'Z' || '0' <= c <= '9' || c == '-' || c == '_' || c == '.' || c == '+'
  }

  /** An executable at a place, before it is known where it will stand. */
  datatype Item = Item(org: string, name: string, logical: string)

  /** The executables there are, each with a safe name, a place of its own, and nothing standing there. */
  ghost predicate Unclaimed(files: Files, env: Env, items: Item -> bool) {
    && !(Index in files && files[Index].File?)
    && (forall item :: items(item) ==> SafeName(item.logical) && Bin(env.destination(item.logical)) !in files)
    && forall x, y :: items(x) && items(y) && x != y ==> env.destination(x.logical) != env.destination(y.logical)
  }

  /** The executables of these profiles. */
  ghost predicate Exposed(files: Files, profiles: seq<InstalledProfile>, item: Item) {
    var path := Profile(item.org, item.name);
    && (exists i :: 0 <= i < |profiles| && profiles[i].root == path)
    && path in files && files[path].Dir? && item.logical in files[path].tree.bins
  }

  ghost function ExposedItems(files: Files, profiles: seq<InstalledProfile>): Item -> bool {
    item => Exposed(files, profiles, item)
  }

  /** A first synchronization is not refused. */
  lemma {:induction false} FirstIsNotRefused(
      files: Files, env: Env, profiles: seq<InstalledProfile>, desired: map<string, DesiredBin>)
    requires forall i :: 0 <= i < |profiles| ==> profiles[i].root.Profile?
    requires forall i, j :: 0 <= i < j < |profiles| ==> profiles[i].root != profiles[j].root
    requires Unclaimed(files, env, ExposedItems(files, profiles))
    ensures !Refuses(files, env, profiles, desired)
  {
    forall i | 0 <= i < |profiles| ensures Fits(files, env, profiles[i], Taken(files, env, profiles[..i])) {
      var root := profiles[i].root;
      forall logical | logical in BinsOf(files, root)
        ensures ValidBinName(logical) && env.destination(logical) !in Taken(files, env, profiles[..i])
      {
        var item := Item(root.org, root.name, logical);
        assert Exposed(files, profiles, item);
        forall profile, second | profile in profiles[..i] && second in BinsOf(files, profile.root)
          ensures env.destination(second) != env.destination(logical)
        {
          var j :| 0 <= j < i && profiles[..i][j] == profile;
          var other := Item(profile.root.org, profile.root.name, second);
          assert Exposed(files, profiles, other) && profiles[j].root != root;
        }
      }
      forall x, y | x in BinsOf(files, root) && y in BinsOf(files, root) && x != y
        ensures env.destination(x) != env.destination(y)
      {
        var (one, other) := (Item(root.org, root.name, x), Item(root.org, root.name, y));
        assert Exposed(files, profiles, one) && Exposed(files, profiles, other);
      }
    }
    if Desires(files, env, profiles, desired) {
      forall name | name in desired ensures Bin(name) !in files {
        assert WantedBy(files, env, profiles, name, desired[name]);
        var profile :| profile in profiles && desired[name].logical in BinsOf(files, profile.root)
          && env.destination(desired[name].logical) == name;
        assert Exposed(files, profiles, Item(profile.root.org, profile.root.name, desired[name].logical));
      }
    }
  }

  /** So it succeeds unless an operation fails. */
  method SyncFirst(w: World, profiles: seq<InstalledProfile>) returns (ok: bool)
    requires w.Valid()
    requires forall i :: 0 <= i < |profiles| ==> profiles[i].root.Profile?
    requires forall i, j :: 0 <= i < j < |profiles| ==> profiles[i].root != profiles[j].root
    requires Unclaimed(w.files, w.env, ExposedItems(w.files, profiles))
    modifies w, w.machine
    ensures w.machine.failures == old(w.machine.failures) ==> ok
  {
    ghost var start := w.files;
    var r;
    ghost var lost, desired;
    r, lost, desired := SyncBins(w, profiles);
    FirstIsNotRefused(start, w.env, profiles, desired);
    ok := r.Ok?;
  }

  /** An index that cannot be read. */
  ghost predicate Garbled(files: Files, env: Env) {
    Index in files && files[Index].File? && env.decode(files[Index].bytes).None?
  }

  /** With such an index a synchronization is refused and changes nothing that could be named. */
  method SyncGarbled(w: World, profiles: seq<InstalledProfile>) returns (ok: bool)
    requires w.Valid() && Garbled(w.files, w.env)
    requires forall profile :: profile in profiles ==> profile.root.Profile?
    modifies w, w.machine
    ensures !ok && forall path :: !IsNew(path, old(w.nextId)) ==>
      (path in w.files <==> path in old(w.files)) && (path in w.files ==> w.files[path] == old(w.files)[path])
  {
    ghost var start, id := w.files, w.nextId;
    var r;
    ghost var lost, desired;
    r, lost, desired := SyncBins(w, profiles);
    forall path | !IsNew(path, id)
      ensures (path in w.files <==> path in start) && (path in w.files ==> w.files[path] == start[path])
    {
      assert Lookup(w.files, path) == Lookup(start, path);
    }
    ok := r.Ok?;
  }

  predicate Asked(requests: seq<Request>, org: string, name: string) {
    exists k :: 0 <= k < |requests| && requests[k].org == org && requests[k].name == name
  }

  /** What an installer leaves for some request, or a profile nobody asked for has already. */
  ghost predicate WillBeExposed(
      files: Files, env: Env, requests: seq<Request>, outcomes: seq<GlobalFiles.Outcome>, item: Item)
    requires |outcomes| == |requests|
  {
    || (exists k :: 0 <= k < |requests| && requests[k].org == item.org && requests[k].name == item.name
                    && item.logical in outcomes[k].tree.bins)
    || (!Asked(requests, item.org, item.name) && exists bytes ::
          Exhibits(files, env, item.org, item.name, item.logical, bytes))
  }

  ghost function WillBeItems(
      files: Files, env: Env, requests: seq<Request>, outcomes: seq<GlobalFiles.Outcome>): Item -> bool
    requires |outcomes| == |requests|
  {
    item => WillBeExposed(files, env, requests, outcomes, item)
  }

  /** A profile nobody asks for is no profile, or describes itself. */
  ghost predicate SelfDescribed(node: Node, org: string, name: string) {
    node.Dir? && node.tree.metadata != Missing ==>
      node.tree.metadata.Package? && node.tree.metadata.package == org + "/" + name
  }

  /** Valid requests whose installers succeed, beside sane profiles, with nothing in the way and no index yet. */
  ghost predicate FirstInstall(files: Files, env: Env, requests: seq<Request>, outcomes: seq<GlobalFiles.Outcome>)
    requires |outcomes| == |requests|
  {
    && requests != [] && (forall k :: 0 <= k < |outcomes| ==> outcomes[k].succeeds)
    && (forall k :: 0 <= k < |requests| ==> env.isSlug(requests[k].org) && env.isSlug(requests[k].name))
    && (forall j, k :: 0 <= j < k < |requests| ==>
          requests[j].org != requests[k].org || requests[j].name != requests[k].name)
    && (forall org, name :: Profile(org, name) in files && !Asked(requests, org, name) ==>
          SelfDescribed(files[Profile(org, name)], org, name))
    && Unclaimed(files, env, WillBeItems(files, env, requests, outcomes))
  }

  lemma {:induction false} FirstIsInstallable(
      files: Files, env: Env, requests: seq<Request>, outcomes: seq<GlobalFiles.Outcome>)
    requires |outcomes| == |requests| && FirstInstall(files, env, requests, outcomes)
    ensures Installable(files, env, requests, outcomes)
  {
    var after := AllFilled(files, requests, outcomes);
    forall path | Installed(after, env, path)
      ensures after[path].tree.metadata.Package? && after[path].tree.metadata.package == PackageOf(path)
    {
      WhatIsDescribed(files, env, requests, outcomes, path);
    }
    NothingMoved(files, requests, outcomes);
    forall file ensures Bin(file) in after <==> Bin(file) in files {
      assert Lookup(after, Bin(file)) == Lookup(files, Bin(file));
    }
    assert Lookup(after, Index) == Lookup(files, Index);
    NothingInTheWay(files, env, requests, outcomes);
  }

  lemma {:induction false} NothingInTheWay(
      files: Files, env: Env, requests: seq<Request>, outcomes: seq<GlobalFiles.Outcome>)
    requires |outcomes| == |requests| && FirstInstall(files, env, requests, outcomes)
    ensures var after := AllFilled(files, requests, outcomes);
      && NoCollision(after, env)
      && forall path, logical :: Exposes(after, env, path, logical) ==>
        ValidBinName(logical) && Bin(env.destination(logical)) !in files
  {
    var after := AllFilled(files, requests, outcomes);
    var items := WillBeItems(files, env, requests, outcomes);
    forall path, logical | Exposes(after, env, path, logical)
      ensures items(Item(path.org, path.name, logical))
      ensures ValidBinName(logical) && Bin(env.destination(logical)) !in files
    {
      WhatWillBe(files, env, requests, outcomes, path, logical);
    }
    forall path, logical, other, second | Exposes(after, env, path, logical) && Exposes(after, env, other, second)
      ensures (path == other && logical == second) || env.destination(logical) != env.destination(second)
    {
      var (x, y) := (Item(path.org, path.name, logical), Item(other.org, other.name, second));
      assert items(x) && items(y);
    }
  }

  lemma {:induction false} NothingMoved(files: Files, requests: seq<Request>, outcomes: seq<GlobalFiles.Outcome>)
    requires |outcomes| == |requests|
    ensures forall path: Path :: !path.Profile? ==>
      Lookup(AllFilled(files, requests, outcomes), path) == Lookup(files, path)
  {
    if requests != [] {
      var n := |requests| - 1;
      NothingMoved(files, requests[..n], outcomes[..n]);
    }
  }

  lemma {:induction false} WhatWillBe(
      files: Files, env: Env, requests: seq<Request>, outcomes: seq<GlobalFiles.Outcome>, path: Path, logical: string)
    requires |outcomes| == |requests| && ValidRequests(env, requests)
    requires Exposes(AllFilled(files, requests, outcomes), env, path, logical)
    ensures WillBeExposed(files, env, requests, outcomes, Item(path.org, path.name, logical))
  {
    var after := AllFilled(files, requests, outcomes);
    AllFilledIs(files, requests, outcomes);
    if Asked(requests, path.org, path.name) {
      var k :| 0 <= k < |requests| && requests[k].org == path.org && requests[k].name == path.name;
      assert Filled(after, requests[k], outcomes[k]) && RootOf(requests[k]) == path;
    } else {
      assert path !in RequestedRoots(requests);
      assert Lookup(after, path) == Lookup(files, path);
      assert Exhibits(files, env, path.org, path.name, logical, files[path].tree.bins[logical]);
    }
  }

  lemma {:induction false} WhatIsDescribed(
      files: Files, env: Env, requests: seq<Request>, outcomes: seq<GlobalFiles.Outcome>, path: Path)
    requires |outcomes| == |requests| && FirstInstall(files, env, requests, outcomes)
    requires Installed(AllFilled(files, requests, outcomes), env, path)
    ensures var metadata := AllFilled(files, requests, outcomes)[path].tree.metadata;
      metadata.Package? && metadata.package == PackageOf(path)
  {
    var after := AllFilled(files, requests, outcomes);
    AllFilledIs(files, requests, outcomes);
    if Asked(requests, path.org, path.name) {
      var k :| 0 <= k < |requests| && requests[k].org == path.org && requests[k].name == path.name;
      assert Filled(after, requests[k], outcomes[k]) && RootOf(requests[k]) == path;
    } else {
      assert path !in RequestedRoots(requests);
      assert Lookup(after, path) == Lookup(files, path);
      assert SelfDescribed(files[Profile(path.org, path.name)], path.org, path.name);
    }
  }

  /** Every profile is what its installer left, under metadata of its request. */
  ghost predicate AllInPlace(files: Files, requests: seq<Request>, outcomes: seq<GlobalFiles.Outcome>)
    requires |outcomes| == |requests|
  {
    forall k :: 0 <= k < |requests| ==> InPlace(files, requests[k], outcomes[k].tree)
  }

  predicate InPlace(files: Files, request: Request, tree: Tree) {
    var (path, metadata) :=
      (Profile(request.org, request.name), Package(request.org + "/" + request.name, request.requested));
    path in files && files[path] == Dir(Tree(metadata, tree.bins, tree.rest))
  }

  /** The bin directory and the index hold what every installer left. */
  ghost predicate AllLinked(files: Files, env: Env, requests: seq<Request>, outcomes: seq<GlobalFiles.Outcome>)
    requires |outcomes| == |requests|
  {
    forall k, logical :: 0 <= k < |requests| && logical in outcomes[k].tree.bins ==>
      Linked(files, env, requests[k], logical, outcomes[k].tree.bins[logical])
  }

  ghost predicate Linked(files: Files, env: Env, request: Request, logical: string, bytes: Bytes) {
    && Stored(files, env.destination(logical), bytes)
    && Recorded(files, env, env.destination(logical), ManagedBin(request.org + "/" + request.name, env.hash(bytes)))
  }

  lemma {:induction false} InstalledIsLinked(
      before: Files, after: Files, env: Env, requests: seq<Request>, outcomes: seq<GlobalFiles.Outcome>)
    requires |outcomes| == |requests| && env.Valid() && ValidRequests(env, requests)
    requires Synchronized(before, after, env)
    requires forall path: Path :: path.Profile? ==>
      Lookup(after, path) == Lookup(AllFilled(before, requests, outcomes), path)
    ensures AllLinked(after, env, requests, outcomes) && AllInPlace(after, requests, outcomes)
  {
    AllFilledIs(before, requests, outcomes);
    forall k | 0 <= k < |requests| ensures InPlace(after, requests[k], outcomes[k].tree) {
      assert Filled(AllFilled(before, requests, outcomes), requests[k], outcomes[k]);
      assert Lookup(after, Profile(requests[k].org, requests[k].name)) == Some(NodeOf(requests[k], outcomes[k]));
    }
    forall k, logical | 0 <= k < |requests| && logical in outcomes[k].tree.bins
      ensures Linked(after, env, requests[k], logical, outcomes[k].tree.bins[logical])
    {
      var (org, name) := (requests[k].org, requests[k].name);
      assert Filled(AllFilled(before, requests, outcomes), requests[k], outcomes[k]);
      assert Lookup(after, Profile(org, name)) == Some(NodeOf(requests[k], outcomes[k]));
      CommitLinks(before, after, env, org, name, logical, outcomes[k].tree.bins[logical]);
    }
  }

  /** A first install succeeds unless an operation fails, and every success links what the installers left. */
  method InstallFirst(w: World, requests: seq<Request>, outcomes: seq<GlobalFiles.Outcome>) returns (ok: bool)
    requires w.Valid() && |outcomes| == |requests|
    modifies w, w.machine
    ensures FirstInstall(old(w.files), w.env, requests, outcomes) ==>
      w.machine.failures == old(w.machine.failures) ==> ok
    ensures ok ==> AllLinked(w.files, w.env, requests, outcomes) && AllInPlace(w.files, requests, outcomes)
  {
    ghost var start := w.files;
    ghost var lost;
    ok, lost := Install(w, requests, outcomes);
    if FirstInstall(start, w.env, requests, outcomes) {
      FirstIsInstallable(start, w.env, requests, outcomes);
    }
    if ok {
      InstalledIsLinked(start, w.files, w.env, requests, outcomes);
    }
  }

  /** Over an index that cannot be read nothing is installed; without a failure, nothing that could be named changes. */
  method InstallOverGarbled(w: World, requests: seq<Request>, outcomes: seq<GlobalFiles.Outcome>) returns (ok: bool)
    requires w.Valid() && |outcomes| == |requests| && Garbled(w.files, w.env)
    modifies w, w.machine
    ensures !ok
    ensures w.machine.failures == old(w.machine.failures) ==> forall path :: !IsNew(path, old(w.nextId)) ==>
      (path in w.files <==> path in old(w.files)) && (path in w.files ==> w.files[path] == old(w.files)[path])
  {
    ghost var start, id := w.files, w.nextId;
    ghost var lost;
    ok, lost := Install(w, requests, outcomes);
    NothingMoved(start, requests, outcomes);
    assert Lookup(AllFilled(start, requests, outcomes), Index) == Lookup(start, Index);
    if w.machine.failures == old(w.machine.failures) {
      assert lost == {};
      forall path | !IsNew(path, id)
        ensures (path in w.files <==> path in start) && (path in w.files ==> w.files[path] == start[path])
      {
        assert Lookup(w.files, path) == Lookup(start, path);
      }
    }
  }

  // ---------- When they are refused ----------

  /** Nothing stands at this name, or a file that the index records with its very hash. */
  ghost predicate FreeOrOurs(files: Files, env: Env, file: string) {
    Bin(file) in files ==> exists entry, bytes ::
      Recorded(files, env, file, entry) && Stored(files, file, bytes) && env.hash(bytes) == entry.sha256
  }

  /** What every successful install found: safe names, each executable with a place of its own that is free or ours. */
  lemma {:induction false} InstallableNeeds(
      files: Files, env: Env, requests: seq<Request>, outcomes: seq<GlobalFiles.Outcome>, item: Item)
    requires |outcomes| == |requests| && Installable(files, env, requests, outcomes)
    requires WillBeExposed(files, env, requests, outcomes, item)
    ensures requests != [] && forall k :: 0 <= k < |requests| ==>
      outcomes[k].succeeds && env.isSlug(requests[k].org) && env.isSlug(requests[k].name)
    ensures SafeName(item.logical) && FreeOrOurs(files, env, env.destination(item.logical)) && !Garbled(files, env)
    ensures forall other :: WillBeExposed(files, env, requests, outcomes, other) && other != item ==>
      env.destination(other.logical) != env.destination(item.logical)
  {
    var after := AllFilled(files, requests, outcomes);
    NothingMoved(files, requests, outcomes);
    assert Lookup(after, Index) == Lookup(files, Index);
    WillBeIs(files, env, requests, outcomes, item);
    var file := env.destination(item.logical);
    assert Lookup(after, Bin(file)) == Lookup(files, Bin(file));
    if Bin(file) in files {
      var state := LoadIndex(after, env).value;
      assert Owned(after, env, state, file);
      assert Recorded(files, env, file, state[file]) && Stored(files, file, files[Bin(file)].bytes);
    }
    forall other | WillBeExposed(files, env, requests, outcomes, other) && other != item
      ensures env.destination(other.logical) != env.destination(item.logical)
    {
      WillBeIs(files, env, requests, outcomes, other);
    }
  }

  lemma {:induction false} WillBeIs(
      files: Files, env: Env, requests: seq<Request>, outcomes: seq<GlobalFiles.Outcome>, item: Item)
    requires |outcomes| == |requests| && ValidRequests(env, requests)
    requires WillBeExposed(files, env, requests, outcomes, item)
    ensures Exposes(AllFilled(files, requests, outcomes), env, Profile(item.org, item.name), item.logical)
  {
    var after := AllFilled(files, requests, outcomes);
    var path := Profile(item.org, item.name);
    AllFilledIs(files, requests, outcomes);
    if k :| 0 <= k < |requests| && requests[k].org == item.org && requests[k].name == item.name
            && item.logical in outcomes[k].tree.bins
    {
      assert Filled(after, requests[k], outcomes[k]) && RootOf(requests[k]) == path;
    } else {
      assert path !in RequestedRoots(requests);
      assert Lookup(after, path) == Lookup(files, path);
    }
  }

  /** A profile that describes another package stops every install. */
  lemma {:induction false} InstallableDescribes(
      files: Files, env: Env, requests: seq<Request>, outcomes: seq<GlobalFiles.Outcome>, org: string, name: string)
    requires |outcomes| == |requests| && Installable(files, env, requests, outcomes)
    requires env.isSlug(org) && env.isSlug(name) && !Asked(requests, org, name) && Profile(org, name) in files
    ensures SelfDescribed(files[Profile(org, name)], org, name)
  {
    var (after, path) := (AllFilled(files, requests, outcomes), Profile(org, name));
    AllFilledIs(files, requests, outcomes);
    assert path !in RequestedRoots(requests);
    assert Lookup(after, path) == Lookup(files, path);
    if files[path].Dir? && files[path].tree.metadata != Missing {
      assert Installed(after, env, path);
    }
  }

  /** An uninstall is about the profiles it names, or about all that are there. */
  lemma {:induction false} ChosenExactly(files: Files, env: Env, specs: seq<Path>, org: string, name: string)
    ensures Profile(org, name) in Chosen(files, env, specs) <==>
      if specs != [] then Profile(org, name) in specs
      else
        && env.isSlug(org) && env.isSlug(name) && Profile(org, name) in files && files[Profile(org, name)].Dir?
        && files[Profile(org, name)].tree.metadata != Missing
  {
  }

  /** What every successful uninstall found: profiles that are there, each named once, and a confirmation. */
  lemma {:induction false} RemovableNeeds(files: Files, env: Env, specs: seq<Path>, confirmed: bool)
    requires Removable(files, env, specs, confirmed)
    ensures forall i, j :: 0 <= i < j < |specs| ==> specs[i] != specs[j]
    ensures forall i :: 0 <= i < |specs| ==>
      && specs[i].Profile? && env.isSlug(specs[i].org) && env.isSlug(specs[i].name)
      && specs[i] in files && files[specs[i]].Dir? && files[specs[i]].tree.metadata != Missing
    ensures specs != [] ==> confirmed
    ensures forall org, name :: env.isSlug(org) && env.isSlug(name) && Profile(org, name) in files ==>
      SelfDescribed(files[Profile(org, name)], org, name)
  {
    forall org, name | env.isSlug(org) && env.isSlug(name) && Profile(org, name) in files
      ensures SelfDescribed(files[Profile(org, name)], org, name)
    {
      if files[Profile(org, name)].Dir? && files[Profile(org, name)].tree.metadata != Missing {
        assert Installed(files, env, Profile(org, name));
      }
    }
    forall i | 0 <= i < |specs| ensures Installed(files, env, specs[i]) {
      assert specs[i] in specs;
    }
    assert specs != [] ==> specs[0] in Chosen(files, env, specs);
  }

  /** What an install has put there can be taken away again, in any part. */
  lemma {:induction false} InstalledCanBeRemoved(
      before: Files, after: Files, env: Env, requests: seq<Request>, outcomes: seq<GlobalFiles.Outcome>,
      specs: seq<Path>)
    requires env.Valid() && |outcomes| == |requests| && (forall bytes :: env.hash(bytes) != "")
    requires Installable(before, env, requests, outcomes) && Synchronized(before, after, env)
    requires forall path: Path :: path.Profile? ==>
      Lookup(after, path) == Lookup(AllFilled(before, requests, outcomes), path)
    requires forall i, j :: 0 <= i < j < |specs| ==> specs[i] != specs[j]
    requires forall i :: 0 <= i < |specs| ==>
      && specs[i].Profile? && env.isSlug(specs[i].org) && env.isSlug(specs[i].name)
      && specs[i] in after && after[specs[i]].Dir? && after[specs[i]].tree.metadata != Missing
    ensures Removable(after, env, specs, true)
  {
    var (filled, rest) := (AllFilled(before, requests, outcomes), after - Chosen(after, env, specs));
    ChosenAreProfiles(after, env, specs);
    SameProfilesExpose(after, filled, env);
    FewerExpose(after, rest, env);
    var state :| Consistent(after, env, state) && Retired(before, after, env, state);
    assert Index in after && Index !in Chosen(after, env, specs) && LoadIndex(rest, env) == Some(state);
    StillSound(after, rest, env, state);
  }

  lemma {:induction false} ChosenAreProfiles(files: Files, env: Env, specs: seq<Path>)
    requires forall i :: 0 <= i < |specs| ==> specs[i].Profile?
    ensures forall path :: path in Chosen(files, env, specs) ==> path.Profile?
  {
  }

  lemma {:induction false} SameProfilesExpose(files: Files, other: Files, env: Env)
    requires forall path: Path :: path.Profile? ==> Lookup(files, path) == Lookup(other, path)
    requires Described(other, env) && NoCollision(other, env)
    requires forall path, logical :: Exposes(other, env, path, logical) ==> ValidBinName(logical)
    ensures Described(files, env) && NoCollision(files, env)
    ensures forall path, logical :: Exposes(files, env, path, logical) ==> ValidBinName(logical)
  {
    forall path: Path | path.Profile? ensures Installed(files, env, path) <==> Installed(other, env, path) {
      assert Lookup(files, path) == Lookup(other, path);
    }
    forall path, logical | Exposes(files, env, path, logical) ensures Exposes(other, env, path, logical) {
      assert Lookup(files, path) == Lookup(other, path);
    }
    forall path | Installed(files, env, path) ensures files[path] == other[path] {
      assert Lookup(files, path) == Lookup(other, path);
    }
  }

  lemma {:induction false} FewerExpose(files: Files, rest: Files, env: Env)
    requires forall path :: path in rest ==> path in files && files[path] == rest[path]
    requires Described(files, env) && NoCollision(files, env)
    requires forall path, logical :: Exposes(files, env, path, logical) ==> ValidBinName(logical)
    ensures Described(rest, env) && NoCollision(rest, env)
    ensures forall path, logical :: Exposes(rest, env, path, logical) ==>
      Exposes(files, env, path, logical) && BinsOf(rest, path) == BinsOf(files, path) && ValidBinName(logical)
  {
    forall path | Installed(rest, env, path) ensures Installed(files, env, path) {
    }
    forall path, logical | Exposes(rest, env, path, logical)
      ensures Exposes(files, env, path, logical) && BinsOf(rest, path) == BinsOf(files, path)
    {
    }
  }

  lemma {:induction false} StillSound(files: Files, rest: Files, env: Env, state: ManagedState)
    requires (forall bytes :: env.hash(bytes) != "") && Consistent(files, env, state)
    requires forall path :: path in rest ==> path in files && files[path] == rest[path]
    requires Described(rest, env) && NoCollision(rest, env) && LoadIndex(rest, env) == Some(state)
    requires forall path, logical :: Exposes(rest, env, path, logical) ==>
      Exposes(files, env, path, logical) && BinsOf(rest, path) == BinsOf(files, path) && ValidBinName(logical)
    ensures Sound(rest, env)
  {
    forall name | name in state && Bin(name) in rest ensures rest[Bin(name)].File? {
      assert Justified(files, env, name);
      var path, logical :| Exposes(files, env, path, logical) && env.destination(logical) == name;
      assert Served(files, env, state, path, logical);
    }
    forall path, logical | Exposes(rest, env, path, logical) && Bin(env.destination(logical)) in rest
      ensures Owned(rest, env, state, env.destination(logical))
    {
      assert Served(files, env, state, path, logical);
    }
  }
}
