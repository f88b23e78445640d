/**
 `zed global install` and `zed global uninstall`: profile trees are staged beside
 their places, executables are synchronized, and every failure puts both back.
 */
module GlobalProfiles {
  import opened Enumerations
  import opened Wrappers
  import opened Strings
  import opened GlobalFiles
  import opened GlobalBins

  datatype Request = Request(org: string, name: string, requested: string)

  datatype StagedProfile = StagedProfile(root: Path, backup: Option<Path>)

  const EMPTY_TREE := Tree(Missing, map[], [])

  // ---------- Discovery ----------

  function PackageOf(root: Path): string
    requires root.Profile?
  {
    root.org + "/" + root.name
  }

  /** The organization directory a path lies in, if it lies in one. */
  function OrgOf(path: Path): Option<string> {
    match path
    case Profile(org, _) => Some(org)
    case Sibling(of, _, _) => OrgOf(of)
    case _ => None
  }

  /** What a directory scan accepts as a profile: it sees only names. */
  predicate Scanned(files: Files, env: Env, path: Path) {
    && OrgOf(path).Some? && env.isSlug(OrgOf(path).value) && env.isSlug(env.FileName(path))
    && path in files && files[path].Dir? && files[path].tree.metadata != Missing
  }

  predicate Installed(files: Files, env: Env, path: Path) {
    && path.Profile? && env.isSlug(path.org) && env.isSlug(path.name)
    && path in files && files[path].Dir? && files[path].tree.metadata != Missing
  }

  /** Staged backups have dot names, so no scan mistakes one for a profile. */
  lemma BackupsAreInvisible(files: Files, env: Env, path: Path)
    requires env.Valid()
    ensures Scanned(files, env, path) <==> Installed(files, env, path)
  {
  }

  ghost predicate Discovered(files: Files, env: Env, profiles: seq<InstalledProfile>) {
    && (forall i :: 0 <= i < |profiles| ==>
      Installed(files, env, profiles[i].root) && profiles[i].package == PackageOf(profiles[i].root))
    && (forall path :: Installed(files, env, path) ==> Listed(profiles, path))
    && (forall i, j :: 0 <= i < j < |profiles| ==> profiles[i].root != profiles[j].root)
  }

  ghost predicate Listed(profiles: seq<InstalledProfile>, path: Path) {
    exists i :: 0 <= i < |profiles| && profiles[i].root == path
  }

  /** What a scan has found among the first `count` paths. */
  ghost predicate Found(files: Files, env: Env, paths: seq<Path>, count: nat, profiles: seq<InstalledProfile>)
    requires count <= |paths|
  {
    && (forall k :: 0 <= k < |profiles| ==> profiles[k].root in paths[..count])
    && (forall k :: 0 <= k < |profiles| ==>
      Installed(files, env, profiles[k].root) && profiles[k].package == PackageOf(profiles[k].root))
    && (forall j, k :: 0 <= j < k < |profiles| ==> profiles[j].root != profiles[k].root)
    && (forall k :: 0 <= k < count && Installed(files, env, paths[k]) ==> Listed(profiles, paths[k]))
  }

  lemma FoundMore(files: Files, env: Env, paths: seq<Path>, i: nat, profiles: seq<InstalledProfile>)
    requires i < |paths| && Distinct(paths) && Found(files, env, paths, i, profiles) && Installed(files, env, paths[i])
    ensures Found(files, env, paths, i + 1, profiles + [InstalledProfile(paths[i], PackageOf(paths[i]))])
  {
    var more := profiles + [InstalledProfile(paths[i], PackageOf(paths[i]))];
    forall k | 0 <= k < |profiles| ensures more[k].root != paths[i] && more[k].root in paths[..i + 1] {
      assert profiles[k].root in paths[..i];
    }
    forall k | 0 <= k < i + 1 && Installed(files, env, paths[k]) ensures Listed(more, paths[k]) {
      if k == i {
        assert more[|profiles|].root == paths[i];
      } else {
        var j :| 0 <= j < |profiles| && profiles[j].root == paths[k];
        assert more[j].root == paths[k];
      }
    }
  }

  /** Every profile's metadata names the package its place requires. */
  ghost predicate Described(files: Files, env: Env) {
    forall path :: Installed(files, env, path) ==>
      files[path].tree.metadata.Package? && files[path].tree.metadata.package == PackageOf(path)
  }

  method DiscoverProfiles(w: World) returns (r: Result<seq<InstalledProfile>>)
    requires w.Valid()
    modifies w.machine
    ensures w.machine.failures >= old(w.machine.failures)
    ensures r.Ok? ==> Described(w.files, w.env) && Discovered(w.files, w.env, r.value) && Ordered(r.value)
    ensures r.Err? ==> w.machine.failures > old(w.machine.failures) || !Described(w.files, w.env)
  {
    var readable := w.machine.Attempt();
    if !readable {
      return Err;
    }
    var profiles: seq<InstalledProfile> := [];
    var paths := Enumerate(w.files.Keys);
    for i := 0 to |paths|
      invariant w.machine.failures >= old(w.machine.failures) && Found(w.files, w.env, paths, i, profiles)
      invariant forall k :: 0 <= k < i && Installed(w.files, w.env, paths[k]) ==>
        w.files[paths[k]].tree.metadata.Package? && w.files[paths[k]].tree.metadata.package == PackageOf(paths[k])
    {
      BackupsAreInvisible(w.files, w.env, paths[i]);
      if Scanned(w.files, w.env, paths[i]) {
        var metadata := w.files[paths[i]].tree.metadata;
        if metadata.Malformed? || metadata.package != PackageOf(paths[i]) {
          return Err;
        }
        FoundMore(w.files, w.env, paths, i, profiles);
        profiles := profiles + [InstalledProfile(paths[i], metadata.package)];
      }
    }
    assert forall path :: Installed(w.files, w.env, path) ==> path in paths;
    var sorted := SortProfiles(profiles);
    SortedIsDiscovered(w.files, w.env, profiles, sorted);
    r := Ok(sorted);
  }

  /** By package, none before a smaller one. */
  ghost predicate Ordered(profiles: seq<InstalledProfile>) {
    forall i, j :: 0 <= i < j < |profiles| ==> !Below(profiles[j].package, profiles[i].package)
  }

  ghost predicate SameProfiles(profiles: seq<InstalledProfile>, others: seq<InstalledProfile>) {
    && |profiles| == |others| && (forall x :: x in profiles <==> x in others)
    && forall i, j :: 0 <= i < j < |others| ==> others[i].root != others[j].root
  }

  method SortProfiles(profiles: seq<InstalledProfile>) returns (sorted: seq<InstalledProfile>)
    requires forall i, j :: 0 <= i < j < |profiles| ==> profiles[i].root != profiles[j].root
    ensures Ordered(sorted) && SameProfiles(profiles, sorted)
  {
    sorted := [];
    for i := 0 to |profiles|
      invariant Ordered(sorted) && SameProfiles(profiles[..i], sorted)
    {
      var k := 0;
      while k < |sorted| && !Below(profiles[i].package, sorted[k].package)
        invariant 0 <= k <= |sorted|
        invariant forall j :: 0 <= j < k ==> !Below(profiles[i].package, sorted[j].package)
      {
        k := k + 1;
      }
      assert profiles[..i + 1] == profiles[..i] + [profiles[i]];
      InsertedInOrder(sorted, profiles[i], k);
      InsertedOnce(profiles[..i], sorted, profiles[i], k);
      sorted := sorted[..k] + [profiles[i]] + sorted[k..];
    }
    assert profiles[..|profiles|] == profiles;
  }

  lemma {:induction false} InsertedInOrder(sorted: seq<InstalledProfile>, x: InstalledProfile, k: nat)
    requires Ordered(sorted) && k <= |sorted|
    requires forall j :: 0 <= j < k ==> !Below(x.package, sorted[j].package)
    requires k < |sorted| ==> Below(x.package, sorted[k].package)
    ensures Ordered(sorted[..k] + [x] + sorted[k..])
  {
    forall j | k <= j < |sorted| ensures !Below(sorted[j].package, x.package) {
      BelowTotal(x.package, sorted[k].package);
      if Below(sorted[j].package, x.package) {
        BelowTransitive(sorted[j].package, x.package, sorted[k].package);
        BelowTotal(sorted[j].package, sorted[k].package);
      }
    }
  }

  lemma {:induction false} InsertedOnce(
      profiles: seq<InstalledProfile>, sorted: seq<InstalledProfile>, x: InstalledProfile, k: nat)
    requires SameProfiles(profiles, sorted) && k <= |sorted| && forall y :: y in profiles ==> y.root != x.root
    ensures SameProfiles(profiles + [x], sorted[..k] + [x] + sorted[k..])
  {
    assert sorted == sorted[..k] + sorted[k..];
    forall j | 0 <= j < |sorted| ensures sorted[j].root != x.root {
      assert sorted[j] in profiles;
    }
  }

  lemma {:induction false} SortedIsDiscovered(
      files: Files, env: Env, profiles: seq<InstalledProfile>, sorted: seq<InstalledProfile>)
    requires Discovered(files, env, profiles) && SameProfiles(profiles, sorted)
    ensures Discovered(files, env, sorted)
  {
    forall i | 0 <= i < |sorted|
      ensures Installed(files, env, sorted[i].root) && sorted[i].package == PackageOf(sorted[i].root)
    {
      assert sorted[i] in profiles;
    }
    forall path | Installed(files, env, path) ensures Listed(sorted, path) {
      assert Listed(profiles, path);
      var i :| 0 <= i < |profiles| && profiles[i].root == path;
      assert profiles[i] in sorted;
    }
  }

  // ---------- Staging profiles ----------

  /** The old profile, if any, is kept under a fresh name beside its root. */
  ghost predicate Aside(start: Files, files: Files, id: nat, next: nat, staged: StagedProfile) {
    && staged.root.Profile?
    && (staged.backup.None? ==> staged.root !in start)
    && (staged.backup.Some? ==>
      && staged.root in start
      && staged.backup.value.Sibling? && staged.backup.value.of == staged.root && id <= staged.backup.value.id < next
      && Lookup(files, staged.backup.value) == Some(start[staged.root]))
  }

  ghost predicate AllAside(start: Files, files: Files, id: nat, next: nat, staged: seq<StagedProfile>) {
    && (forall i :: 0 <= i < |staged| ==> Aside(start, files, id, next, staged[i]))
    && (forall i, j :: 0 <= i < j < |staged| ==> staged[i].root != staged[j].root)
  }

  function Roots(staged: seq<StagedProfile>): set<Path> {
    if staged == [] then {} else Roots(staged[..|staged| - 1]) + {staged[|staged| - 1].root}
  }

  /** Only executables, the index, the `open` profiles and fresh names may differ. */
  ghost predicate Closed(start: Files, files: Files, id: nat, open: set<Path>) {
    forall path :: !IsNew(path, id) && !path.Bin? && path != Index && path !in open ==>
      Lookup(files, path) == Lookup(start, path)
  }

  ghost predicate BinsSame(start: Files, files: Files) {
    && (forall name :: Lookup(files, Bin(name)) == Lookup(start, Bin(name)))
    && Lookup(files, Index) == Lookup(start, Index)
  }

  /** An error costs a failed operation, and another one if the old profile cannot be moved back. */
  method StageProfileReplacement(w: World, root: Path) returns (r: Result<StagedProfile>, ghost lost: set<Path>)
    requires w.Valid() && root.Profile?
    modifies w, w.machine
    ensures w.Valid() && w.nextId >= old(w.nextId)
    ensures forall path :: !IsNew(path, old(w.nextId)) && path != root ==>
      Lookup(w.files, path) == Lookup(old(w.files), path)
    ensures r.Ok? ==> r.value.root == root && Aside(old(w.files), w.files, old(w.nextId), w.nextId, r.value)
    ensures r.Ok? ==> Lookup(w.files, root) == Some(Dir(EMPTY_TREE)) && lost == {}
    ensures lost <= {root} && (r.Err? && lost == {} ==> Lookup(w.files, root) == Lookup(old(w.files), root))
    ensures w.machine.failures >= old(w.machine.failures) + |lost| + if r.Ok? then 0 else 1
  {
    lost := {};
    var backup := None;
    if root in w.files {
      var sibling := w.UniqueSibling(root, "profile-backup");
      var ok := w.Rename(root, sibling);
      if !ok {
        return Err, lost;
      }
      backup := Some(sibling);
    }
    var created := w.CreateDirectory(root);
    if !created {
      if backup.Some? {
        var restored := w.Rename(backup.value, root);
        lost := if restored then {} else {root};
      }
      return Err, lost;
    }
    r := Ok(StagedProfile(root, backup));
  }

  method StageProfileRemoval(w: World, root: Path) returns (r: Result<StagedProfile>)
    requires w.Valid() && root.Profile?
    modifies w, w.machine
    ensures w.Valid() && w.nextId >= old(w.nextId)
    ensures forall path :: !IsNew(path, old(w.nextId)) && path != root ==>
      Lookup(w.files, path) == Lookup(old(w.files), path)
    ensures r.Ok? ==>
      r.value.root == root && Aside(old(w.files), w.files, old(w.nextId), w.nextId, r.value) && root !in w.files
    ensures r.Err? ==> w.files == old(w.files)
    ensures w.machine.failures == old(w.machine.failures) + if r.Err? && root in w.files then 1 else 0
  {
    if root !in w.files {
      return Err;
    }
    var sibling := w.UniqueSibling(root, "profile-removal");
    var ok := w.Rename(root, sibling);
    r := if ok then Ok(StagedProfile(root, Some(sibling))) else Err;
  }

  /** Puts one staged profile back. */
  method RollbackProfile(
      w: World, staged: seq<StagedProfile>, i: nat, ghost start: Files, ghost id: nat, ghost open: set<Path>)
    returns (ok: bool)
    requires w.Valid() && id <= w.nextId && i < |staged|
    requires AllAside(start, w.files, id, w.nextId, staged[..i + 1]) && Closed(start, w.files, id, open)
    requires staged[i].root in open
    modifies w`files, w.machine
    ensures w.Valid() && BinsSame(old(w.files), w.files)
    ensures AllAside(start, w.files, id, w.nextId, staged[..i])
    ensures Closed(start, w.files, id, if ok then open - {staged[i].root} else open)
    ensures w.machine.failures >= old(w.machine.failures) + if ok then 0 else 1
  {
    ghost var files := w.files;
    var entry := staged[i];
    assert Aside(start, files, id, w.nextId, staged[..i + 1][i]);
    ok := w.RemoveIfPresent(entry.root);
    if ok && entry.backup.Some? && entry.backup.value in w.files {
      ok := w.Rename(entry.backup.value, entry.root);
    }
    forall k | 0 <= k < i ensures Aside(start, w.files, id, w.nextId, staged[..i][k]) {
      assert Aside(start, files, id, w.nextId, staged[..i + 1][k]);
      assert staged[..i + 1][k].root != staged[..i + 1][i].root;
    }
    forall j, k | 0 <= j < k < i ensures staged[..i][j].root != staged[..i][k].root {
      assert staged[..i + 1][j].root != staged[..i + 1][k].root;
    }
  }

  lemma RootsDistinct(staged: seq<StagedProfile>, root: Path)
    requires forall k :: 0 <= k < |staged| ==> staged[k].root != root
    ensures root !in Roots(staged)
  {
  }

  /** Puts the staged profiles back, last one first; a failure leaves that one `stuck` and does not stop the others. */
  method RollbackStagedProfiles(
      w: World, staged: seq<StagedProfile>, ghost start: Files, ghost id: nat, ghost lost: set<Path>)
    returns (ghost stuck: set<Path>)
    requires w.Valid() && id <= w.nextId
    requires AllAside(start, w.files, id, w.nextId, staged) && Closed(start, w.files, id, Roots(staged) + lost)
    modifies w`files, w.machine
    ensures w.Valid() && BinsSame(old(w.files), w.files)
    ensures Closed(start, w.files, id, lost + stuck) && stuck <= Roots(staged)
    ensures w.machine.failures >= old(w.machine.failures) + |stuck|
  {
    stuck := {};
    ghost var open := Roots(staged) + lost;
    var i := |staged|;
    assert staged[..i] == staged;
    while i > 0
      invariant 0 <= i <= |staged| && w.Valid() && BinsSame(old(w.files), w.files)
      invariant AllAside(start, w.files, id, w.nextId, staged[..i])
      invariant Closed(start, w.files, id, open)
      invariant Roots(staged[..i]) <= open <= Roots(staged[..i]) + lost + stuck
      invariant Roots(staged[..i]) <= Roots(staged) && stuck <= Roots(staged)
      invariant w.machine.failures >= old(w.machine.failures) + |stuck|
    {
      i := i - 1;
      assert staged[..i + 1][..i] == staged[..i];
      RootApart(staged, i);
      var restored := RollbackProfile(w, staged, i, start, id, open);
      if restored {
        open := open - {staged[i].root};
      } else {
        stuck := stuck + {staged[i].root};
      }
    }
    ClosedWider(start, w.files, id, open, lost + stuck);
  }

  lemma {:induction false} RootApart(staged: seq<StagedProfile>, i: nat)
    requires i < |staged| && forall j, k :: 0 <= j < k <= i ==> staged[j].root != staged[k].root
    ensures staged[i].root !in Roots(staged[..i])
  {
    forall k | 0 <= k < i ensures staged[..i][k].root != staged[i].root {
    }
    RootsDistinct(staged[..i], staged[i].root);
  }

  lemma ClosedWider(start: Files, files: Files, id: nat, open: set<Path>, wider: set<Path>)
    requires Closed(start, files, id, open) && open <= wider
    ensures Closed(start, files, id, wider)
  {
  }

  method DiscardProfileBackups(w: World, staged: seq<StagedProfile>, ghost id: nat)
    requires w.Valid() && forall i :: 0 <= i < |staged| && staged[i].backup.Some? ==> IsNew(staged[i].backup.value, id)
    modifies w`files, w.machine
    ensures w.Valid() && Same(old(w.files), w.files, id) && w.machine.failures >= old(w.machine.failures)
  {
    for i := 0 to |staged|
      invariant w.Valid() && Same(old(w.files), w.files, id) && w.machine.failures >= old(w.machine.failures)
    {
      if staged[i].backup.Some? {
        var _ := w.RemoveIfPresent(staged[i].backup.value);
      }
    }
  }

  // ---------- What an install or uninstall promises ----------

  /** `logical` is an executable of the profile installed at `path`. */
  ghost predicate Exposes(files: Files, env: Env, path: Path, logical: string) {
    Installed(files, env, path) && logical in BinsOf(files, path)
  }

  /** That executable is recorded, and a copy is in place. */
  ghost predicate Served(files: Files, env: Env, state: ManagedState, path: Path, logical: string)
    requires Exposes(files, env, path, logical)
  {
    && env.destination(logical) in state
    && state[env.destination(logical)] == ManagedBin(PackageOf(path), env.hash(BinsOf(files, path)[logical]))
    && Lookup(files, Bin(env.destination(logical))) == Some(File(BinsOf(files, path)[logical]))
  }

  ghost predicate Justified(files: Files, env: Env, name: string) {
    exists path, logical :: Exposes(files, env, path, logical) && env.destination(logical) == name
  }

  /** The index records exactly the executables of the installed profiles, and they are in place. */
  ghost predicate Consistent(files: Files, env: Env, state: ManagedState) {
    && Lookup(files, Index) == Some(File(env.encode(state)))
    && (forall path, logical :: Exposes(files, env, path, logical) ==> Served(files, env, state, path, logical))
    && (forall name :: name in state ==> Justified(files, env, name))
  }

  /** No existing entry is taken over; unlisted ones are gone if Zed owned them and untouched otherwise. */
  ghost predicate Retired(before: Files, after: Files, env: Env, state: ManagedState) {
    && LoadIndex(before, env).Some?
    && MayTouch(before, env, LoadIndex(before, env).value, state.Keys)
    && forall name :: name !in state ==>
      Lookup(after, Bin(name)) ==
      if Owned(before, env, LoadIndex(before, env).value, name) then None else Lookup(before, Bin(name))
  }

  /** Two executables of installed profiles never share a destination. */
  ghost predicate NoCollision(files: Files, env: Env) {
    forall path, logical, other, second :: Exposes(files, env, path, logical) && Exposes(files, env, other, second) ==>
      (path == other && logical == second) || env.destination(logical) != env.destination(second)
  }

  /** Nothing stands in the way of synchronizing: a caller can check this before a command. */
  ghost predicate Sound(files: Files, env: Env) {
    && Described(files, env)
    && (forall path, logical :: Exposes(files, env, path, logical) ==> ValidBinName(logical))
    && NoCollision(files, env)
    && LoadIndex(files, env).Some?
    && (forall name :: name in LoadIndex(files, env).value && !Justified(files, env, name) && Bin(name) in files ==>
      files[Bin(name)].File?)
    && (forall path, logical :: Exposes(files, env, path, logical) && Bin(env.destination(logical)) in files ==>
      && Owned(files, env, LoadIndex(files, env).value, env.destination(logical))
      && env.hash(BinsOf(files, path)[logical]) != "")
  }

  lemma ExposedBy(files: Files, env: Env, profiles: seq<InstalledProfile>, path: Path, logical: string) returns (i: nat)
    requires Discovered(files, env, profiles) && Exposes(files, env, path, logical)
    ensures i < |profiles| && profiles[i].root == path && profiles[i].package == PackageOf(path)
  {
    assert Listed(profiles, path);
    i :| 0 <= i < |profiles| && profiles[i].root == path;
  }

  lemma DesiredIsJustified(
      files: Files, env: Env, profiles: seq<InstalledProfile>, desired: map<string, DesiredBin>, name: string)
    requires Discovered(files, env, profiles) && Desires(files, env, profiles, desired)
    ensures name in desired <==> Justified(files, env, name)
  {
    if name in desired {
      assert WantedBy(files, env, profiles, name, desired[name]);
      var profile :| profile in profiles && desired[name].logical in BinsOf(files, profile.root)
        && env.destination(desired[name].logical) == name
        && desired[name] == Want(files, env, profile, desired[name].logical);
      assert Exposes(files, env, profile.root, desired[name].logical);
    }
    if Justified(files, env, name) {
      var path, logical :| Exposes(files, env, path, logical) && env.destination(logical) == name;
      var i := ExposedBy(files, env, profiles, path, logical);
      assert logical in BinsOf(files, profiles[i].root);
    }
  }

  /** The profiles fit together exactly if their executables have safe names and do not collide. */
  lemma CollectableExactly(files: Files, env: Env, profiles: seq<InstalledProfile>)
    requires Discovered(files, env, profiles)
    ensures Collectable(files, env, profiles) <==>
      (forall path, logical :: Exposes(files, env, path, logical) ==> ValidBinName(logical)) && NoCollision(files, env)
  {
    if Collectable(files, env, profiles) {
      FittingIsSound(files, env, profiles);
    }
    if NoCollision(files, env) && forall path, logical :: Exposes(files, env, path, logical) ==> ValidBinName(logical) {
      SoundIsFitting(files, env, profiles);
    }
  }

  lemma FittingIsSound(files: Files, env: Env, profiles: seq<InstalledProfile>)
    requires Discovered(files, env, profiles) && Collectable(files, env, profiles)
    ensures forall path, logical :: Exposes(files, env, path, logical) ==> ValidBinName(logical)
    ensures NoCollision(files, env)
  {
  }

  lemma SoundIsFitting(files: Files, env: Env, profiles: seq<InstalledProfile>)
    requires Discovered(files, env, profiles) && NoCollision(files, env)
    requires forall path, logical :: Exposes(files, env, path, logical) ==> ValidBinName(logical)
    ensures Collectable(files, env, profiles)
  {
    forall i | 0 <= i < |profiles| ensures Fits(files, env, profiles[i], Taken(files, env, profiles[..i])) {
      var root := profiles[i].root;
      forall logical | logical in BinsOf(files, root)
        ensures ValidBinName(logical) && env.destination(logical) !in Taken(files, env, profiles[..i])
      {
        assert Exposes(files, env, root, logical);
        forall profile, second | profile in profiles[..i] && second in BinsOf(files, profile.root)
          ensures env.destination(second) != env.destination(logical)
        {
          var j :| 0 <= j < i && profiles[..i][j] == profile;
          assert Exposes(files, env, profiles[j].root, second) && profiles[j].root != root;
        }
      }
      forall x, y | x in BinsOf(files, root) && y in BinsOf(files, root) && x != y
        ensures env.destination(x) != env.destination(y)
      {
        assert Exposes(files, env, root, x) && Exposes(files, env, root, y);
      }
    }
  }

  lemma {:induction false} AdoptableExactly(
      files: Files, env: Env, profiles: seq<InstalledProfile>, desired: map<string, DesiredBin>)
    requires Described(files, env) && Discovered(files, env, profiles) && Desires(files, env, profiles, desired)
    requires Collectable(files, env, profiles) && LoadIndex(files, env).Some?
    ensures Adoptable(files, env, LoadIndex(files, env).value, desired) <==> Sound(files, env)
  {
    CollectableExactly(files, env, profiles);
    forall name ensures name in desired <==> Justified(files, env, name) {
      DesiredIsJustified(files, env, profiles, desired, name);
    }
    forall path, logical | Exposes(files, env, path, logical) ensures Hashed(files, env, desired, path, logical) {
      var i := ExposedBy(files, env, profiles, path, logical);
      assert logical in BinsOf(files, profiles[i].root);
    }
    Adopted(files, env, desired);
  }

  ghost predicate Hashed(files: Files, env: Env, desired: map<string, DesiredBin>, path: Path, logical: string)
    requires Exposes(files, env, path, logical)
  {
    && env.destination(logical) in desired
    && desired[env.destination(logical)].sha256 == env.hash(BinsOf(files, path)[logical])
  }

  lemma {:induction false} Adopted(files: Files, env: Env, desired: map<string, DesiredBin>)
    requires Described(files, env) && NoCollision(files, env) && LoadIndex(files, env).Some?
    requires forall path, logical :: Exposes(files, env, path, logical) ==> ValidBinName(logical)
    requires forall path, logical :: Exposes(files, env, path, logical) ==> Hashed(files, env, desired, path, logical)
    requires forall name :: name in desired <==> Justified(files, env, name)
    ensures Adoptable(files, env, LoadIndex(files, env).value, desired) <==> Sound(files, env)
  {
  }

  ghost predicate Synchronized(before: Files, after: Files, env: Env) {
    exists state :: Consistent(after, env, state) && Retired(before, after, env, state)
  }

  /** The promises of `install` and `uninstall` over the given roots, whatever the outcome. */
  ghost predicate Transacted(
      before: Files, after: Files, id: nat, env: Env, roots: set<Path>, ok: bool, lost: set<Path>)
  {
    && Closed(before, after, id, roots)
    && Safe(before, after, env)
    && (!ok ==> SameExcept(before, after, id, lost))
    && (!ok ==> Lookup(after, Index) == Lookup(before, Index) || Lookup(after, Index) == None)
    && (ok ==> Synchronized(before, after, env))
  }

  /** After a commit, the records are those of the profiles the commit started from. */
  lemma CommitIsConsistent(middle: Files, after: Files, id: nat, env: Env, profiles: seq<InstalledProfile>,
                           previous: ManagedState, desired: map<string, DesiredBin>)
    requires env.Valid() && Discovered(middle, env, profiles) && Desires(middle, env, profiles, desired)
    requires Commits(middle, after, id, env, previous, desired)
    ensures Consistent(after, env, RecordsOf(desired))
  {
    forall path, logical | Exposes(after, env, path, logical)
      ensures Served(after, env, RecordsOf(desired), path, logical)
    {
      CommittedExecutable(middle, after, id, env, profiles, previous, desired, path, logical);
    }
    forall name | name in RecordsOf(desired) ensures Justified(after, env, name) {
      CommittedRecord(middle, after, id, env, profiles, previous, desired, name);
    }
    assert Lookup(after, Index) == Committed(middle, env, previous, desired, Index);
  }

  lemma CommittedExecutable(middle: Files, after: Files, id: nat, env: Env, profiles: seq<InstalledProfile>,
                            previous: ManagedState, desired: map<string, DesiredBin>, path: Path, logical: string)
    requires env.Valid() && Discovered(middle, env, profiles) && Desires(middle, env, profiles, desired)
    requires Commits(middle, after, id, env, previous, desired)
    requires Exposes(after, env, path, logical)
    ensures Served(after, env, RecordsOf(desired), path, logical)
  {
    assert Lookup(after, path) == Committed(middle, env, previous, desired, path);
    assert Installed(middle, env, path) && Listed(profiles, path);
    var i :| 0 <= i < |profiles| && profiles[i].root == path;
    assert logical in BinsOf(middle, profiles[i].root);
    var bin := Bin(env.destination(logical));
    assert Lookup(after, bin) == Committed(middle, env, previous, desired, bin);
  }

  lemma CommittedRecord(middle: Files, after: Files, id: nat, env: Env, profiles: seq<InstalledProfile>,
                        previous: ManagedState, desired: map<string, DesiredBin>, name: string)
    requires env.Valid() && Discovered(middle, env, profiles) && Desires(middle, env, profiles, desired)
    requires Commits(middle, after, id, env, previous, desired) && name in desired
    ensures Justified(after, env, name)
  {
    var wanted := desired[name];
    assert WantedBy(middle, env, profiles, name, wanted);
    var profile :| profile in profiles && wanted.logical in BinsOf(middle, profile.root)
      && env.destination(wanted.logical) == name && wanted == Want(middle, env, profile, wanted.logical);
    assert Lookup(after, profile.root) == Committed(middle, env, previous, desired, profile.root);
    assert Exposes(after, env, profile.root, wanted.logical);
  }

  /** Synchronizing after profiles were staged, seen from before the staging. */
  lemma SeenFromStart(start: Files, middle: Files, after: Files, id: nat, next: nat, env: Env, roots: set<Path>)
    requires id <= next && Closed(start, middle, id, roots) && BinsSame(start, middle)
    requires Contained(middle, after, next) && Safe(middle, after, env)
    ensures Closed(start, after, id, roots) && Safe(start, after, env)
  {
  }

  lemma SynchronizedFromStart(
      start: Files, middle: Files, after: Files, next: nat, env: Env, profiles: seq<InstalledProfile>,
      desired: map<string, DesiredBin>)
    requires env.Valid() && BinsSame(start, middle) && LoadIndex(middle, env).Some?
    requires Discovered(middle, env, profiles) && Desires(middle, env, profiles, desired)
    requires MayTouch(middle, env, LoadIndex(middle, env).value, desired.Keys)
    requires Commits(middle, after, next, env, LoadIndex(middle, env).value, desired)
    ensures Synchronized(start, after, env)
  {
    var previous := LoadIndex(middle, env).value;
    CommitIsConsistent(middle, after, next, env, profiles, previous, desired);
    assert LoadIndex(start, env) == LoadIndex(middle, env) by {
      assert Lookup(middle, Index) == Lookup(start, Index);
    }
    forall name | name !in RecordsOf(desired)
      ensures Lookup(after, Bin(name)) == if Owned(start, env, previous, name) then None else Lookup(start, Bin(name))
    {
      assert Lookup(middle, Bin(name)) == Lookup(start, Bin(name));
      assert Lookup(after, Bin(name)) == Committed(middle, env, previous, desired, Bin(name));
    }
    forall name | name in desired && Bin(name) in start ensures Owned(start, env, previous, name) {
      assert Lookup(middle, Bin(name)) == Lookup(start, Bin(name));
    }
    assert Retired(start, after, env, RecordsOf(desired));
  }

  // ---------- The two commands ----------

  /** Discovers what is installed now and synchronizes the executables with it. */
  method Commit(w: World, ghost staged: seq<StagedProfile>, ghost open: set<Path>, ghost start: Files, ghost id: nat)
    returns (ok: bool, ghost lost: set<Path>)
    requires w.Valid() && id <= w.nextId
    requires AllAside(start, w.files, id, w.nextId, staged) && BinsSame(start, w.files)
    requires Closed(start, w.files, id, open)
    modifies w, w.machine
    ensures w.Valid() && w.nextId >= old(w.nextId)
    ensures AllAside(start, w.files, id, w.nextId, staged)
    ensures Contained(old(w.files), w.files, old(w.nextId))
    ensures Closed(start, w.files, id, open) && Safe(start, w.files, w.env)
    ensures !ok ==> BinsSameExcept(start, w.files, lost)
    ensures !ok ==> Lookup(w.files, Index) == Lookup(start, Index) || Lookup(w.files, Index) == None
    ensures ok ==> Synchronized(start, w.files, w.env) && Sound(old(w.files), w.env) && lost == {}
    ensures w.machine.failures >=
      old(w.machine.failures) + |lost| + if !ok && Sound(old(w.files), w.env) then 1 else 0
  {
    ghost var middle, next := w.files, w.nextId;
    var profiles := DiscoverProfiles(w);
    if profiles.Err? {
      return false, {};
    }
    var r;
    ghost var desired;
    r, lost, desired := SyncBins(w, profiles.value);
    ok := r.Ok?;
    RefusedIsUnsound(middle, w.env, profiles.value, desired);
    AsideFrame(start, middle, w.files, id, next, w.nextId, staged);
    SeenFromStart(start, middle, w.files, id, next, w.env, open);
    if ok {
      SynchronizedFromStart(start, middle, w.files, next, w.env, profiles.value, desired);
    }
  }

  ghost predicate BinsSameExcept(start: Files, files: Files, lost: set<Path>) {
    && (forall name :: Bin(name) !in lost ==> Lookup(files, Bin(name)) == Lookup(start, Bin(name)))
    && (Index !in lost ==> Lookup(files, Index) == Lookup(start, Index))
  }

  lemma RefusedIsUnsound(files: Files, env: Env, profiles: seq<InstalledProfile>, desired: map<string, DesiredBin>)
    requires Described(files, env) && Discovered(files, env, profiles)
    ensures Refuses(files, env, profiles, desired) ==> !Sound(files, env)
    ensures !Refuses(files, env, profiles, desired) && Desires(files, env, profiles, desired) ==> Sound(files, env)
  {
    CollectableExactly(files, env, profiles);
    if Desires(files, env, profiles, desired) && Collectable(files, env, profiles) && LoadIndex(files, env).Some? {
      AdoptableExactly(files, env, profiles, desired);
    }
  }

  lemma AsideFrame(start: Files, files: Files, after: Files, id: nat, next: nat, later: nat, staged: seq<StagedProfile>)
    requires AllAside(start, files, id, next, staged) && id <= next <= later && Contained(files, after, next)
    ensures AllAside(start, after, id, later, staged)
  {
  }

  lemma DiscardKeeps(start: Files, files: Files, after: Files, id: nat, env: Env, open: set<Path>)
    requires Same(files, after, id) && env.Valid()
    requires Closed(start, files, id, open) && Safe(start, files, env) && Synchronized(start, files, env)
    ensures Closed(start, after, id, open) && Safe(start, after, env) && Synchronized(start, after, env)
  {
    var state :| Consistent(files, env, state) && Retired(start, files, env, state);
    forall path: Path | !path.Sibling? ensures Lookup(after, path) == Lookup(files, path) {
      assert !IsNew(path, id);
    }
    ConsistentFrame(files, after, env, state);
    assert Retired(start, after, env, state);
  }

  lemma ConsistentFrame(files: Files, after: Files, env: Env, state: ManagedState)
    requires Consistent(files, env, state)
    requires forall path: Path :: !path.Sibling? ==> Lookup(after, path) == Lookup(files, path)
    ensures Consistent(after, env, state)
  {
    forall path, logical | Exposes(after, env, path, logical) ensures Served(after, env, state, path, logical) {
      assert Lookup(after, path) == Lookup(files, path);
      assert Exposes(files, env, path, logical) && Served(files, env, state, path, logical);
    }
    forall name | name in state ensures Justified(after, env, name) {
      var path, logical :| Exposes(files, env, path, logical) && env.destination(logical) == name;
      assert Lookup(after, path) == Lookup(files, path);
      assert Exposes(after, env, path, logical);
    }
  }

  /**
   The common end of both commands: commit, or put the staged profiles back.  What is lost on top of
   what staging lost costs a failed operation each, besides the one that caused the error.
   */
  method Conclude(w: World, staged: seq<StagedProfile>, prepared: bool, ghost before: set<Path>,
                  ghost start: Files, ghost id: nat)
    returns (ok: bool, ghost lost: set<Path>)
    requires w.Valid() && id <= w.nextId
    requires AllAside(start, w.files, id, w.nextId, staged) && BinsSame(start, w.files)
    requires Closed(start, w.files, id, Roots(staged) + before)
    requires prepared ==> before == {}
    modifies w, w.machine
    ensures w.Valid() && w.nextId >= old(w.nextId)
    ensures ok ==> prepared && Sound(old(w.files), w.env) && lost == {}
    ensures w.machine.failures >= old(w.machine.failures) + |lost|
      + if !ok && prepared && Sound(old(w.files), w.env) then 1 else 0
    ensures Transacted(start, w.files, id, w.env, Roots(staged) + before, ok, before + lost)
    ensures ok ==> forall path: Path :: path.Profile? ==> Lookup(w.files, path) == Lookup(old(w.files), path)
  {
    ok, lost := false, {};
    if prepared {
      ok, lost := Commit(w, staged, Roots(staged) + before, start, id);
    }
    if ok {
      Discard(w, staged, Roots(staged) + before, start, id);
    } else {
      ghost var stuck := RollbackStagedProfiles(w, staged, start, id, before);
      RevertedExcept(start, w.files, id, Roots(staged), before, lost, stuck);
      lost := lost + stuck;
    }
  }

  /** After a commit: the backups of the replaced profiles go. */
  method Discard(w: World, staged: seq<StagedProfile>, ghost open: set<Path>, ghost start: Files, ghost id: nat)
    requires w.Valid() && AllAside(start, w.files, id, w.nextId, staged)
    requires Closed(start, w.files, id, open) && Safe(start, w.files, w.env) && Synchronized(start, w.files, w.env)
    modifies w`files, w.machine
    ensures w.Valid() && w.machine.failures >= old(w.machine.failures)
    ensures Closed(start, w.files, id, open) && Safe(start, w.files, w.env) && Synchronized(start, w.files, w.env)
    ensures forall path: Path :: path.Profile? ==> Lookup(w.files, path) == Lookup(old(w.files), path)
  {
    ghost var files := w.files;
    forall i | 0 <= i < |staged| && staged[i].backup.Some? ensures IsNew(staged[i].backup.value, id) {
      assert Aside(start, w.files, id, w.nextId, staged[i]);
    }
    DiscardProfileBackups(w, staged, id);
    DiscardKeeps(start, files, w.files, id, w.env, open);
  }

  /** After an error: only what could not be put back differs. */
  lemma RevertedExcept(
      start: Files, files: Files, id: nat, roots: set<Path>, before: set<Path>, bins: set<Path>, stuck: set<Path>)
    requires Closed(start, files, id, before + stuck) && stuck <= roots && BinsSameExcept(start, files, bins)
    ensures Closed(start, files, id, roots + before)
    ensures SameExcept(start, files, id, before + (bins + stuck))
    ensures |bins + stuck| <= |bins| + |stuck|
  {
  }

  lemma TransactedWiden(
      start: Files, files: Files, id: nat, env: Env, roots: set<Path>, wider: set<Path>, ok: bool, lost: set<Path>)
    requires Transacted(start, files, id, env, roots, ok, lost) && roots <= wider
    ensures Transacted(start, files, id, env, wider, ok, lost)
  {
  }

  lemma RootsWithin(staged: seq<StagedProfile>, roots: set<Path>)
    requires forall k :: 0 <= k < |staged| ==> staged[k].root in roots
    ensures Roots(staged) <= roots
  {
  }

  /** What holds while profiles are being staged. */
  ghost predicate Staging(start: Files, files: Files, id: nat, next: nat, staged: seq<StagedProfile>, lost: set<Path>) {
    && id <= next
    && AllAside(start, files, id, next, staged)
    && BinsSame(start, files)
    && Closed(start, files, id, Roots(staged) + lost)
  }

  lemma StagingMore(start: Files, files: Files, after: Files, id: nat, next: nat, later: nat,
                    staged: seq<StagedProfile>, entry: StagedProfile)
    requires Staging(start, files, id, next, staged, {}) && next <= later
    requires forall k :: 0 <= k < |staged| ==> staged[k].root != entry.root
    requires Aside(files, after, next, later, entry)
    requires forall path :: !IsNew(path, next) && path != entry.root ==> Lookup(after, path) == Lookup(files, path)
    ensures Staging(start, after, id, later, staged + [entry], {})
  {
    var more := staged + [entry];
    assert more[..|staged|] == staged;
    RootsDistinct(staged, entry.root);
    assert Lookup(files, entry.root) == Lookup(start, entry.root);
    forall i | 0 <= i < |more| ensures Aside(start, after, id, later, more[i]) {
      if i < |staged| {
        assert more[i] == staged[i] && Aside(start, files, id, next, staged[i]);
      }
    }
    forall i, j | 0 <= i < j < |more| ensures more[i].root != more[j].root {
      assert more[i] == staged[i];
    }
  }

  /** Changing one staged profile in place. */
  lemma StagingWithin(
      start: Files, files: Files, id: nat, next: nat, staged: seq<StagedProfile>, root: Path, node: Node)
    requires Staging(start, files, id, next, staged, {}) && root.Profile? && root in Roots(staged)
    ensures Staging(start, files[root := node], id, next, staged, {})
  {
  }

  method StageRequest(w: World, root: Path, staged: seq<StagedProfile>, ghost start: Files, ghost id: nat)
    returns (entry: Option<StagedProfile>, ghost lost: set<Path>)
    requires w.Valid() && root.Profile? && Staging(start, w.files, id, w.nextId, staged, {})
    requires forall k :: 0 <= k < |staged| ==> staged[k].root != root
    modifies w, w.machine
    ensures w.Valid() && w.nextId >= old(w.nextId)
    ensures forall path: Path :: path.Profile? && path != root ==> Lookup(w.files, path) == Lookup(old(w.files), path)
    ensures lost <= {root}
    ensures entry.None? ==> Staging(start, w.files, id, w.nextId, staged, lost)
    ensures entry.Some? ==>
      lost == {} && entry.value.root == root && Staging(start, w.files, id, w.nextId, staged + [entry.value], {})
    ensures entry.Some? ==> Lookup(w.files, root) == Some(Dir(EMPTY_TREE))
    ensures w.machine.failures >= old(w.machine.failures) + |lost| + if entry.None? then 1 else 0
  {
    ghost var files, next := w.files, w.nextId;
    var r;
    r, lost := StageProfileReplacement(w, root);
    if r.Err? {
      StagingLost(start, files, w.files, id, next, w.nextId, staged, root);
      return None, lost;
    }
    StagingMore(start, files, w.files, id, next, w.nextId, staged, r.value);
    entry := Some(r.value);
  }

  lemma {:induction false} OneMoreRoot(staged: seq<StagedProfile>, entry: StagedProfile)
    ensures (staged + [entry])[..|staged|] == staged && entry.root in Roots(staged + [entry])
  {
  }

  /** Stages, installs and describes one requested profile. */
  method PrepareProfile(w: World, request: Request, outcome: Outcome, staged: seq<StagedProfile>,
                        ghost start: Files, ghost id: nat)
    returns (prepared: bool, all: seq<StagedProfile>, ghost lost: set<Path>)
    requires w.Valid() && Staging(start, w.files, id, w.nextId, staged, {})
    requires forall k :: 0 <= k < |staged| ==> staged[k].root != RootOf(request)
    modifies w, w.machine
    ensures w.Valid() && w.nextId >= old(w.nextId)
    ensures Staging(start, w.files, id, w.nextId, all, lost)
    ensures lost <= {RootOf(request)} && (prepared ==> lost == {})
    ensures all == staged
      || (|all| == |staged| + 1 && all[..|staged|] == staged && all[|staged|].root == RootOf(request))
    ensures prepared ==> all != staged && Usable(outcome) && Filled(w.files, request, outcome)
    ensures w.machine.failures >= old(w.machine.failures) + |lost| + if !prepared && Usable(outcome) then 1 else 0
    ensures forall path: Path :: path.Profile? && path != RootOf(request) ==>
      Lookup(w.files, path) == Lookup(old(w.files), path)
  {
    var entry;
    entry, lost := StageRequest(w, RootOf(request), staged, start, id);
    if entry.None? {
      return false, staged, lost;
    }
    all := staged + [entry.value];
    OneMoreRoot(staged, entry.value);
    prepared := FillProfile(w, request, outcome, all, start, id);
  }

  /** Runs the installer in a staged profile, writes its metadata, and looks at its executables. */
  method FillProfile(w: World, request: Request, outcome: Outcome, ghost staged: seq<StagedProfile>,
                     ghost start: Files, ghost id: nat)
    returns (ok: bool)
    requires w.Valid() && Staging(start, w.files, id, w.nextId, staged, {})
    requires RootOf(request) in Roots(staged)
    requires Lookup(w.files, RootOf(request)) == Some(Dir(EMPTY_TREE))
    modifies w`files, w.machine
    ensures w.Valid() && Staging(start, w.files, id, w.nextId, staged, {})
    ensures ok ==> Usable(outcome) && Filled(w.files, request, outcome)
    ensures w.machine.failures >= old(w.machine.failures) + if !ok && Usable(outcome) then 1 else 0
    ensures forall path :: path != RootOf(request) ==> Lookup(w.files, path) == Lookup(old(w.files), path)
  {
    var root := RootOf(request);
    ghost var files := w.files;
    ok := w.InstallInto(root, outcome);
    StagingWithin(start, files, id, w.nextId, staged, root, w.files[root]);
    if !ok {
      return;
    }
    files := w.files;
    ok := w.WriteMetadata(root, Package(PackageOf(root), request.requested));
    StagingWithin(start, files, id, w.nextId, staged, root, w.files[root]);
    if ok {
      var bins := ProfileBins(w, root);
      ok := bins.Ok?;
    }
  }

  lemma StagingLost(
      start: Files, files: Files, after: Files, id: nat, next: nat, later: nat, staged: seq<StagedProfile>, root: Path)
    requires Staging(start, files, id, next, staged, {}) && next <= later && root.Profile?
    requires forall k :: 0 <= k < |staged| ==> staged[k].root != root
    requires forall path :: !IsNew(path, next) && path != root ==> Lookup(after, path) == Lookup(files, path)
    ensures Staging(start, after, id, later, staged, {root})
    ensures Lookup(after, root) == Lookup(files, root) ==> Staging(start, after, id, later, staged, {})
  {
  }

  function RootOf(request: Request): Path {
    Profile(request.org, request.name)
  }

  /** What a request leaves at its root when the installer has this outcome. */
  function NodeOf(request: Request, outcome: Outcome): Node {
    Dir(outcome.tree.(metadata := Package(PackageOf(RootOf(request)), request.requested)))
  }

  ghost predicate Filled(files: Files, request: Request, outcome: Outcome) {
    Lookup(files, RootOf(request)) == Some(NodeOf(request, outcome))
  }

  /** The installer succeeded and left only executables with safe names. */
  ghost predicate Usable(outcome: Outcome) {
    outcome.succeeds && forall name :: name in outcome.tree.bins ==> ValidBinName(name)
  }

  /** The files once every request has been filled with its outcome. */
  function AllFilled(files: Files, requests: seq<Request>, outcomes: seq<Outcome>): Files
    requires |outcomes| == |requests|
  {
    if requests == [] then files
    else
      var n := |requests| - 1;
      AllFilled(files, requests[..n], outcomes[..n])[RootOf(requests[n]) := NodeOf(requests[n], outcomes[n])]
  }

  lemma {:induction false} AllFilledIs(files: Files, requests: seq<Request>, outcomes: seq<Outcome>)
    requires |outcomes| == |requests|
    requires forall i, j :: 0 <= i < j < |requests| ==> RootOf(requests[i]) != RootOf(requests[j])
    ensures forall k :: 0 <= k < |requests| ==> Filled(AllFilled(files, requests, outcomes), requests[k], outcomes[k])
    ensures forall path :: path !in RequestedRoots(requests) ==>
      Lookup(AllFilled(files, requests, outcomes), path) == Lookup(files, path)
  {
    if requests != [] {
      var n := |requests| - 1;
      AllFilledIs(files, requests[..n], outcomes[..n]);
      forall k | 0 <= k < n ensures Filled(AllFilled(files, requests, outcomes), requests[k], outcomes[k]) {
        assert requests[..n][k] == requests[k] && outcomes[..n][k] == outcomes[k];
      }
      forall path | path !in RequestedRoots(requests)
        ensures path !in RequestedRoots(requests[..n]) && path != RootOf(requests[n])
      {
        assert requests[n] in requests;
      }
    }
  }

  /** The state that staging and installing lead to is the one computed from the outcomes. */
  lemma {:induction false} StagedIsFilled(
      start: Files, files: Files, id: nat, roots: set<Path>, requests: seq<Request>, outcomes: seq<Outcome>)
    requires |outcomes| == |requests| && roots <= RequestedRoots(requests)
    requires forall i, j :: 0 <= i < j < |requests| ==> RootOf(requests[i]) != RootOf(requests[j])
    requires Closed(start, files, id, roots) && BinsSame(start, files)
    requires forall k :: 0 <= k < |requests| ==> Filled(files, requests[k], outcomes[k])
    ensures Alike(files, AllFilled(start, requests, outcomes))
  {
    AllFilledIs(start, requests, outcomes);
    forall path: Path | !path.Sibling?
      ensures Lookup(files, path) == Lookup(AllFilled(start, requests, outcomes), path)
    {
      if path in RequestedRoots(requests) {
        var k :| 0 <= k < |requests| && RootOf(requests[k]) == path;
        assert Filled(AllFilled(start, requests, outcomes), requests[k], outcomes[k]);
      } else {
        assert !IsNew(path, id);
      }
    }
  }

  /** The two differ at most in staged and backup names. */
  ghost predicate Alike(files: Files, other: Files) {
    forall path: Path :: !path.Sibling? ==> Lookup(files, path) == Lookup(other, path)
  }

  lemma {:induction false} AlikeExposes(files: Files, other: Files, env: Env)
    requires Alike(files, other)
    ensures forall path, logical :: Exposes(files, env, path, logical) <==> Exposes(other, env, path, logical)
    ensures forall path, logical :: Exposes(files, env, path, logical) ==> BinsOf(files, path) == BinsOf(other, path)
    ensures forall name :: Justified(files, env, name) <==> Justified(other, env, name)
    ensures Described(files, env) <==> Described(other, env)
  {
    forall path: Path | !path.Sibling? ensures Installed(files, env, path) <==> Installed(other, env, path) {
      assert Lookup(files, path) == Lookup(other, path);
    }
    forall path, logical ensures Exposes(files, env, path, logical) <==> Exposes(other, env, path, logical) {
      if path.Profile? {
        assert Lookup(files, path) == Lookup(other, path);
      }
    }
    forall path, logical | Exposes(files, env, path, logical) ensures BinsOf(files, path) == BinsOf(other, path) {
      assert Lookup(files, path) == Lookup(other, path);
    }
    forall path | Installed(files, env, path) ensures Lookup(files, path) == Lookup(other, path) {
      assert !path.Sibling?;
    }
  }

  /** So backups do not matter to whether a state can be synchronized. */
  lemma {:induction false} AlikeSound(files: Files, other: Files, env: Env)
    requires Alike(files, other)
    ensures Sound(files, env) <==> Sound(other, env)
  {
    AlikeExposes(files, other, env);
    assert Lookup(files, Index) == Lookup(other, Index);
    forall name ensures Lookup(files, Bin(name)) == Lookup(other, Bin(name)) {
      assert !Bin(name).Sibling?;
    }
  }

  lemma {:induction false} UnusableIsUnsound(
      files: Files, env: Env, requests: seq<Request>, outcomes: seq<Outcome>, k: nat)
    requires |outcomes| == |requests| && k < |requests| && ValidRequests(env, requests)
    requires outcomes[k].succeeds && !Usable(outcomes[k])
    ensures !Sound(AllFilled(files, requests, outcomes), env)
  {
    AllFilledIs(files, requests, outcomes);
    assert Filled(AllFilled(files, requests, outcomes), requests[k], outcomes[k]);
    var name :| name in outcomes[k].tree.bins && !ValidBinName(name);
    assert Exposes(AllFilled(files, requests, outcomes), env, RootOf(requests[k]), name);
  }

  ghost predicate ValidRequests(env: Env, requests: seq<Request>) {
    && (forall i :: 0 <= i < |requests| ==> env.isSlug(requests[i].org) && env.isSlug(requests[i].name))
    && (forall i, j :: 0 <= i < j < |requests| ==> RootOf(requests[i]) != RootOf(requests[j]))
  }

  function RequestedRoots(requests: seq<Request>): set<Path> {
    set request | request in requests :: RootOf(request)
  }

  /** Rejects invalid identities and repeated packages before anything is touched. */
  method ParseInstallSpecs(env: Env, requests: seq<Request>) returns (ok: bool)
    ensures ok <==> ValidRequests(env, requests)
  {
    var seen: set<Path> := {};
    for i := 0 to |requests|
      invariant seen == set k | 0 <= k < i :: RootOf(requests[k])
      invariant forall k :: 0 <= k < i ==> env.isSlug(requests[k].org) && env.isSlug(requests[k].name)
      invariant forall j, k :: 0 <= j < k < i ==>
        RootOf(requests[j]) != RootOf(requests[k])
    {
      var root := RootOf(requests[i]);
      if !env.isSlug(requests[i].org) || !env.isSlug(requests[i].name) || root in seen {
        return false;
      }
      seen := seen + {root};
    }
    ok := true;
  }

  /** What a caller can check: whether installing with these outcomes succeeds if no operation fails. */
  ghost predicate Installable(files: Files, env: Env, requests: seq<Request>, outcomes: seq<Outcome>)
    requires |outcomes| == |requests|
  {
    && requests != [] && ValidRequests(env, requests)
    && (forall k :: 0 <= k < |outcomes| ==> outcomes[k].succeeds)
    && Sound(AllFilled(files, requests, outcomes), env)
  }

  /**
   Installs the requested packages, for whatever outcomes the installer has.  On success the profiles are
   those of the outcomes and everything else is as promised; after an error only the `lost` paths differ,
   and each of them costs a failed operation besides the one that caused the error.  So without a failure
   the command succeeds exactly when the outcomes are installable, and one failure never loses anything
   of an installable command.
   */
  method Install(w: World, requests: seq<Request>, outcomes: seq<Outcome>) returns (ok: bool, ghost lost: set<Path>)
    requires w.Valid() && |outcomes| == |requests|
    modifies w, w.machine
    ensures w.Valid() && w.nextId >= old(w.nextId)
    ensures Transacted(old(w.files), w.files, old(w.nextId), w.env, RequestedRoots(requests), ok, lost)
    ensures ok ==> Installable(old(w.files), w.env, requests, outcomes) && lost == {}
    ensures ok ==> forall path: Path :: path.Profile? ==>
      Lookup(w.files, path) == Lookup(AllFilled(old(w.files), requests, outcomes), path)
    ensures w.machine.failures >= old(w.machine.failures) + |lost|
      + if !ok && Installable(old(w.files), w.env, requests, outcomes) then 1 else 0
  {
    ghost var start, id := w.files, w.nextId;
    var valid := ParseInstallSpecs(w.env, requests);
    if requests == [] || !valid {
      return false, {};
    }
    var prepared, staged;
    ghost var before, stopped;
    prepared, staged, before, stopped := PrepareAll(w, requests, outcomes, start, id);
    ghost var middle := w.files;
    AnswersAreRequested(staged, requests);
    RootsWithin(staged, RequestedRoots(requests));
    if prepared {
      StagedIsFilled(start, middle, id, Roots(staged), requests, outcomes);
      AlikeSound(middle, AllFilled(start, requests, outcomes), w.env);
    } else if outcomes[stopped].succeeds && !Usable(outcomes[stopped]) {
      UnusableIsUnsound(start, w.env, requests, outcomes, stopped);
    }
    ok, lost := Conclude(w, staged, prepared, before, start, id);
    lost := before + lost;
    TransactedWiden(start, w.files, id, w.env, Roots(staged) + before, RequestedRoots(requests), ok, lost);
  }

  /** The staged profiles are those of the first requests, in order. */
  ghost predicate Answers(staged: seq<StagedProfile>, requests: seq<Request>) {
    |staged| <= |requests| && forall k :: 0 <= k < |staged| ==> staged[k].root == RootOf(requests[k])
  }

  /** The first `i` requests have been filled with successful outcomes. */
  ghost predicate FilledUpTo(files: Files, requests: seq<Request>, outcomes: seq<Outcome>, i: nat)
    requires i <= |requests| == |outcomes|
  {
    forall k :: 0 <= k < i ==> outcomes[k].succeeds && Filled(files, requests[k], outcomes[k])
  }

  lemma {:induction false} StillFilled(
      files: Files, after: Files, requests: seq<Request>, outcomes: seq<Outcome>, i: nat)
    requires i < |requests| == |outcomes| && FilledUpTo(files, requests, outcomes, i)
    requires forall j, k :: 0 <= j < k < |requests| ==> RootOf(requests[j]) != RootOf(requests[k])
    requires forall path: Path :: path.Profile? && path != RootOf(requests[i]) ==>
      Lookup(after, path) == Lookup(files, path)
    ensures FilledUpTo(after, requests, outcomes, i)
    ensures outcomes[i].succeeds && Filled(after, requests[i], outcomes[i]) ==>
      FilledUpTo(after, requests, outcomes, i + 1)
  {
    forall k | 0 <= k < i ensures Filled(after, requests[k], outcomes[k]) {
      assert Lookup(after, RootOf(requests[k])) == Lookup(files, RootOf(requests[k]));
    }
  }

  lemma {:induction false} AnswersMore(staged: seq<StagedProfile>, all: seq<StagedProfile>, requests: seq<Request>)
    requires |staged| < |requests| && Answers(staged, requests)
    requires all == staged || (|all| == |staged| + 1 && all[..|staged|] == staged
                               && all[|staged|].root == RootOf(requests[|staged|]))
    ensures Answers(all, requests)
  {
    forall k | 0 <= k < |staged| && all != staged ensures all[k].root == RootOf(requests[k]) {
      assert all[k] == all[..|staged|][k];
    }
  }

  lemma {:induction false} AnswersAreRequested(staged: seq<StagedProfile>, requests: seq<Request>)
    requires Answers(staged, requests)
    ensures forall k :: 0 <= k < |staged| ==> staged[k].root in RequestedRoots(requests)
  {
  }

  /** Prepares the requested profiles in order; stops at the first that fails or cannot be used. */
  method PrepareAll(w: World, requests: seq<Request>, outcomes: seq<Outcome>, ghost start: Files, ghost id: nat)
    returns (prepared: bool, staged: seq<StagedProfile>, ghost lost: set<Path>, ghost stopped: nat)
    requires w.Valid() && w.files == start && w.nextId == id && ValidRequests(w.env, requests)
    requires |outcomes| == |requests| > 0
    modifies w, w.machine
    ensures w.Valid() && Staging(start, w.files, id, w.nextId, staged, lost) && Answers(staged, requests)
    ensures stopped < |requests| && lost <= {RootOf(requests[stopped])} && (prepared ==> lost == {})
    ensures prepared ==> FilledUpTo(w.files, requests, outcomes, |requests|)
    ensures w.machine.failures >=
      old(w.machine.failures) + |lost| + if !prepared && Usable(outcomes[stopped]) then 1 else 0
  {
    staged, prepared, lost, stopped := [], true, {}, 0;
    for i := 0 to |requests|
      invariant w.Valid() && Staging(start, w.files, id, w.nextId, staged, {})
      invariant |staged| == i && Answers(staged, requests)
      invariant FilledUpTo(w.files, requests, outcomes, i) && lost == {} && stopped < |requests|
      invariant prepared && w.machine.failures >= old(w.machine.failures)
    {
      ghost var files, earlier := w.files, staged;
      stopped := i;
      prepared, staged, lost := PrepareProfile(w, requests[i], outcomes[i], staged, start, id);
      AnswersMore(earlier, staged, requests);
      if !prepared {
        return;
      }
      StillFilled(files, w.files, requests, outcomes, i);
    }
  }

  /** Profiles can be listed, and the ones named are installed and named once. */
  ghost predicate Selectable(files: Files, env: Env, specs: seq<Path>) {
    Described(files, env) && Distinct(specs) && forall root :: root in specs ==> Installed(files, env, root)
  }

  /** The profiles a command names; all of them when it names none. */
  method SelectedProfiles(w: World, specs: seq<Path>) returns (r: Result<seq<Path>>)
    requires w.Valid()
    modifies w.machine
    ensures w.machine.failures >= old(w.machine.failures)
    ensures r.Ok? ==> Selectable(w.files, w.env, specs)
    ensures r.Err? && w.machine.failures == old(w.machine.failures) ==> !Selectable(w.files, w.env, specs)
    ensures r.Ok? ==> Distinct(r.value) && forall root :: root in r.value ==> Installed(w.files, w.env, root)
    ensures r.Ok? && specs == [] ==> forall path :: Installed(w.files, w.env, path) ==> path in r.value
    ensures r.Ok? && specs != [] ==> r.value == specs
  {
    var profiles := DiscoverProfiles(w);
    if profiles.Err? {
      return Err;
    }
    var roots := seq(|profiles.value|, i requires 0 <= i < |profiles.value| => profiles.value[i].root);
    RootsAreInstalled(w.files, w.env, profiles.value, roots);
    if specs == [] {
      return Ok(roots);
    }
    var selected: seq<Path> := [];
    for i := 0 to |specs|
      invariant w.machine.failures >= old(w.machine.failures)
      invariant selected == specs[..i] && Distinct(selected)
      invariant forall root :: root in selected ==> root in roots
    {
      if specs[i] in selected || specs[i] !in roots {
        assert specs[i] in specs;
        return Err;
      }
      selected := selected + [specs[i]];
    }
    r := Ok(selected);
  }

  lemma RootsAreInstalled(files: Files, env: Env, profiles: seq<InstalledProfile>, roots: seq<Path>)
    requires Discovered(files, env, profiles) && |roots| == |profiles|
    requires forall i :: 0 <= i < |roots| ==> roots[i] == profiles[i].root
    ensures Distinct(roots) && forall path :: Installed(files, env, path) <==> path in roots
  {
  }

  /** Stages the removal of the given profiles in order; stops at the first failure. */
  method StageRemovals(w: World, roots: seq<Path>, ghost start: Files, ghost id: nat)
    returns (prepared: bool, staged: seq<StagedProfile>)
    requires w.Valid() && Distinct(roots) && forall root :: root in roots ==> root.Profile?
    requires w.files == start && w.nextId == id && forall root :: root in roots ==> root in start
    modifies w, w.machine
    ensures w.Valid() && Staging(start, w.files, id, w.nextId, staged, {})
    ensures w.machine.failures == old(w.machine.failures) + if prepared then 0 else 1
    ensures |staged| <= |roots| && forall k :: 0 <= k < |staged| ==> staged[k].root == roots[k]
    ensures prepared ==> |staged| == |roots| && forall root :: root in roots ==> root !in w.files
  {
    staged, prepared := [], true;
    for i := 0 to |roots|
      invariant w.Valid() && Staging(start, w.files, id, w.nextId, staged, {})
      invariant w.machine.failures == old(w.machine.failures)
      invariant |staged| == i && forall k :: 0 <= k < i ==> staged[k].root == roots[k]
      invariant forall k :: i <= k < |roots| ==> Lookup(w.files, roots[k]) == Lookup(start, roots[k])
      invariant forall k :: 0 <= k < i ==> roots[k] !in w.files
    {
      ghost var files, next := w.files, w.nextId;
      var entry := StageProfileRemoval(w, roots[i]);
      if entry.Err? {
        StagingLost(start, files, w.files, id, next, w.nextId, staged, roots[i]);
        return false, staged;
      }
      StagingMore(start, files, w.files, id, next, w.nextId, staged, entry.value);
      forall k | 0 <= k < i ensures roots[k] !in w.files {
        assert Lookup(w.files, roots[k]) == Lookup(files, roots[k]);
      }
      staged := staged + [entry.value];
    }
  }

  /** The profiles an uninstall is about. */
  ghost function Chosen(files: Files, env: Env, specs: seq<Path>): set<Path> {
    if specs == [] then set path | path in files && Installed(files, env, path) else set path | path in specs
  }

  /** What a caller can check: whether uninstalling succeeds if no operation fails. */
  ghost predicate Removable(files: Files, env: Env, specs: seq<Path>, confirmed: bool) {
    && Selectable(files, env, specs)
    && (Chosen(files, env, specs) == {} || (confirmed && Sound(files - Chosen(files, env, specs), env)))
  }

  /** Removes the chosen profiles, with the promises of `Install`. */
  method Uninstall(w: World, specs: seq<Path>, confirmed: bool) returns (ok: bool, ghost lost: set<Path>)
    requires w.Valid()
    modifies w, w.machine
    ensures w.Valid() && w.nextId >= old(w.nextId)
    ensures ok && Chosen(old(w.files), w.env, specs) == {} ==> w.files == old(w.files)
    ensures !ok || Chosen(old(w.files), w.env, specs) != {} ==>
      Transacted(old(w.files), w.files, old(w.nextId), w.env, Chosen(old(w.files), w.env, specs), ok, lost)
    ensures ok ==> Removable(old(w.files), w.env, specs, confirmed) && lost == {}
    ensures ok ==> forall path: Path :: path.Profile? ==>
      Lookup(w.files, path) == Lookup(old(w.files) - Chosen(old(w.files), w.env, specs), path)
    ensures w.machine.failures >= old(w.machine.failures) + |lost|
      + if !ok && Removable(old(w.files), w.env, specs, confirmed) then 1 else 0
  {
    ghost var start, id := w.files, w.nextId;
    ghost var chosen := Chosen(w.files, w.env, specs);
    var selected := SelectedProfiles(w, specs);
    if selected.Err? {
      return false, {};
    }
    ChosenAre(w.files, w.env, specs, selected.value);
    if selected.value == [] {
      return true, {};
    }
    if !confirmed {
      return false, {};
    }
    ok, lost := Remove(w, selected.value, chosen);
  }

  /** Stages the removal of the chosen profiles and commits it. */
  method Remove(w: World, roots: seq<Path>, ghost chosen: set<Path>) returns (ok: bool, ghost lost: set<Path>)
    requires w.Valid() && Distinct(roots) && forall root :: root in roots ==> root.Profile? && root in w.files
    requires forall root :: root in chosen <==> root in roots
    modifies w, w.machine
    ensures w.Valid() && w.nextId >= old(w.nextId)
    ensures Transacted(old(w.files), w.files, old(w.nextId), w.env, chosen, ok, lost)
    ensures ok ==> Sound(old(w.files) - chosen, w.env) && lost == {}
    ensures ok ==> forall path: Path :: path.Profile? ==>
      Lookup(w.files, path) == Lookup(old(w.files) - chosen, path)
    ensures w.machine.failures >= old(w.machine.failures) + |lost|
      + if !ok && Sound(old(w.files) - chosen, w.env) then 1 else 0
  {
    ghost var start, id := w.files, w.nextId;
    var prepared, staged := StageRemovals(w, roots, start, id);
    ghost var middle := w.files;
    RootsWithin(staged, chosen);
    if prepared {
      RemovedIs(start, middle, id, Roots(staged), chosen);
      AlikeSound(middle, start - chosen, w.env);
    }
    ok, lost := Conclude(w, staged, prepared, {}, start, id);
    assert {} + lost == lost && Roots(staged) + {} == Roots(staged);
    TransactedWiden(start, w.files, id, w.env, Roots(staged), chosen, ok, lost);
  }

  lemma {:induction false} ChosenAre(files: Files, env: Env, specs: seq<Path>, selected: seq<Path>)
    requires forall root :: root in selected ==> Installed(files, env, root)
    requires specs == [] ==> forall path :: Installed(files, env, path) ==> path in selected
    requires specs != [] ==> selected == specs
    ensures forall root :: root in Chosen(files, env, specs) <==> root in selected
    ensures Chosen(files, env, specs) == {} <==> selected == []
  {
    var chosen := Chosen(files, env, specs);
    forall root ensures root in chosen <==> root in selected {
      if root in selected {
        assert Installed(files, env, root) && root in files;
      }
    }
    if selected != [] {
      assert selected[0] in selected;
    }
  }

  lemma {:induction false} RemovedIs(start: Files, files: Files, id: nat, roots: set<Path>, chosen: set<Path>)
    requires roots <= chosen && Closed(start, files, id, roots) && BinsSame(start, files)
    requires forall root :: root in chosen ==> root.Profile? && root !in files
    ensures Alike(files, start - chosen)
  {
    forall path: Path | !path.Sibling? ensures Lookup(files, path) == Lookup(start - chosen, path) {
      assert !IsNew(path, id);
    }
  }
}
