/**
 `sync_bins`: brings the bin directory and its ownership index in line with the
 installed profiles, or puts everything back.
 */
module GlobalBins {
  import opened Enumerations
  import opened Wrappers
  import opened GlobalFiles

  datatype InstalledProfile = InstalledProfile(root: Path, package: string)

  datatype DesiredBin = DesiredBin(package: string, root: Path, logical: string, sha256: string)

  datatype Staged = Staged(name: string, temporary: Path, desired: DesiredBin)

  datatype Backup = Backup(destination: Path, backup: Path)

  // ---------- What a profile wants ----------

  predicate ValidBinName(name: string) {
    && name != "" && name != "." && name != ".."
    && forall c :: c in name ==>
      'a' <= c <= 'z' || 'A' <= c <= 'Z' || '0' <= c <= '9' || c in ['-', '_', '.', '+']
  }

  function Want(files: Files, env: Env, profile: InstalledProfile, logical: string): DesiredBin
    requires logical in BinsOf(files, profile.root)
  {
    DesiredBin(profile.package, profile.root, logical, env.hash(BinsOf(files, profile.root)[logical]))
  }

  function Source(files: Files, desired: DesiredBin): Bytes {
    var bins := BinsOf(files, desired.root);
    if desired.logical in bins then bins[desired.logical] else []
  }

  /** `desired` is the union of the profiles' executables, keyed by destination. */
  ghost predicate Desires(files: Files, env: Env, profiles: seq<InstalledProfile>, desired: map<string, DesiredBin>) {
    && (forall i, logical :: 0 <= i < |profiles| && logical in BinsOf(files, profiles[i].root) ==>
      env.destination(logical) in desired
      && desired[env.destination(logical)] == Want(files, env, profiles[i], logical))
    && (forall name :: name in desired ==> WantedBy(files, env, profiles, name, desired[name]))
  }

  ghost predicate WantedBy(files: Files, env: Env, profiles: seq<InstalledProfile>, name: string, wanted: DesiredBin) {
    exists profile :: profile in profiles && wanted.logical in BinsOf(files, profile.root)
      && env.destination(wanted.logical) == name && wanted == Want(files, env, profile, wanted.logical)
  }

  // ---------- The specification of a synchronization ----------

  function LoadIndex(files: Files, env: Env): Option<ManagedState> {
    if Index in files && files[Index].File? then env.decode(files[Index].bytes) else Some(map[])
  }

  /** The bytes at this name are the bytes Zed recorded for it. */
  predicate Owned(files: Files, env: Env, state: ManagedState, name: string) {
    && Bin(name) in files && files[Bin(name)].File?
    && name in state && env.hash(files[Bin(name)].bytes) == state[name].sha256
  }

  function RecordsOf(desired: map<string, DesiredBin>): ManagedState {
    map name | name in desired :: ManagedBin(desired[name].package, desired[name].sha256)
  }

  /** What a successful synchronization leaves at `path`. */
  function Committed(
      before: Files, env: Env, previous: ManagedState, desired: map<string, DesiredBin>, path: Path): Option<Node>
  {
    match path
    case Index => Some(File(env.encode(RecordsOf(desired))))
    case Bin(name) =>
      if name in desired then Some(File(Source(before, desired[name])))
      else if Owned(before, env, previous, name) then None
      else Lookup(before, path)
    case _ => Lookup(before, path)
  }

  ghost predicate Commits(
      before: Files, after: Files, id: nat, env: Env, previous: ManagedState, desired: map<string, DesiredBin>)
  {
    forall path :: !IsNew(path, id) ==> Lookup(after, path) == Committed(before, env, previous, desired, path)
  }

  /** Only these names may change, and only if free or still as Zed recorded them. */
  ghost predicate MayTouch(before: Files, env: Env, previous: ManagedState, names: set<string>) {
    forall name :: name in names && Bin(name) in before ==> Owned(before, env, previous, name)
  }

  /** An entry of the bin directory changes only if it still holds what Zed recorded. */
  ghost predicate Safe(before: Files, after: Files, env: Env) {
    forall name :: Bin(name) in before && Lookup(after, Bin(name)) != Lookup(before, Bin(name)) ==>
      LoadIndex(before, env).Some? && Owned(before, env, LoadIndex(before, env).value, name)
  }

  // ---------- The state in the middle of the transaction ----------

  /** What stands at `path` once some names are promoted and some moved aside. */
  function Midway(start: Files, promoted: map<string, Bytes>, moved: set<string>, path: Path): Option<Node> {
    if path.Bin? && path.name in promoted then Some(File(promoted[path.name]))
    else if path.Bin? && path.name in moved then None
    else Lookup(start, path)
  }

  ghost predicate Stands(start: Files, files: Files, id: nat, promoted: map<string, Bytes>, moved: set<string>) {
    forall path :: !IsNew(path, id) && path != Index ==> Lookup(files, path) == Midway(start, promoted, moved, path)
  }

  /** The old entry is kept under a fresh name beside its destination. */
  ghost predicate Kept(start: Files, files: Files, id: nat, next: nat, backup: Backup) {
    && backup.destination.Bin? && backup.destination in start
    && backup.backup.Sibling? && backup.backup.of == backup.destination && backup.backup.kind == "bin-backup"
    && id <= backup.backup.id < next
    && Lookup(files, backup.backup) == Some(start[backup.destination])
  }

  ghost predicate AllKept(start: Files, files: Files, id: nat, next: nat, backups: seq<Backup>) {
    && (forall i :: 0 <= i < |backups| ==> Kept(start, files, id, next, backups[i]))
    && (forall i, j :: 0 <= i < j < |backups| ==> backups[i].destination != backups[j].destination)
  }

  function MovedNames(backups: seq<Backup>): set<string>
    requires forall i :: 0 <= i < |backups| ==> backups[i].destination.Bin?
  {
    if backups == [] then {} else MovedNames(backups[..|backups| - 1]) + {backups[|backups| - 1].destination.name}
  }

  ghost predicate Copied(start: Files, files: Files, id: nat, next: nat, entry: Staged) {
    && entry.temporary.Sibling? && entry.temporary.of == Bin(entry.name) && entry.temporary.kind == "stage"
    && id <= entry.temporary.id < next
    && Lookup(files, entry.temporary) == Some(File(Source(start, entry.desired)))
  }

  /** The staged copies from index `from` on are still beside their destinations. */
  ghost predicate AllCopied(start: Files, files: Files, id: nat, next: nat, staged: seq<Staged>, from: nat) {
    forall i :: from <= i < |staged| ==> Copied(start, files, id, next, staged[i])
  }

  ghost predicate DistinctNames(staged: seq<Staged>) {
    forall i, j :: 0 <= i < j < |staged| ==> staged[i].name != staged[j].name
  }

  function PromotedBins(start: Files, staged: seq<Staged>): map<string, Bytes> {
    if staged == [] then map[]
    else
      var last := staged[|staged| - 1];
      PromotedBins(start, staged[..|staged| - 1])[last.name := Source(start, last.desired)]
  }

  function Records(staged: seq<Staged>): ManagedState {
    if staged == [] then map[]
    else
      var last := staged[|staged| - 1];
      Records(staged[..|staged| - 1])[last.name := ManagedBin(last.desired.package, last.desired.sha256)]
  }

  // ---------- The operations ----------

  method ProfileBins(w: World, root: Path) returns (r: Result<map<string, Bytes>>)
    requires w.Valid()
    modifies w.machine
    ensures w.machine.failures >= old(w.machine.failures)
    ensures r.Ok? ==> r.value == BinsOf(w.files, root) && forall name :: name in r.value ==> ValidBinName(name)
    ensures r.Err? ==>
      || w.machine.failures > old(w.machine.failures)
      || exists name :: name in BinsOf(w.files, root) && !ValidBinName(name)
  {
    var readable := w.machine.Attempt();
    if !readable {
      return Err;
    }
    var names := Enumerate(BinsOf(w.files, root).Keys);
    for i := 0 to |names|
      invariant w.machine.failures >= old(w.machine.failures)
      invariant forall k :: 0 <= k < i ==> ValidBinName(names[k])
    {
      if !ValidBinName(names[i]) {
        assert names[i] in BinsOf(w.files, root);
        return Err;
      }
    }
    r := Ok(BinsOf(w.files, root));
  }

  /** The names of the executables of some profiles once installed. */
  ghost function Taken(files: Files, env: Env, profiles: seq<InstalledProfile>): set<string> {
    set profile, logical | profile in profiles && logical in BinsOf(files, profile.root) :: env.destination(logical)
  }

  /** The executables of a profile have safe names, different from each other and from those taken. */
  ghost predicate Fits(files: Files, env: Env, profile: InstalledProfile, taken: set<string>) {
    && (forall logical :: logical in BinsOf(files, profile.root) ==>
      ValidBinName(logical) && env.destination(logical) !in taken)
    && (forall x, y :: x in BinsOf(files, profile.root) && y in BinsOf(files, profile.root) && x != y ==>
      env.destination(x) != env.destination(y))
  }

  ghost predicate Collectable(files: Files, env: Env, profiles: seq<InstalledProfile>) {
    forall i :: 0 <= i < |profiles| ==> Fits(files, env, profiles[i], Taken(files, env, profiles[..i]))
  }

  /** `all` is `desired` and, under their new names, the executables `names` of one profile. */
  ghost predicate Includes(files: Files, env: Env, profile: InstalledProfile, names: seq<string>,
                           desired: map<string, DesiredBin>, all: map<string, DesiredBin>)
  {
    && (forall name :: name in desired ==> name in all && all[name] == desired[name])
    && (forall i :: 0 <= i < |names| ==>
      && names[i] in BinsOf(files, profile.root) && env.destination(names[i]) !in desired
      && env.destination(names[i]) in all
      && all[env.destination(names[i])] == Want(files, env, profile, names[i]))
    && (forall i, j :: 0 <= i < j < |names| ==> env.destination(names[i]) != env.destination(names[j]))
    && (forall name :: name in all && name !in desired ==>
      exists i :: 0 <= i < |names| && env.destination(names[i]) == name)
  }

  lemma {:induction false} IncludesMore(
      files: Files, env: Env, profile: InstalledProfile, names: seq<string>, i: nat,
      desired: map<string, DesiredBin>, all: map<string, DesiredBin>)
    requires i < |names| && Includes(files, env, profile, names[..i], desired, all)
    requires names[i] in BinsOf(files, profile.root) && env.destination(names[i]) !in all
    ensures Includes(files, env, profile, names[..i + 1], desired,
                     all[env.destination(names[i]) := Want(files, env, profile, names[i])])
  {
  }

  lemma IncludesAll(files: Files, env: Env, profile: InstalledProfile, names: seq<string>,
                    desired: map<string, DesiredBin>, all: map<string, DesiredBin>)
    requires Includes(files, env, profile, names, desired, all) && Enumerates(names, BinsOf(files, profile.root).Keys)
    requires forall name :: name in BinsOf(files, profile.root) ==> ValidBinName(name)
    ensures Fits(files, env, profile, desired.Keys)
    ensures forall logical :: logical in BinsOf(files, profile.root) ==>
      env.destination(logical) in all && all[env.destination(logical)] == Want(files, env, profile, logical)
    ensures forall name :: name in all && name !in desired ==> WantedBy(files, env, [profile], name, all[name])
  {
  }

  lemma IncludesClash(files: Files, env: Env, profile: InstalledProfile, names: seq<string>, i: nat,
                      desired: map<string, DesiredBin>, all: map<string, DesiredBin>)
    requires i < |names| && Distinct(names) && Includes(files, env, profile, names[..i], desired, all)
    requires names[i] in BinsOf(files, profile.root) && env.destination(names[i]) in all
    ensures !Fits(files, env, profile, desired.Keys)
  {
  }

  method AddProfile(w: World, profile: InstalledProfile, desired: map<string, DesiredBin>)
    returns (r: Result<map<string, DesiredBin>>)
    requires w.Valid()
    modifies w.machine
    ensures w.machine.failures >= old(w.machine.failures)
    ensures r.Ok? ==> Fits(w.files, w.env, profile, desired.Keys)
    ensures r.Err? ==> w.machine.failures > old(w.machine.failures) || !Fits(w.files, w.env, profile, desired.Keys)
    ensures r.Ok? ==> forall name :: name in desired ==> name in r.value && r.value[name] == desired[name]
    ensures r.Ok? ==> forall logical :: logical in BinsOf(w.files, profile.root) ==>
      && w.env.destination(logical) in r.value
      && r.value[w.env.destination(logical)] == Want(w.files, w.env, profile, logical)
    ensures r.Ok? ==> forall name :: name in r.value && name !in desired ==>
      WantedBy(w.files, w.env, [profile], name, r.value[name])
  {
    var bins := ProfileBins(w, profile.root);
    if bins.Err? {
      return Err;
    }
    var names := Enumerate(bins.value.Keys);
    var all := desired;
    for i := 0 to |names|
      invariant w.machine.failures >= old(w.machine.failures)
      invariant Includes(w.files, w.env, profile, names[..i], desired, all)
    {
      var destination := w.env.destination(names[i]);
      if destination in all {
        IncludesClash(w.files, w.env, profile, names, i, desired, all);
        return Err;
      }
      var readable := w.machine.Attempt();
      if !readable {
        return Err;
      }
      IncludesMore(w.files, w.env, profile, names, i, desired, all);
      all := all[destination := Want(w.files, w.env, profile, names[i])];
    }
    assert names[..|names|] == names;
    IncludesAll(w.files, w.env, profile, names, desired, all);
    r := Ok(all);
  }

  lemma DesiresMore(files: Files, env: Env, profiles: seq<InstalledProfile>, profile: InstalledProfile,
                    desired: map<string, DesiredBin>, more: map<string, DesiredBin>)
    requires Desires(files, env, profiles, desired)
    requires forall name :: name in desired ==> name in more && more[name] == desired[name]
    requires forall logical :: logical in BinsOf(files, profile.root) ==>
      env.destination(logical) in more && more[env.destination(logical)] == Want(files, env, profile, logical)
    requires forall name :: name in more && name !in desired ==> WantedBy(files, env, [profile], name, more[name])
    ensures Desires(files, env, profiles + [profile], more)
  {
  }

  lemma DesiresTaken(files: Files, env: Env, profiles: seq<InstalledProfile>, desired: map<string, DesiredBin>)
    requires Desires(files, env, profiles, desired)
    ensures desired.Keys == Taken(files, env, profiles)
  {
  }

  method CollectDesiredBins(w: World, profiles: seq<InstalledProfile>) returns (r: Result<map<string, DesiredBin>>)
    requires w.Valid()
    modifies w.machine
    ensures w.machine.failures >= old(w.machine.failures)
    ensures r.Ok? ==> Collectable(w.files, w.env, profiles) && Desires(w.files, w.env, profiles, r.value)
    ensures r.Err? ==> w.machine.failures > old(w.machine.failures) || !Collectable(w.files, w.env, profiles)
  {
    var desired: map<string, DesiredBin> := map[];
    for i := 0 to |profiles|
      invariant w.machine.failures >= old(w.machine.failures)
      invariant Desires(w.files, w.env, profiles[..i], desired)
      invariant forall k :: 0 <= k < i ==> Fits(w.files, w.env, profiles[k], Taken(w.files, w.env, profiles[..k]))
    {
      DesiresTaken(w.files, w.env, profiles[..i], desired);
      var more := AddProfile(w, profiles[i], desired);
      if more.Err? {
        return Err;
      }
      DesiresMore(w.files, w.env, profiles[..i], profiles[i], desired, more.value);
      assert profiles[..i] + [profiles[i]] == profiles[..i + 1];
      desired := more.value;
    }
    assert profiles[..|profiles|] == profiles;
    r := Ok(desired);
  }

  /** No name in the way: recorded names are free or files, and wanted names are free or still as recorded. */
  ghost predicate Adoptable(files: Files, env: Env, previous: ManagedState, desired: map<string, DesiredBin>) {
    && (forall name :: name in previous && name !in desired && Bin(name) in files ==> files[Bin(name)].File?)
    && (forall name :: name in desired && Bin(name) in files ==>
      Owned(files, env, previous, name) && desired[name].sha256 != "")
  }

  method Preflight(w: World, previous: ManagedState, desired: map<string, DesiredBin>) returns (r: Result<seq<string>>)
    requires w.Valid()
    modifies w.machine
    ensures w.machine.failures >= old(w.machine.failures)
    ensures r.Ok? ==> Distinct(r.value) && Adoptable(w.files, w.env, previous, desired)
    ensures r.Ok? ==> forall name :: name in r.value <==> name !in desired && Owned(w.files, w.env, previous, name)
    ensures r.Err? ==> w.machine.failures > old(w.machine.failures) || !Adoptable(w.files, w.env, previous, desired)
  {
    var stale: seq<string> := [];
    var names := Enumerate(previous.Keys);
    for i := 0 to |names|
      invariant w.machine.failures >= old(w.machine.failures)
      invariant Distinct(stale) && forall name :: name in stale ==> name in names[..i]
      invariant forall name :: name in names[..i] ==>
        (name in stale <==> name !in desired && Owned(w.files, w.env, previous, name))
      invariant forall name :: name in names[..i] && name !in desired && Bin(name) in w.files ==>
        w.files[Bin(name)].File?
    {
      var name := names[i];
      if name !in desired && Bin(name) in w.files {
        var current := w.HashFile(Bin(name));
        if current.Err? {
          return Err;
        }
        if current.value == previous[name].sha256 {
          stale := stale + [name];
        }
      }
    }
    assert names[..|names|] == names;
    names := Enumerate(desired.Keys);
    for i := 0 to |names|
      invariant w.machine.failures >= old(w.machine.failures)
      invariant forall name :: name in names[..i] && Bin(name) in w.files ==>
        Owned(w.files, w.env, previous, name) && desired[name].sha256 != ""
    {
      var name := names[i];
      if Bin(name) in w.files {
        var current := w.HashFile(Bin(name));
        if current.Err? {
          return Err;
        }
        if !(name in previous && previous[name].sha256 == current.value) || desired[name].sha256 == "" {
          return Err;
        }
      }
    }
    assert names[..|names|] == names;
    r := Ok(stale);
  }

  /** Copies one wanted executable beside its destination; a failed copy is left behind. */
  method StageExecutable(w: World, name: string, wanted: DesiredBin, ghost start: Files, ghost id: nat)
    returns (r: Result<Staged>)
    requires w.Valid() && id <= w.nextId && wanted.root.Profile? && Same(start, w.files, id)
    requires wanted.logical in BinsOf(start, wanted.root)
    modifies w, w.machine
    ensures w.Valid() && w.nextId == old(w.nextId) + 1
    ensures w.machine.failures == old(w.machine.failures) + if r.Ok? then 0 else 1
    ensures forall path :: !IsNew(path, old(w.nextId)) ==> Lookup(w.files, path) == Lookup(old(w.files), path)
    ensures r.Ok? ==> r.value.name == name && r.value.desired == wanted && Copied(start, w.files, id, w.nextId, r.value)
  {
    assert Lookup(w.files, wanted.root) == Lookup(start, wanted.root);
    var temporary := w.UniqueSibling(Bin(name), "stage");
    var ok := w.CopyExecutable(wanted.root, wanted.logical, temporary);
    r := if ok then Ok(Staged(name, temporary, wanted)) else Err;
  }

  /** Copies every wanted executable beside its destination; a failure leaves the copies made so far. */
  method StageAll(w: World, desired: map<string, DesiredBin>) returns (r: Result<seq<Staged>>, names: seq<string>)
    requires w.Valid() && forall name :: name in desired ==> desired[name].root.Profile?
    requires forall name :: name in desired ==> desired[name].logical in BinsOf(w.files, desired[name].root)
    modifies w, w.machine
    ensures w.Valid() && w.nextId >= old(w.nextId)
    ensures w.machine.failures == old(w.machine.failures) + if r.Ok? then 0 else 1
    ensures Same(old(w.files), w.files, old(w.nextId))
    ensures Enumerates(names, desired.Keys)
    ensures r.Ok? ==> AllCopied(old(w.files), w.files, old(w.nextId), w.nextId, r.value, 0)
    ensures r.Ok? ==> |r.value| == |names|
    ensures r.Ok? ==> forall i :: 0 <= i < |names| ==>
      r.value[i].name == names[i] && r.value[i].desired == desired[names[i]]
  {
    names := Enumerate(desired.Keys);
    var staged: seq<Staged> := [];
    for i := 0 to |names|
      invariant w.Valid() && w.nextId >= old(w.nextId) && w.machine.failures == old(w.machine.failures)
      invariant Same(old(w.files), w.files, old(w.nextId))
      invariant AllCopied(old(w.files), w.files, old(w.nextId), w.nextId, staged, 0)
      invariant |staged| == i
      invariant forall k :: 0 <= k < i ==> staged[k].name == names[k] && staged[k].desired == desired[names[k]]
    {
      ghost var files, next := w.files, w.nextId;
      var entry := StageExecutable(w, names[i], desired[names[i]], old(w.files), old(w.nextId));
      if entry.Err? {
        return Err, names;
      }
      CopiedFrame(old(w.files), files, w.files, old(w.nextId), next, w.nextId, staged, 0);
      staged := staged + [entry.value];
    }
    r := Ok(staged);
  }

  lemma CopiedFrame(
      start: Files, files: Files, after: Files, id: nat, next: nat, later: nat, staged: seq<Staged>, from: nat)
    requires AllCopied(start, files, id, next, staged, from) && id <= next <= later
    requires forall path: Path :: path.Sibling? && path.kind == "stage" && !IsNew(path, next) ==>
      Lookup(after, path) == Lookup(files, path)
    ensures AllCopied(start, after, id, later, staged, from)
  {
  }

  lemma KeptFrame(start: Files, files: Files, after: Files, id: nat, next: nat, later: nat, backups: seq<Backup>)
    requires AllKept(start, files, id, next, backups) && id <= next <= later
    requires forall path: Path :: path.Sibling? && path.kind == "bin-backup" && !IsNew(path, next) ==>
      Lookup(after, path) == Lookup(files, path)
    ensures AllKept(start, after, id, later, backups)
  {
  }

  /** Moves the named entries aside; stops at the first failure. */
  method MoveAside(
      w: World, names: seq<string>, ghost start: Files, ghost id: nat) returns (ok: bool, backups: seq<Backup>)
    requires w.Valid() && id <= w.nextId && Distinct(names)
    requires Same(start, w.files, id) && forall name :: name in names ==> Bin(name) in start
    modifies w, w.machine
    ensures w.Valid() && w.nextId >= old(w.nextId)
    ensures AllKept(start, w.files, id, w.nextId, backups)
    ensures |backups| <= |names| && forall k :: 0 <= k < |backups| ==> backups[k].destination == Bin(names[k])
    ensures ok ==> |backups| == |names|
    ensures w.machine.failures == old(w.machine.failures) + if ok then 0 else 1
    ensures Stands(start, w.files, id, map[], MovedNames(backups)) && Lookup(w.files, Index) == Lookup(start, Index)
    ensures forall path: Path :: path.Sibling? && !IsNew(path, old(w.nextId)) ==>
      Lookup(w.files, path) == Lookup(old(w.files), path)
  {
    backups := [];
    for i := 0 to |names|
      invariant w.Valid() && w.nextId >= old(w.nextId) && w.machine.failures == old(w.machine.failures)
      invariant AllKept(start, w.files, id, w.nextId, backups)
      invariant |backups| == i && forall k :: 0 <= k < i ==> backups[k].destination == Bin(names[k])
      invariant Stands(start, w.files, id, map[], MovedNames(backups)) && Lookup(w.files, Index) == Lookup(start, Index)
      invariant forall path: Path :: path.Sibling? && !IsNew(path, old(w.nextId)) ==>
        Lookup(w.files, path) == Lookup(old(w.files), path)
    {
      NotYetMoved(backups, names, i);
      var backup := MoveOne(w, names[i], backups, start, id);
      if backup.None? {
        return false, backups;
      }
      assert (backups + [backup.value])[..i] == backups;
      backups := backups + [backup.value];
    }
    ok := true;
  }

  lemma NotYetMoved(backups: seq<Backup>, names: seq<string>, i: nat)
    requires Distinct(names) && i < |names| && |backups| <= i
    requires forall k :: 0 <= k < |backups| ==> backups[k].destination == Bin(names[k])
    ensures names[i] !in MovedNames(backups)
  {
  }

  method MoveOne(
      w: World, name: string, ghost backups: seq<Backup>, ghost start: Files, ghost id: nat) returns (r: Option<Backup>)
    requires w.Valid() && id <= w.nextId && Bin(name) in start
    requires AllKept(start, w.files, id, w.nextId, backups) && name !in MovedNames(backups)
    requires forall k :: 0 <= k < |backups| ==> backups[k].destination != Bin(name)
    requires Stands(start, w.files, id, map[], MovedNames(backups))
    modifies w, w.machine
    ensures w.Valid() && w.nextId == old(w.nextId) + 1
    ensures w.machine.failures == old(w.machine.failures) + if r.Some? then 0 else 1
    ensures r.None? ==> w.files == old(w.files) && AllKept(start, w.files, id, w.nextId, backups)
    ensures r.Some? ==> r.value.destination == Bin(name) && AllKept(start, w.files, id, w.nextId, backups + [r.value])
    ensures r.Some? ==> Stands(start, w.files, id, map[], MovedNames(backups) + {name})
    ensures forall path: Path :: !path.Bin? && !IsNew(path, old(w.nextId)) ==>
      Lookup(w.files, path) == Lookup(old(w.files), path)
  {
    ghost var files, next := w.files, w.nextId;
    assert Lookup(files, Bin(name)) == Some(start[Bin(name)]);
    var sibling := w.UniqueSibling(Bin(name), "bin-backup");
    var ok := w.Rename(Bin(name), sibling);
    KeptFrame(start, files, w.files, id, next, w.nextId, backups);
    r := if ok then Some(Backup(Bin(name), sibling)) else None;
  }

  /** The first staged copies are in place, and everything moved aside is kept. */
  ghost predicate Promoting(
      start: Files, files: Files, id: nat, next: nat, staged: seq<Staged>, promoted: seq<string>, backups: seq<Backup>)
  {
    && |promoted| <= |staged| && (forall k :: 0 <= k < |promoted| ==> promoted[k] == staged[k].name)
    && AllKept(start, files, id, next, backups)
    && Stands(start, files, id, PromotedBins(start, staged[..|promoted|]), MovedNames(backups))
  }

  /** Renames the staged copies into place in order; stops at the first failure. */
  method Promote(w: World, staged: seq<Staged>, backups: seq<Backup>, ghost start: Files, ghost id: nat)
    returns (ok: bool, promoted: seq<string>, next: ManagedState)
    requires w.Valid() && id <= w.nextId && DistinctNames(staged)
    requires AllKept(start, w.files, id, w.nextId, backups) && AllCopied(start, w.files, id, w.nextId, staged, 0)
    requires Stands(start, w.files, id, map[], MovedNames(backups))
    modifies w`files, w.machine
    ensures w.Valid() && Lookup(w.files, Index) == Lookup(old(w.files), Index)
    ensures Promoting(start, w.files, id, w.nextId, staged, promoted, backups)
    ensures ok ==> |promoted| == |staged| && next == Records(staged)
    ensures w.machine.failures == old(w.machine.failures) + if ok then 0 else 1
  {
    promoted, next := [], map[];
    for i := 0 to |staged|
      invariant w.Valid() && w.machine.failures == old(w.machine.failures)
      invariant Lookup(w.files, Index) == Lookup(old(w.files), Index)
      invariant AllCopied(start, w.files, id, w.nextId, staged, i) && |promoted| == i
      invariant Promoting(start, w.files, id, w.nextId, staged, promoted, backups)
      invariant next == Records(staged[..i])
    {
      ok := PromoteOne(w, staged, i, backups, start, id);
      if !ok {
        return;
      }
      promoted := promoted + [staged[i].name];
      next := next[staged[i].name := ManagedBin(staged[i].desired.package, staged[i].desired.sha256)];
    }
    assert staged[..|staged|] == staged;
    ok := true;
  }

  method PromoteOne(
      w: World, staged: seq<Staged>, i: nat, ghost backups: seq<Backup>, ghost start: Files, ghost id: nat)
    returns (ok: bool)
    requires w.Valid() && id <= w.nextId && i < |staged| && DistinctNames(staged)
    requires AllKept(start, w.files, id, w.nextId, backups) && AllCopied(start, w.files, id, w.nextId, staged, i)
    requires Stands(start, w.files, id, PromotedBins(start, staged[..i]), MovedNames(backups))
    modifies w`files, w.machine
    ensures w.Valid() && Lookup(w.files, Index) == Lookup(old(w.files), Index)
    ensures AllKept(start, w.files, id, w.nextId, backups)
    ensures !ok ==> w.files == old(w.files)
    ensures w.machine.failures == old(w.machine.failures) + if ok then 0 else 1
    ensures ok ==> AllCopied(start, w.files, id, w.nextId, staged, i + 1)
    ensures ok ==> Stands(start, w.files, id, PromotedBins(start, staged[..i + 1]), MovedNames(backups))
    ensures var bin := staged[i].desired;
      Records(staged[..i + 1]) == Records(staged[..i])[staged[i].name := ManagedBin(bin.package, bin.sha256)]
  {
    assert staged[..i + 1][..i] == staged[..i];
    var entry := staged[i];
    ghost var files := w.files;
    assert Copied(start, files, id, w.nextId, entry);
    ok := w.Rename(entry.temporary, Bin(entry.name));
    KeptFrame(start, files, w.files, id, w.nextId, w.nextId, backups);
    if ok {
      forall k | i + 1 <= k < |staged| ensures Copied(start, w.files, id, w.nextId, staged[k]) {
        assert Copied(start, files, id, w.nextId, staged[k]);
      }
    }
  }

  /** Moves replaced and stale executables aside, promotes the staged ones, replaces the index. */
  method Transact(w: World, destinations: seq<string>, staged: seq<Staged>, ghost start: Files, ghost id: nat)
    returns (r: Result<ManagedState>, promoted: seq<string>, backups: seq<Backup>, undone: bool)
    requires w.Valid() && id <= w.nextId && Same(start, w.files, id)
    requires Distinct(destinations) && forall name :: name in destinations ==> Bin(name) in start
    requires AllCopied(start, w.files, id, w.nextId, staged, 0) && DistinctNames(staged)
    modifies w, w.machine
    ensures w.Valid() && w.nextId >= old(w.nextId)
    ensures Stopped(start, w.files, id, w.nextId, destinations, staged, promoted, backups)
    ensures r.Ok? ==> undone && |promoted| == |staged| && |backups| == |destinations| && r.value == Records(staged)
    ensures r.Ok? ==> Lookup(w.files, Index) == Some(File(w.env.encode(r.value)))
    ensures r.Err? && undone ==> Lookup(w.files, Index) == Lookup(start, Index)
    ensures r.Err? && !undone ==> Lookup(w.files, Index) == None
    ensures w.machine.failures >= old(w.machine.failures) + if !undone then 2 else if r.Err? then 1 else 0
  {
    promoted, undone := [], true;
    ghost var files, next := w.files, w.nextId;
    var ok;
    ok, backups := MoveAside(w, destinations, start, id);
    if !ok {
      return Err, promoted, backups, undone;
    }
    CopiedFrame(start, files, w.files, id, next, w.nextId, staged, 0);
    var state;
    ok, promoted, state := Promote(w, staged, backups, start, id);
    if !ok {
      return Err, promoted, backups, undone;
    }
    files, next := w.files, w.nextId;
    var written;
    written, undone := w.AtomicWrite(Index, w.env.encode(state));
    KeptFrame(start, files, w.files, id, next, w.nextId, backups);
    r := if written then Ok(state) else Err;
  }

  lemma PromotedNames(start: Files, staged: seq<Staged>)
    ensures forall name :: name in PromotedBins(start, staged) <==>
      exists k :: 0 <= k < |staged| && staged[k].name == name
  {
  }

  /** Removing a promoted executable uncovers what stood there once the old entry was moved aside. */
  method Unpromote(
      w: World, name: string, ghost backups: seq<Backup>, ghost start: Files, ghost id: nat,
      ghost there: map<string, Bytes>)
    returns (ok: bool)
    requires w.Valid() && id <= w.nextId && AllKept(start, w.files, id, w.nextId, backups)
    requires Stands(start, w.files, id, there, MovedNames(backups))
    requires Bin(name) in start ==> name in MovedNames(backups)
    modifies w`files, w.machine
    ensures w.Valid() && Lookup(w.files, Index) == Lookup(old(w.files), Index)
    ensures AllKept(start, w.files, id, w.nextId, backups)
    ensures Stands(start, w.files, id, if ok then there - {name} else there, MovedNames(backups))
    ensures w.machine.failures >= old(w.machine.failures) + if ok then 0 else 1
  {
    assert Lookup(w.files, Bin(name)) == Midway(start, there, MovedNames(backups), Bin(name));
    ghost var files := w.files;
    ok := w.RemoveIfPresent(Bin(name));
    KeptFrame(start, files, w.files, id, w.nextId, w.nextId, backups);
  }

  lemma PeelPromoted(start: Files, staged: seq<Staged>, i: nat)
    requires i < |staged| && DistinctNames(staged)
    ensures PromotedBins(start, staged[..i + 1]) - {staged[i].name} == PromotedBins(start, staged[..i])
    ensures PromotedBins(start, staged[..i]).Keys <= PromotedBins(start, staged[..i + 1]).Keys
  {
    assert staged[..i + 1][..i] == staged[..i];
    PromotedNames(start, staged[..i]);
  }

  /** Names whose removal fails are `stuck`; the others are uncovered. */
  method UnpromoteAll(w: World, ghost staged: seq<Staged>, promoted: seq<string>, ghost backups: seq<Backup>,
                      ghost start: Files, ghost id: nat)
    returns (ghost there: map<string, Bytes>, ghost stuck: set<string>)
    requires w.Valid() && id <= w.nextId
    requires AllKept(start, w.files, id, w.nextId, backups)
    requires |promoted| <= |staged| && forall k :: 0 <= k < |promoted| ==> promoted[k] == staged[k].name
    requires DistinctNames(staged)
    requires Stands(start, w.files, id, PromotedBins(start, staged[..|promoted|]), MovedNames(backups))
    requires forall k :: 0 <= k < |promoted| && Bin(promoted[k]) in start ==> promoted[k] in MovedNames(backups)
    modifies w`files, w.machine
    ensures w.Valid() && Lookup(w.files, Index) == Lookup(old(w.files), Index)
    ensures AllKept(start, w.files, id, w.nextId, backups)
    ensures Stands(start, w.files, id, there, MovedNames(backups))
    ensures there.Keys <= PromotedBins(start, staged[..|promoted|]).Keys && there.Keys <= stuck
    ensures w.machine.failures >= old(w.machine.failures) + |stuck|
  {
    there, stuck := PromotedBins(start, staged[..|promoted|]), {};
    var i := |promoted|;
    while i > 0
      invariant 0 <= i <= |promoted| && w.Valid()
      invariant Lookup(w.files, Index) == Lookup(old(w.files), Index)
      invariant AllKept(start, w.files, id, w.nextId, backups)
      invariant Stands(start, w.files, id, there, MovedNames(backups))
      invariant there.Keys <= PromotedBins(start, staged[..|promoted|]).Keys
      invariant there.Keys <= PromotedBins(start, staged[..i]).Keys + stuck
      invariant w.machine.failures >= old(w.machine.failures) + |stuck|
    {
      i := i - 1;
      var removed := Unpromote(w, promoted[i], backups, start, id, there);
      PeelPromoted(start, staged, i);
      if removed {
        there := there - {promoted[i]};
      } else {
        stuck := stuck + {promoted[i]};
      }
    }
  }

  /** Names whose backup cannot be moved back are `stuck`; the others stand as at the start. */
  method RestoreAll(w: World, backups: seq<Backup>, ghost start: Files, ghost id: nat, ghost there0: map<string, Bytes>)
    returns (ghost there: map<string, Bytes>, ghost gone: set<string>, ghost stuck: set<string>)
    requires w.Valid() && id <= w.nextId && AllKept(start, w.files, id, w.nextId, backups)
    requires Stands(start, w.files, id, there0, MovedNames(backups))
    modifies w`files, w.machine
    ensures w.Valid() && Lookup(w.files, Index) == Lookup(old(w.files), Index)
    ensures Stands(start, w.files, id, there, gone)
    ensures there.Keys <= there0.Keys && gone <= MovedNames(backups) && gone <= stuck
    ensures w.machine.failures >= old(w.machine.failures) + |stuck|
  {
    there, gone, stuck := there0, MovedNames(backups), {};
    var i := |backups|;
    assert backups[..i] == backups;
    while i > 0
      invariant 0 <= i <= |backups| && w.Valid()
      invariant Lookup(w.files, Index) == Lookup(old(w.files), Index)
      invariant AllKept(start, w.files, id, w.nextId, backups[..i])
      invariant Stands(start, w.files, id, there, gone)
      invariant there.Keys <= there0.Keys && gone <= MovedNames(backups)
      invariant gone <= MovedNames(backups[..i]) + stuck
      invariant w.machine.failures >= old(w.machine.failures) + |stuck|
    {
      i := i - 1;
      assert backups[..i + 1][..i] == backups[..i];
      assert Kept(start, w.files, id, w.nextId, backups[..i + 1][i]);
      ghost var name := backups[i].destination.name;
      var restored := Restore(w, backups, i, start, id, there, gone);
      if restored {
        there, gone := there - {name}, gone - {name};
      } else {
        stuck := stuck + {name};
      }
    }
  }

  /**
   Removes what was promoted, restores what was moved aside, drops the staged copies.  Each name that
   stays `stuck` costs a failed operation; all others stand as at the start.
   */
  method Rollback(w: World, staged: seq<Staged>, promoted: seq<string>, backups: seq<Backup>,
                  ghost start: Files, ghost id: nat)
    returns (ghost there: map<string, Bytes>, ghost gone: set<string>, ghost stuck: set<string>)
    requires w.Valid() && id <= w.nextId
    requires AllKept(start, w.files, id, w.nextId, backups)
    requires |promoted| <= |staged| && forall k :: 0 <= k < |promoted| ==> promoted[k] == staged[k].name
    requires DistinctNames(staged) && forall k :: 0 <= k < |staged| ==> IsNew(staged[k].temporary, id)
    requires Stands(start, w.files, id, PromotedBins(start, staged[..|promoted|]), MovedNames(backups))
    requires forall k :: 0 <= k < |promoted| && Bin(promoted[k]) in start ==> promoted[k] in MovedNames(backups)
    modifies w`files, w.machine
    ensures w.Valid() && Lookup(w.files, Index) == Lookup(old(w.files), Index)
    ensures Stands(start, w.files, id, there, gone)
    ensures there.Keys <= PromotedBins(start, staged[..|promoted|]).Keys && gone <= MovedNames(backups)
    ensures there.Keys + gone <= stuck
    ensures w.machine.failures >= old(w.machine.failures) + |stuck|
  {
    ghost var unmoved;
    there, stuck := UnpromoteAll(w, staged, promoted, backups, start, id);
    there, gone, unmoved := RestoreAll(w, backups, start, id, there);
    stuck := stuck + unmoved;
    DropStaged(w, staged, start, id, there, gone);
  }

  method DropStaged(w: World, staged: seq<Staged>, ghost start: Files, ghost id: nat,
                    ghost there: map<string, Bytes>, ghost gone: set<string>)
    requires w.Valid() && Stands(start, w.files, id, there, gone)
    requires forall k :: 0 <= k < |staged| ==> IsNew(staged[k].temporary, id)
    modifies w`files, w.machine
    ensures w.Valid() && Lookup(w.files, Index) == Lookup(old(w.files), Index)
    ensures Stands(start, w.files, id, there, gone)
    ensures w.machine.failures >= old(w.machine.failures)
  {
    for k := 0 to |staged|
      invariant w.Valid() && Lookup(w.files, Index) == Lookup(old(w.files), Index)
      invariant Stands(start, w.files, id, there, gone)
      invariant w.machine.failures >= old(w.machine.failures)
    {
      var _ := w.RemoveIfPresent(staged[k].temporary);
    }
  }

  method Restore(
      w: World, backups: seq<Backup>, i: nat, ghost start: Files, ghost id: nat, ghost there: map<string, Bytes>,
      ghost gone: set<string>)
    returns (ok: bool)
    requires w.Valid() && id <= w.nextId && i < |backups|
    requires AllKept(start, w.files, id, w.nextId, backups[..i + 1]) && Stands(start, w.files, id, there, gone)
    modifies w`files, w.machine
    ensures w.Valid() && Lookup(w.files, Index) == Lookup(old(w.files), Index)
    ensures AllKept(start, w.files, id, w.nextId, backups[..i])
    ensures !ok ==> w.files == old(w.files)
    ensures w.machine.failures == old(w.machine.failures) + if ok then 0 else 1
    ensures ok ==>
      var destination := backups[i].destination;
      destination.Bin? && Stands(start, w.files, id, there - {destination.name}, gone - {destination.name})
  {
    var backup := backups[i];
    assert Kept(start, w.files, id, w.nextId, backups[..i + 1][i]);
    ghost var files := w.files;
    ok := true;
    if backup.backup in w.files {
      ok := w.Rename(backup.backup, backup.destination);
    }
    forall k | 0 <= k < i ensures Kept(start, w.files, id, w.nextId, backups[..i][k]) {
      assert Kept(start, files, id, w.nextId, backups[..i + 1][k]);
      assert backups[..i + 1][k].destination != backups[..i + 1][i].destination;
    }
    forall j, k | 0 <= j < k < i ensures backups[..i][j].destination != backups[..i][k].destination {
      assert backups[..i + 1][j].destination != backups[..i + 1][k].destination;
    }
  }

  lemma MovedAre(backups: seq<Backup>, names: seq<string>)
    requires |backups| <= |names| && forall k :: 0 <= k < |backups| ==> backups[k].destination == Bin(names[k])
    ensures forall name :: name in MovedNames(backups) <==> name in names[..|backups|]
  {
  }

  lemma PromotedAre(start: Files, staged: seq<Staged>, desired: map<string, DesiredBin>)
    requires DistinctNames(staged)
    requires forall k :: 0 <= k < |staged| ==> staged[k].name in desired && staged[k].desired == desired[staged[k].name]
    ensures forall k :: 0 <= k < |staged| ==>
      staged[k].name in PromotedBins(start, staged) && staged[k].name in Records(staged)
    ensures forall name :: name in PromotedBins(start, staged) ==>
      name in desired && PromotedBins(start, staged)[name] == Source(start, desired[name])
    ensures forall name :: name in Records(staged) ==>
      name in desired && Records(staged)[name] == ManagedBin(desired[name].package, desired[name].sha256)
  {
    if staged != [] {
      PromotedAre(start, staged[..|staged| - 1], desired);
    }
  }

  // ---------- The whole synchronization ----------

  /** Outside the bin directory and the index nothing but fresh names changes. */
  ghost predicate Contained(before: Files, after: Files, id: nat) {
    forall path :: !IsNew(path, id) && !path.Bin? && path != Index ==> Lookup(after, path) == Lookup(before, path)
  }

  /** Entries whose destination exists, after the stale ones. */
  method PresentDestinations(
      w: World, stale: seq<string>, names: seq<string>, ghost start: Files, ghost id: nat) returns (all: seq<string>)
    requires Same(start, w.files, id) && Distinct(stale) && Distinct(names)
    requires forall name :: name in stale ==> name !in names && Bin(name) in start
    ensures Distinct(all)
    ensures forall name :: name in all <==> name in stale || (name in names && Bin(name) in start)
  {
    all := stale;
    for i := 0 to |names|
      invariant Distinct(all)
      invariant forall name :: name in all <==> name in stale || (name in names[..i] && Bin(name) in start)
    {
      assert Lookup(w.files, Bin(names[i])) == Lookup(start, Bin(names[i]));
      if Bin(names[i]) in w.files {
        all := all + [names[i]];
      }
    }
    assert names[..|names|] == names;
  }

  /** The promises of a synchronization, whatever its outcome. */
  ghost predicate Outcome(before: Files, after: Files, id: nat, env: Env, profiles: seq<InstalledProfile>,
                          r: Result<nat>, lost: set<Path>, desired: map<string, DesiredBin>)
  {
    && Contained(before, after, id)
    && Safe(before, after, env)
    && (r.Err? ==> SameExcept(before, after, id, lost))
    && (r.Err? ==> Lookup(after, Index) == Lookup(before, Index) || Lookup(after, Index) == None)
    && (r.Ok? ==>
      && LoadIndex(before, env).Some?
      && r.value == |desired|
      && Desires(before, env, profiles, desired)
      && MayTouch(before, env, LoadIndex(before, env).value, desired.Keys)
      && Commits(before, after, id, env, LoadIndex(before, env).value, desired))
  }

  /** What a synchronization refuses before it touches anything. */
  ghost predicate Refuses(files: Files, env: Env, profiles: seq<InstalledProfile>, desired: map<string, DesiredBin>) {
    || !Collectable(files, env, profiles)
    || LoadIndex(files, env).None?
    || (Desires(files, env, profiles, desired) && !Adoptable(files, env, LoadIndex(files, env).value, desired))
  }

  /**
   Succeeds exactly when nothing is refused and no operation fails.  After an error only the `lost`
   paths differ, and each of them costs a failed operation besides the one that caused the error.
   */
  method SyncBins(w: World, profiles: seq<InstalledProfile>)
    returns (r: Result<nat>, ghost lost: set<Path>, ghost desired: map<string, DesiredBin>)
    requires w.Valid() && forall profile :: profile in profiles ==> profile.root.Profile?
    modifies w, w.machine
    ensures w.Valid() && w.nextId >= old(w.nextId)
    ensures Outcome(old(w.files), w.files, old(w.nextId), w.env, profiles, r, lost, desired)
    ensures r.Ok? ==> !Refuses(old(w.files), w.env, profiles, desired)
    ensures w.machine.failures >= old(w.machine.failures) + |lost|
      + if r.Ok? || Refuses(old(w.files), w.env, profiles, desired) then 0 else 1
    ensures r.Ok? || Refuses(old(w.files), w.env, profiles, desired) ==> lost == {}
  {
    lost, desired := {}, map[];
    var collected := CollectDesiredBins(w, profiles);
    if collected.Err? {
      return Err, lost, desired;
    }
    desired := collected.value;
    var previous := LoadIndex(w.files, w.env);
    var readable := w.machine.Attempt();
    if !readable || previous.None? {
      return Err, lost, desired;
    }
    var stale := Preflight(w, previous.value, collected.value);
    if stale.Err? {
      return Err, lost, desired;
    }
    var directory := w.machine.Attempt();
    if !directory {
      return Err, lost, desired;
    }
    r, lost := Synchronize(w, profiles, previous.value, collected.value, stale.value);
  }

  /** Stages the wanted executables and carries out the plan the preflight accepted. */
  method Synchronize(w: World, ghost profiles: seq<InstalledProfile>, ghost previous: ManagedState,
                     desired: map<string, DesiredBin>, stale: seq<string>)
    returns (r: Result<nat>, ghost lost: set<Path>)
    requires w.Valid() && forall profile :: profile in profiles ==> profile.root.Profile?
    requires Desires(w.files, w.env, profiles, desired) && LoadIndex(w.files, w.env) == Some(previous)
    requires Adoptable(w.files, w.env, previous, desired) && Distinct(stale)
    requires forall name :: name in stale <==> name !in desired && Owned(w.files, w.env, previous, name)
    modifies w, w.machine
    ensures w.Valid() && w.nextId >= old(w.nextId)
    ensures Outcome(old(w.files), w.files, old(w.nextId), w.env, profiles, r, lost, desired)
    ensures w.machine.failures >= old(w.machine.failures) + |lost| + if r.Ok? then 0 else 1
    ensures r.Ok? ==> lost == {}
  {
    ghost var start, id := w.files, w.nextId;
    WantedAreThere(w.files, w.env, profiles, desired);
    var staged, names := StageAll(w, desired);
    if staged.Err? {
      return Err, {};
    }
    var destinations := PresentDestinations(w, stale, names, start, id);
    r, lost := Apply(w, destinations, staged.value, start, id, previous, desired);
  }

  lemma WantedAreThere(files: Files, env: Env, profiles: seq<InstalledProfile>, desired: map<string, DesiredBin>)
    requires Desires(files, env, profiles, desired)
    requires forall profile :: profile in profiles ==> profile.root.Profile?
    ensures forall name :: name in desired ==>
      desired[name].root.Profile? && desired[name].logical in BinsOf(files, desired[name].root)
  {
  }

  /** The plan a preflight accepted: what to replace or retire, and the copies to promote. */
  ghost predicate Planned(start: Files, env: Env, previous: ManagedState, desired: map<string, DesiredBin>,
                          destinations: seq<string>, staged: seq<Staged>)
  {
    && LoadIndex(start, env) == Some(previous)
    && MayTouch(start, env, previous, desired.Keys)
    && Distinct(destinations)
    && (forall name :: name in destinations <==>
      (name !in desired && Owned(start, env, previous, name)) || (name in desired && Bin(name) in start))
    && DistinctNames(staged)
    && (forall i :: 0 <= i < |staged| ==> staged[i].name in desired && staged[i].desired == desired[staged[i].name])
    && (forall name :: name in desired ==> exists i :: 0 <= i < |staged| && staged[i].name == name)
  }

  /** Where a transaction may stop. */
  ghost predicate Stopped(
      start: Files, files: Files, id: nat, next: nat, destinations: seq<string>, staged: seq<Staged>,
      promoted: seq<string>, backups: seq<Backup>)
  {
    && AllKept(start, files, id, next, backups)
    && |backups| <= |destinations|
    && (forall k :: 0 <= k < |backups| ==> backups[k].destination == Bin(destinations[k]))
    && |promoted| <= |staged| && (forall k :: 0 <= k < |promoted| ==> promoted[k] == staged[k].name)
    && (promoted != [] ==> |backups| == |destinations|)
    && Stands(start, files, id, PromotedBins(start, staged[..|promoted|]), MovedNames(backups))
    && (forall k :: 0 <= k < |staged| ==> IsNew(staged[k].temporary, id))
  }

  method Undo(w: World, ghost destinations: seq<string>, staged: seq<Staged>, promoted: seq<string>,
              backups: seq<Backup>, ghost start: Files, ghost id: nat,
              ghost previous: ManagedState, ghost desired: map<string, DesiredBin>)
    returns (ghost lost: set<Path>)
    requires w.Valid() && id <= w.nextId
    requires Planned(start, w.env, previous, desired, destinations, staged)
    requires Stopped(start, w.files, id, w.nextId, destinations, staged, promoted, backups)
    modifies w`files, w.machine
    ensures w.Valid() && Lookup(w.files, Index) == Lookup(old(w.files), Index)
    ensures Contained(start, w.files, id) && Safe(start, w.files, w.env)
    ensures SameExcept(start, w.files, id, lost + {Index})
    ensures w.machine.failures >= old(w.machine.failures) + |lost|
  {
    MovedAre(backups, destinations);
    PromotedAre(start, staged[..|promoted|], desired);
    assert promoted != [] ==> destinations[..|backups|] == destinations;
    ghost var there, gone, stuck;
    there, gone, stuck := Rollback(w, staged, promoted, backups, start, id);
    StandsSafely(start, w.files, id, w.env, previous, desired, there, gone);
    lost := BinPaths(stuck);
    BinPathsAre(stuck);
  }

  ghost function BinPaths(names: set<string>): set<Path> {
    set name | name in names :: Bin(name)
  }

  lemma BinPathsAre(names: set<string>)
    ensures |BinPaths(names)| <= |names|
  {
    if names != {} {
      var name :| name in names;
      BinPathsAre(names - {name});
      assert BinPaths(names) == BinPaths(names - {name}) + {Bin(name)};
    }
  }

  lemma Completed(
      start: Files, files: Files, id: nat, next: nat, env: Env, previous: ManagedState,
      desired: map<string, DesiredBin>, destinations: seq<string>, staged: seq<Staged>, promoted: seq<string>,
      backups: seq<Backup>)
    requires Planned(start, env, previous, desired, destinations, staged)
    requires Stopped(start, files, id, next, destinations, staged, promoted, backups)
    requires |promoted| == |staged| && |backups| == |destinations|
    requires Lookup(files, Index) == Some(File(env.encode(Records(staged))))
    ensures Commits(start, files, id, env, previous, desired) && |Records(staged)| == |desired|
  {
    assert staged[..|promoted|] == staged;
    PlannedMoves(start, env, previous, desired, destinations, staged, backups);
    PlannedPromotions(start, env, previous, desired, destinations, staged);
    CommitReached(start, files, id, env, previous, desired, staged, MovedNames(backups));
  }

  lemma PlannedMoves(start: Files, env: Env, previous: ManagedState, desired: map<string, DesiredBin>,
                     destinations: seq<string>, staged: seq<Staged>, backups: seq<Backup>)
    requires Planned(start, env, previous, desired, destinations, staged)
    requires |backups| == |destinations| && forall k :: 0 <= k < |backups| ==>
      backups[k].destination == Bin(destinations[k])
    ensures forall name :: name in MovedNames(backups) <==>
      (name !in desired && Owned(start, env, previous, name)) || (name in desired && Bin(name) in start)
  {
    assert destinations[..|backups|] == destinations;
    MovedAre(backups, destinations);
  }

  lemma PlannedPromotions(start: Files, env: Env, previous: ManagedState, desired: map<string, DesiredBin>,
                          destinations: seq<string>, staged: seq<Staged>)
    requires Planned(start, env, previous, desired, destinations, staged)
    ensures PromotedBins(start, staged).Keys == desired.Keys && Records(staged).Keys == desired.Keys
    ensures forall name :: name in desired ==> PromotedBins(start, staged)[name] == Source(start, desired[name])
    ensures forall name :: name in desired ==>
      Records(staged)[name] == ManagedBin(desired[name].package, desired[name].sha256)
  {
    PromotedAre(start, staged, desired);
  }

  /** The transaction with its clean-up or its rollback. */
  method Apply(w: World, destinations: seq<string>, staged: seq<Staged>, ghost start: Files, ghost id: nat,
               ghost previous: ManagedState, ghost desired: map<string, DesiredBin>)
    returns (r: Result<nat>, ghost lost: set<Path>)
    requires w.Valid() && id <= w.nextId && Same(start, w.files, id)
    requires Planned(start, w.env, previous, desired, destinations, staged)
    requires AllCopied(start, w.files, id, w.nextId, staged, 0)
    modifies w, w.machine
    ensures w.Valid() && w.nextId >= old(w.nextId)
    ensures Contained(start, w.files, id) && Safe(start, w.files, w.env)
    ensures r.Err? ==> SameExcept(start, w.files, id, lost)
    ensures r.Err? ==> Lookup(w.files, Index) == Lookup(start, Index) || Lookup(w.files, Index) == None
    ensures r.Ok? ==> r.value == |desired| && Commits(start, w.files, id, w.env, previous, desired) && lost == {}
    ensures w.machine.failures >= old(w.machine.failures) + |lost| + if r.Ok? then 0 else 1
  {
    var state, promoted, backups, undone := Transact(w, destinations, staged, start, id);
    if state.Err? {
      lost := Undo(w, destinations, staged, promoted, backups, start, id, previous, desired);
      lost := if undone then lost - {Index} else lost + {Index};
      assert |lost| <= |lost - {Index}| + 1;
      return Err, lost;
    }
    lost := {};
    Completed(start, w.files, id, w.nextId, w.env, previous, desired, destinations, staged, promoted, backups);
    Discard(w, backups, staged, start, id, previous, desired);
    CommitIsSafe(start, w.files, id, w.env, previous, desired);
    r := Ok(|state.value|);
  }

  lemma StandsSafely(
      start: Files, files: Files, id: nat, env: Env, previous: ManagedState, desired: map<string, DesiredBin>,
      there: map<string, Bytes>, gone: set<string>)
    requires Stands(start, files, id, there, gone) && LoadIndex(start, env) == Some(previous)
    requires MayTouch(start, env, previous, there.Keys) && MayTouch(start, env, previous, gone)
    ensures Contained(start, files, id) && Safe(start, files, env)
    ensures SameExcept(start, files, id, BinPaths(there.Keys + gone) + {Index})
  {
  }

  lemma CommitReached(
      start: Files, files: Files, id: nat, env: Env, previous: ManagedState, desired: map<string, DesiredBin>,
      staged: seq<Staged>, moved: set<string>)
    requires Stands(start, files, id, PromotedBins(start, staged), moved)
    requires Lookup(files, Index) == Some(File(env.encode(Records(staged))))
    requires PromotedBins(start, staged).Keys == Records(staged).Keys == desired.Keys
    requires forall name :: name in desired ==> PromotedBins(start, staged)[name] == Source(start, desired[name])
    requires forall name :: name in desired ==>
      Records(staged)[name] == ManagedBin(desired[name].package, desired[name].sha256)
    requires forall name :: name in moved <==>
      (name !in desired && Owned(start, env, previous, name)) || (name in desired && Bin(name) in start)
    ensures Commits(start, files, id, env, previous, desired)
    ensures Records(staged) == RecordsOf(desired) && |Records(staged)| == |desired|
  {
    assert Records(staged) == RecordsOf(desired);
    assert |Records(staged)| == |Records(staged).Keys|;
  }

  lemma CommitIsSafe(
      start: Files, files: Files, id: nat, env: Env, previous: ManagedState, desired: map<string, DesiredBin>)
    requires Commits(start, files, id, env, previous, desired) && LoadIndex(start, env) == Some(previous)
    requires MayTouch(start, env, previous, desired.Keys)
    ensures Contained(start, files, id) && Safe(start, files, env)
  {
  }

  /** Removes the committed backups; a failure is only a warning. */
  method Discard(w: World, backups: seq<Backup>, staged: seq<Staged>, ghost start: Files, ghost id: nat,
                 ghost previous: ManagedState, ghost desired: map<string, DesiredBin>)
    requires w.Valid() && Commits(start, w.files, id, w.env, previous, desired)
    requires forall k :: 0 <= k < |backups| ==> IsNew(backups[k].backup, id)
    requires forall k :: 0 <= k < |staged| ==> IsNew(staged[k].temporary, id)
    modifies w`files, w.machine
    ensures w.Valid() && Commits(start, w.files, id, w.env, previous, desired)
    ensures w.machine.failures >= old(w.machine.failures)
  {
    for k := 0 to |backups|
      invariant w.Valid() && Commits(start, w.files, id, w.env, previous, desired)
      invariant w.machine.failures >= old(w.machine.failures)
    {
      var _ := w.RemoveIfPresent(backups[k].backup);
    }
    for k := 0 to |staged|
      invariant w.Valid() && Commits(start, w.files, id, w.env, previous, desired)
      invariant w.machine.failures >= old(w.machine.failures)
    {
      var _ := w.RemoveIfPresent(staged[k].temporary);
    }
  }
}
