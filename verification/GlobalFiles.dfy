/**
 The part of the file system that global installs read and write: the user's bin
 directory, the ownership index `managed-bins.json`, and one directory tree per
 installed profile.  Every operation may fail.
 */
module GlobalFiles {
  import opened Wrappers
  import opened Faults

  type Bytes = seq<int>

  datatype Path =
    | Bin(name: string)                          // <bin dir>/<name>
    | Index                                      // <home>/global/managed-bins.json
    | Profile(org: string, name: string)         // <home>/global/profiles/<org>/<name>
    | Sibling(of: Path, kind: string, id: nat)   // `.<file name>.zed-<kind>-<uuid>` beside `of`

  datatype Metadata = Missing | Malformed | Package(package: string, requested: string)

  /** A profile: its metadata file, the regular files of its bin directory, the rest. */
  datatype Tree = Tree(metadata: Metadata, bins: map<string, Bytes>, rest: Bytes)

  /** What the package installer leaves in a profile, and whether it says it succeeded. */
  datatype Outcome = Outcome(tree: Tree, succeeds: bool)

  datatype Node = File(bytes: Bytes) | Dir(tree: Tree)

  type Files = map<Path, Node>

  datatype ManagedBin = ManagedBin(package: string, sha256: string)

  type ManagedState = map<string, ManagedBin>

  /** What the program takes from code outside this model. */
  datatype Env = Env(
    hash: Bytes -> string,
    encode: ManagedState -> Bytes,
    decode: Bytes -> Option<ManagedState>,
    isSlug: string -> bool,
    destination: string -> string,
    uuid: nat -> string)
  {
    ghost predicate Valid() {
      && (forall state: ManagedState :: decode(encode(state)) == Some(state))
      && (forall name: string :: isSlug(name) ==> name != "" && name[0] != '.' && '/' !in name)
    }

    function FileName(path: Path): string {
      match path
      case Bin(name) => name
      case Index => "managed-bins.json"
      case Profile(_, name) => name
      case Sibling(of, kind, id) => "." + FileName(of) + ".zed-" + kind + "-" + uuid(id)
    }
  }

  function Lookup(files: Files, path: Path): Option<Node> {
    if path in files then Some(files[path]) else None
  }

  /** The regular files in the bin directory of the profile at `root`. */
  function BinsOf(files: Files, root: Path): map<string, Bytes> {
    if root in files && files[root].Dir? then files[root].tree.bins else map[]
  }

  /** A name drawn from the UUID source at or after `id`. */
  predicate IsNew(path: Path, id: nat) {
    path.Sibling? && path.id >= id
  }

  /** Nothing but names drawn since `id` differs. */
  ghost predicate Same(before: Files, after: Files, id: nat) {
    forall path :: !IsNew(path, id) ==> Lookup(after, path) == Lookup(before, path)
  }

  /** Nothing but the `lost` paths and names drawn since `id` differs. */
  ghost predicate SameExcept(before: Files, after: Files, id: nat, lost: set<Path>) {
    forall path :: !IsNew(path, id) && path !in lost ==> Lookup(after, path) == Lookup(before, path)
  }

  class World {
    const machine: Machine
    const env: Env
    var files: Files
    var nextId: nat
    constructor (machine: Machine, env: Env, files: Files, nextId: nat)
      requires env.Valid()
      requires forall path :: path in files ==> !IsNew(path, nextId)
      ensures this.machine == machine && this.env == env && this.files == files && this.nextId == nextId && Valid()
    {
      this.machine := machine;
      this.env := env;
      this.files := files;
      this.nextId := nextId;
    }

    /** UUIDs are fresh: no existing file carries a name not drawn yet. */
    ghost predicate Valid()
      reads this
    {
      env.Valid() && forall path :: path in files ==> !IsNew(path, nextId)
    }

    method UniqueSibling(of: Path, kind: string) returns (path: Path)
      requires Valid()
      modifies this`nextId
      ensures Valid() && nextId == old(nextId) + 1
      ensures path == Sibling(of, kind, old(nextId)) && path !in files
    {
      path := Sibling(of, kind, nextId);
      nextId := nextId + 1;
    }

    method Rename(from: Path, to: Path) returns (ok: bool)
      requires Valid() && !IsNew(to, nextId) && from != to && from in files
      modifies this`files, machine
      ensures Valid() && machine.failures == old(machine.failures) + if ok then 0 else 1
      ensures ok ==> files == (old(files) - {from})[to := old(files)[from]]
      ensures !ok ==> files == old(files)
    {
      ok := machine.Attempt();
      if ok {
        files := (files - {from})[to := files[from]];
      }
    }

    /** Deletes a file or a tree; a failed tree deletion may leave any part of it. */
    method RemoveIfPresent(path: Path) returns (ok: bool)
      requires Valid()
      modifies this`files, machine
      ensures Valid() && machine.failures == old(machine.failures) + if ok then 0 else 1
      ensures ok ==> files == old(files) - {path}
      ensures !ok ==> path in old(files) && path in files && files == old(files)[path := files[path]]
      ensures !ok && old(files)[path].File? ==> files == old(files)
    {
      if path !in files {
        return true;
      }
      ok := machine.Attempt();
      if ok {
        files := files - {path};
      } else if files[path].Dir? {
        var left: Tree := *;
        files := files[path := Dir(left)];
      }
    }

    /** Creates or truncates a file; a failed write may leave any prefix or nothing. */
    method Write(path: Path, bytes: Bytes) returns (ok: bool)
      requires Valid() && !IsNew(path, nextId)
      modifies this`files, machine
      ensures Valid() && machine.failures == old(machine.failures) + if ok then 0 else 1
      ensures ok ==> files == old(files)[path := File(bytes)]
      ensures !ok ==> files == old(files) || (path in files && files == old(files)[path := files[path]])
    {
      ok := machine.Attempt();
      var touched: bool := *;
      if ok {
        files := files[path := File(bytes)];
      } else if touched {
        var left: Bytes := *;
        files := files[path := File(left)];
      }
    }

    method CreateDirectory(path: Path) returns (ok: bool)
      requires Valid() && !IsNew(path, nextId) && path !in files
      modifies this`files, machine
      ensures Valid() && machine.failures == old(machine.failures) + if ok then 0 else 1
      ensures ok ==> files == old(files)[path := Dir(Tree(Missing, map[], []))]
      ensures !ok ==> files == old(files)
    {
      ok := machine.Attempt();
      if ok {
        files := files[path := Dir(Tree(Missing, map[], []))];
      }
    }

    /** The package installer runs inside a profile; whatever it leaves there, it may succeed or not. */
    method InstallInto(root: Path, outcome: Outcome) returns (ok: bool)
      requires Valid() && root in files && files[root].Dir?
      modifies this`files
      ensures Valid() && files == old(files)[root := Dir(outcome.tree)] && ok == outcome.succeeds
    {
      files := files[root := Dir(outcome.tree)];
      ok := outcome.succeeds;
    }

    method WriteMetadata(root: Path, metadata: Metadata) returns (ok: bool)
      requires Valid() && root in files && files[root].Dir?
      modifies this`files, machine
      ensures Valid() && machine.failures == old(machine.failures) + if ok then 0 else 1
      ensures root in files && files[root].Dir? && files == old(files)[root := files[root]]
      ensures ok ==> files[root].tree == old(files)[root].tree.(metadata := metadata)
    {
      ok := machine.Attempt();
      if ok {
        files := files[root := Dir(files[root].tree.(metadata := metadata))];
      } else {
        var rest: Bytes, left: Metadata := *, *;
        files := files[root := Dir(files[root].tree.(metadata := left, rest := rest))];
      }
    }

    /** Copies an executable of the profile at `root`; a failed copy may leave part of it. */
    method CopyExecutable(root: Path, logical: string, to: Path) returns (ok: bool)
      requires Valid() && !IsNew(to, nextId) && logical in BinsOf(files, root)
      modifies this`files, machine
      ensures Valid() && machine.failures == old(machine.failures) + if ok then 0 else 1
      ensures ok ==> files == old(files)[to := File(BinsOf(old(files), root)[logical])]
      ensures !ok ==> files == old(files) || (to in files && files == old(files)[to := files[to]])
    {
      ok := Write(to, BinsOf(files, root)[logical]);
    }

    /** Only a regular file can be read. */
    method Read(path: Path) returns (r: Result<Bytes>)
      requires Valid() && path in files
      modifies machine
      ensures r.Ok? ==> files[path] == File(r.value) && machine.failures == old(machine.failures)
      ensures r.Err? ==> machine.failures == old(machine.failures) + if files[path].File? then 1 else 0
    {
      if files[path].Dir? {
        return Err;
      }
      var ok := machine.Attempt();
      r := if ok then Ok(files[path].bytes) else Err;
    }

    method HashFile(path: Path) returns (r: Result<string>)
      requires Valid() && path in files
      modifies machine
      ensures r.Ok? ==>
        files[path].File? && r.value == env.hash(files[path].bytes) && machine.failures == old(machine.failures)
      ensures r.Err? ==> machine.failures == old(machine.failures) + if files[path].File? then 1 else 0
    {
      var bytes := Read(path);
      r := if bytes.Ok? then Ok(env.hash(bytes.value)) else Err;
    }

    /**
     Replaces a file through a temporary and a backup beside it.  `undone` is
     false when the backup could not be moved back after a failed promotion.
     */
    method AtomicWrite(path: Path, bytes: Bytes) returns (ok: bool, undone: bool)
      requires Valid() && !path.Sibling?
      modifies this, machine
      ensures Valid() && nextId >= old(nextId)
      ensures forall other :: !IsNew(other, old(nextId)) && other != path ==>
        Lookup(files, other) == Lookup(old(files), other)
      ensures ok ==> undone && Lookup(files, path) == Some(File(bytes))
      ensures !ok && undone ==> Lookup(files, path) == Lookup(old(files), path)
      ensures !ok && !undone ==> Lookup(files, path) == None
      ensures machine.failures >= old(machine.failures) + if !undone then 2 else if !ok then 1 else 0
    {
      undone := true;
      var temporary := UniqueSibling(path, "tmp");
      ok := Write(temporary, bytes);
      if ok {
        ok, undone := Replace(path, temporary);
      }
    }

    method Replace(path: Path, temporary: Path) returns (ok: bool, undone: bool)
      requires Valid() && !path.Sibling? && temporary.Sibling? && temporary in files
      modifies this, machine
      ensures Valid() && nextId >= old(nextId)
      ensures forall other :: !IsNew(other, old(nextId)) && other != path && other != temporary ==>
        Lookup(files, other) == Lookup(old(files), other)
      ensures ok ==> undone && Lookup(files, path) == Some(old(files)[temporary])
      ensures !ok && undone ==> Lookup(files, path) == Lookup(old(files), path)
      ensures !ok && !undone ==> Lookup(files, path) == None
      ensures machine.failures >= old(machine.failures) + if !undone then 2 else if !ok then 1 else 0
    {
      undone := true;
      var backup := None;
      if path in files {
        var sibling := UniqueSibling(path, "write-backup");
        ok := Rename(path, sibling);
        if !ok {
          var _ := RemoveIfPresent(temporary);
          return;
        }
        backup := Some(sibling);
      }
      ok := Rename(temporary, path);
      if !ok {
        var _ := RemoveIfPresent(temporary);
        if backup.Some? {
          undone := Rename(backup.value, path);
        }
      } else if backup.Some? {
        var _ := RemoveIfPresent(backup.value);
      }
    }
  }
}
