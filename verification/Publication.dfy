/** Uploading a directory into an object store so that a failed upload can be resumed. */
module Publication {
  import opened Wrappers
  import opened Faults

  type Bytes = string

  datatype Kind = Regular | Directory | Symlink | Special

  /** An entry below the source directory, in the order of a sorted walk. */
  datatype Entry = Entry(relative: string, kind: Kind, bytes: Bytes)

  datatype Object = Object(body: Bytes, contentType: string, sha256: Option<string>, labels: map<string, string>)

  datatype ObjectMetadata = ObjectMetadata(contentLength: nat, sha256: Option<string>)

  datatype Row = Row(key: string, sha256: string, size: nat, uploaded: bool)

  datatype Plan = Plan(
    prefix: string, labels: map<string, string>, createBucket: bool, overwrite: bool,
    digest: Bytes -> string, contentType: string -> string)
  {
    function Key(file: Entry): string {
      prefix + "/" + file.relative
    }

    function ObjectFor(file: Entry): Object {
      Object(file.bytes, contentType(file.relative), Some(digest(file.bytes)), labels)
    }

    /** The store already holds this file, as far as its metadata tells. */
    predicate Holds(objects: map<string, Object>, file: Entry) {
      && Key(file) in objects
      && objects[Key(file)].sha256 == Some(digest(file.bytes)) && |objects[Key(file)].body| == |file.bytes|
    }

    predicate Conflict(objects: map<string, Object>, file: Entry) {
      !overwrite && Key(file) in objects && !Holds(objects, file)
    }

    /** The store once the files have been published, in order. */
    function After(objects: map<string, Object>, files: seq<Entry>): map<string, Object> {
      if files == [] then objects
      else
        var (before, file) := (After(objects, files[..|files| - 1]), files[|files| - 1]);
        if Holds(before, file) then before else before[Key(file) := ObjectFor(file)]
    }

    function Rows(objects: map<string, Object>, files: seq<Entry>): seq<Row> {
      seq(|files|, i requires 0 <= i < |files| =>
        Row(Key(files[i]), digest(files[i].bytes), |files[i].bytes|, !Holds(objects, files[i])))
    }
  }

  /** Entries of one directory have different names. */
  ghost predicate DistinctNames(entries: seq<Entry>) {
    forall i, j :: 0 <= i < j < |entries| ==> entries[i].relative != entries[j].relative
  }

  /** The regular files, in order. */
  function Regulars(entries: seq<Entry>): (files: seq<Entry>)
    ensures forall file :: file in files <==> file in entries && file.kind.Regular?
  {
    if entries == [] then []
    else
      var last := entries[|entries| - 1];
      Regulars(entries[..|entries| - 1]) + if last.kind.Regular? then [last] else []
  }

  lemma RegularsAreDistinct(entries: seq<Entry>)
    requires DistinctNames(entries)
    ensures DistinctNames(Regulars(entries))
  {
  }

  /** Symbolic links, special files and empty sources are refused. */
  predicate Collectable(entries: seq<Entry>) {
    && (exists entry :: entry in entries && entry.kind.Regular?)
    && forall entry :: entry in entries ==> !entry.kind.Symlink? && !entry.kind.Special?
  }

  method CollectFiles(entries: seq<Entry>) returns (r: Result<seq<Entry>>)
    ensures r == if Collectable(entries) then Ok(Regulars(entries)) else Err
  {
    var files: seq<Entry> := [];
    for i := 0 to |entries|
      invariant files == Regulars(entries[..i])
      invariant forall j :: 0 <= j < i ==> !entries[j].kind.Symlink? && !entries[j].kind.Special?
    {
      var entry := entries[i];
      assert entries[..i + 1][..i] == entries[..i] && entry in entries;
      if entry.kind.Symlink? {
        return Err;
      }
      if entry.kind.Regular? {
        files := files + [entry];
      } else if !entry.kind.Directory? {
        return Err;
      }
    }
    assert entries[..|entries|] == entries;
    if files == [] {
      assert forall entry :: entry in entries && entry.kind.Regular? ==> entry in files;
      return Err;
    }
    assert files[0] in files;
    r := Ok(files);
  }

  // ---------- The store after a partial upload ----------

  lemma {:induction false} AfterElsewhere(plan: Plan, objects: map<string, Object>, files: seq<Entry>, key: string)
    requires forall file :: file in files ==> plan.Key(file) != key
    ensures key in plan.After(objects, files) <==> key in objects
    ensures key in objects ==> plan.After(objects, files)[key] == objects[key]
  {
    if files != [] {
      AfterElsewhere(plan, objects, files[..|files| - 1], key);
    }
  }

  lemma KeysDiffer(plan: Plan, x: Entry, y: Entry)
    requires x.relative != y.relative
    ensures plan.Key(x) != plan.Key(y)
  {
    var n := |plan.prefix + "/"|;
    assert plan.Key(x)[n..] == x.relative && plan.Key(y)[n..] == y.relative;
  }

  /** A file not among those published is where it was before. */
  lemma NotYet(plan: Plan, objects: map<string, Object>, files: seq<Entry>, n: nat)
    requires DistinctNames(files) && n < |files|
    ensures var (key, after) := (plan.Key(files[n]), plan.After(objects, files[..n]));
            (key in after <==> key in objects) && (key in objects ==> after[key] == objects[key])
  {
    forall file | file in files[..n] ensures plan.Key(file) != plan.Key(files[n]) {
      KeysDiffer(plan, file, files[n]);
    }
    AfterElsewhere(plan, objects, files[..n], plan.Key(files[n]));
  }

  lemma {:induction false} AfterHolds(plan: Plan, objects: map<string, Object>, files: seq<Entry>, i: nat)
    requires DistinctNames(files) && i < |files|
    ensures plan.Holds(plan.After(objects, files), files[i])
    ensures plan.Holds(objects, files[i]) ==>
      plan.After(objects, files)[plan.Key(files[i])] == objects[plan.Key(files[i])]
    ensures !plan.Holds(objects, files[i]) ==>
      plan.After(objects, files)[plan.Key(files[i])] == plan.ObjectFor(files[i])
  {
    var n := |files| - 1;
    NotYet(plan, objects, files, n);
    if i < n {
      AfterHolds(plan, objects, files[..n], i);
      KeysDiffer(plan, files[i], files[n]);
    }
  }

  /** Without permission to overwrite, and without conflicts, whatever was there stays the same. */
  lemma {:induction false} AfterKeeps(plan: Plan, objects: map<string, Object>, files: seq<Entry>, key: string)
    requires !plan.overwrite && DistinctNames(files) && key in objects
    requires forall file :: file in files ==> !plan.Conflict(objects, file)
    ensures key in plan.After(objects, files) && plan.After(objects, files)[key] == objects[key]
  {
    if files != [] {
      var n := |files| - 1;
      AfterKeeps(plan, objects, files[..n], key);
      NotYet(plan, objects, files, n);
      assert files[n] in files;
    }
  }

  lemma {:induction false} NothingToDo(plan: Plan, objects: map<string, Object>, files: seq<Entry>)
    requires forall file :: file in files ==> plan.Holds(objects, file)
    ensures plan.After(objects, files) == objects
  {
    if files != [] {
      NothingToDo(plan, objects, files[..|files| - 1]);
      assert files[|files| - 1] in files;
    }
  }

  /** Publishing again what a failed run left reaches the store one run would have reached. */
  lemma {:induction false} Resumed(plan: Plan, objects: map<string, Object>, files: seq<Entry>, k: nat)
    requires DistinctNames(files) && k <= |files|
    ensures plan.After(plan.After(objects, files[..k]), files) == plan.After(objects, files)
  {
    var n := |files|;
    if k < n {
      assert files[..n - 1][..k] == files[..k];
      Resumed(plan, objects, files[..n - 1], k);
    } else {
      assert files[..k] == files;
      forall i | 0 <= i < n ensures plan.Holds(plan.After(objects, files), files[i]) {
        AfterHolds(plan, objects, files, i);
      }
      NothingToDo(plan, plan.After(objects, files), files);
    }
  }

  /** What a failed run uploaded, the next one reports as unchanged; it meets no new conflicts. */
  lemma ResumedRows(plan: Plan, objects: map<string, Object>, files: seq<Entry>, k: nat, i: nat)
    requires DistinctNames(files) && k <= |files| && i < |files|
    ensures var partial := plan.After(objects, files[..k]);
            && plan.Holds(partial, files[i]) == (i < k || plan.Holds(objects, files[i]))
            && (plan.Conflict(partial, files[i]) ==> i >= k && plan.Conflict(objects, files[i]))
            && (i >= k && plan.Conflict(objects, files[i]) ==> plan.Conflict(partial, files[i]))
  {
    if i < k {
      AfterHolds(plan, objects, files[..k], i);
    } else {
      var partial := plan.After(objects, files[..k]);
      forall file | file in files[..k] ensures plan.Key(file) != plan.Key(files[i]) {
        KeysDiffer(plan, file, files[i]);
      }
      AfterElsewhere(plan, objects, files[..k], plan.Key(files[i]));
    }
  }

  // ---------- The upload ----------

  /** Some first part of the files has been published, and none of it was in conflict. */
  ghost predicate PartlyPublished(
    plan: Plan, before: map<string, Object>, after: map<string, Object>, files: seq<Entry>, k: nat)
  {
    && k <= |files| && after == plan.After(before, files[..k])
    && forall i :: 0 <= i < k ==> !plan.Conflict(before, files[i])
  }

  lemma PartlyNext(plan: Plan, before: map<string, Object>, now: map<string, Object>, files: seq<Entry>, k: nat)
    requires DistinctNames(files) && k < |files| && PartlyPublished(plan, before, now, files, k)
    ensures plan.Conflict(now, files[k]) == plan.Conflict(before, files[k])
    ensures !plan.Conflict(before, files[k]) ==>
      PartlyPublished(plan, before, plan.After(now, [files[k]]), files, k + 1)
    ensures plan.Rows(before, files[..k + 1]) == plan.Rows(before, files[..k]) + plan.Rows(now, [files[k]])
  {
    NotYet(plan, before, files, k);
    assert files[..k + 1][..k] == files[..k] && [files[k]][..0] == [];
  }

  /** A run that stopped after `k` files, and the run that completes it. */
  lemma {:induction false} ResumedRun(
      plan: Plan, first: map<string, Object>, stopped: map<string, Object>, last: map<string, Object>,
      files: seq<Entry>, k: nat)
    requires DistinctNames(files)
    requires PartlyPublished(plan, first, stopped, files, k)
    requires PartlyPublished(plan, stopped, last, files, |files|)
    ensures last == plan.After(first, files)
    ensures forall i :: 0 <= i < k ==> !plan.Rows(stopped, files)[i].uploaded
    ensures forall i :: k <= i < |files| ==> plan.Rows(stopped, files)[i] == plan.Rows(first, files)[i]
  {
    assert files[..|files|] == files;
    Resumed(plan, first, files, k);
    forall i | 0 <= i < |files| ensures plan.Holds(stopped, files[i]) == (i < k || plan.Holds(first, files[i])) {
      ResumedRows(plan, first, files, k, i);
    }
  }

  ghost predicate Publishable(plan: Plan, bucket: Option<map<string, Object>>, entries: seq<Entry>) {
    && Collectable(entries) && (bucket.Some? || plan.createBucket)
    && forall file :: file in Regulars(entries) ==> !plan.Conflict(Objects(bucket), file)
  }

  // ---------- In terms of files and objects ----------

  /** The object holds this file: its bytes, their digest, its content type and the labels of the release. */
  predicate IsUpload(plan: Plan, file: Entry, item: Object) {
    && item.body == file.bytes && item.sha256 == Some(plan.digest(file.bytes))
    && item.contentType == plan.contentType(file.relative) && item.labels == plan.labels
  }

  /** The object has the digest and the size of this file, whoever uploaded it. */
  predicate Resembles(plan: Plan, file: Entry, item: Object) {
    item.sha256 == Some(plan.digest(file.bytes)) && |item.body| == |file.bytes|
  }

  /** The row tells of this file, and what it tells is true: the object is new, or was there and looks the same. */
  ghost predicate Tells(
    plan: Plan, before: map<string, Object>, after: map<string, Object>, file: Entry, row: Row)
  {
    && file.kind.Regular? && row.key == plan.prefix + "/" + file.relative
    && row.sha256 == plan.digest(file.bytes) && row.size == |file.bytes| && row.key in after
    && (row.uploaded <==> !(row.key in before && Resembles(plan, file, before[row.key])))
    && (if row.uploaded then IsUpload(plan, file, after[row.key]) else after[row.key] == before[row.key])
  }

  /** One true row for every regular file, in the order of the entries. */
  ghost predicate Reported(
    plan: Plan, before: map<string, Object>, after: map<string, Object>, entries: seq<Entry>, rows: seq<Row>)
  {
    exists places: seq<nat> ::
      && |places| == |rows| && (forall i :: 0 <= i < |rows| ==> places[i] < |entries|)
      && (forall i :: 0 <= i < |rows| ==> Tells(plan, before, after, entries[places[i]], rows[i]))
      && (forall i, j :: 0 <= i < j < |rows| ==> places[i] < places[j])
      && forall e :: 0 <= e < |entries| && entries[e].kind.Regular? ==> e in places
  }

  /** Every object is as before or holds a regular file under its key. */
  ghost predicate OnlyFilesAreNew(
    plan: Plan, before: map<string, Object>, after: map<string, Object>, entries: seq<Entry>)
  {
    && (forall key :: key in before ==> key in after)
    && forall key :: key in after && !(key in before && after[key] == before[key]) ==>
      exists file :: file in entries && file.kind.Regular? && key == plan.prefix + "/" + file.relative
                     && IsUpload(plan, file, after[key])
  }

  /** Where the regular files are among the entries. */
  ghost function Places(entries: seq<Entry>): seq<nat> {
    if entries == [] then []
    else
      var n := |entries| - 1;
      Places(entries[..n]) + if entries[n].kind.Regular? then [n] else []
  }

  lemma {:induction false} PlacesPoint(entries: seq<Entry>)
    ensures |Places(entries)| == |Regulars(entries)|
    ensures forall i :: 0 <= i < |Places(entries)| ==>
      Places(entries)[i] < |entries| && entries[Places(entries)[i]] == Regulars(entries)[i]
  {
    if entries != [] {
      var n := |entries| - 1;
      PlacesPoint(entries[..n]);
      forall i | 0 <= i < |Places(entries[..n])|
        ensures entries[Places(entries[..n])[i]] == Regulars(entries[..n])[i]
      {
        assert entries[..n][Places(entries[..n])[i]] == Regulars(entries[..n])[i];
      }
    }
  }

  lemma {:induction false} PlacesRise(entries: seq<Entry>)
    ensures forall i, j :: 0 <= i < j < |Places(entries)| ==> Places(entries)[i] < Places(entries)[j] < |entries|
  {
    PlacesPoint(entries);
    if entries != [] {
      var n := |entries| - 1;
      PlacesRise(entries[..n]);
      PlacesPoint(entries[..n]);
    }
  }

  lemma {:induction false} PlacesCover(entries: seq<Entry>, e: nat)
    requires e < |entries| && entries[e].kind.Regular?
    ensures e in Places(entries)
  {
    if e < |entries| - 1 {
      PlacesCover(entries[..|entries| - 1], e);
    }
  }

  lemma {:induction false} SuccessIsReported(
      plan: Plan, before: map<string, Object>, after: map<string, Object>, entries: seq<Entry>)
    requires DistinctNames(Regulars(entries)) && after == plan.After(before, Regulars(entries))
    ensures Reported(plan, before, after, entries, plan.Rows(before, Regulars(entries)))
  {
    var (files, places) := (Regulars(entries), Places(entries));
    var rows := plan.Rows(before, files);
    PlacesPoint(entries);
    PlacesRise(entries);
    forall e | 0 <= e < |entries| && entries[e].kind.Regular? ensures e in places {
      PlacesCover(entries, e);
    }
    forall i | 0 <= i < |rows| ensures Tells(plan, before, after, entries[places[i]], rows[i]) {
      assert files[i] in files;
      AfterHolds(plan, before, files, i);
    }
  }

  lemma {:induction false} PublishedAreFiles(
      plan: Plan, before: map<string, Object>, entries: seq<Entry>, files: seq<Entry>)
    requires forall file :: file in files ==> file in entries && file.kind.Regular?
    ensures OnlyFilesAreNew(plan, before, plan.After(before, files), entries)
  {
    if files != [] {
      var n := |files| - 1;
      PublishedAreFiles(plan, before, entries, files[..n]);
      assert files[n] in entries && IsUpload(plan, files[n], plan.ObjectFor(files[n]));
    }
  }

  /** Without a failure, it is links, special files, a missing bucket or differing objects that stop a publication. */
  lemma {:induction false} PublishableExactly(plan: Plan, bucket: Option<map<string, Object>>, entries: seq<Entry>)
    ensures Publishable(plan, bucket, entries) <==>
      && (exists entry :: entry in entries && entry.kind.Regular?)
      && (forall entry :: entry in entries ==> entry.kind.Regular? || entry.kind.Directory?)
      && (bucket.Some? || plan.createBucket)
      && (plan.overwrite || bucket.None? || forall entry :: entry in entries && entry.kind.Regular? ==>
            var key := plan.prefix + "/" + entry.relative;
            key in bucket.value ==> Resembles(plan, entry, bucket.value[key]))
  {
    forall file | file in Regulars(entries) && bucket.Some?
      ensures plan.Conflict(bucket.value, file) <==>
        var key := plan.prefix + "/" + file.relative;
        !plan.overwrite && key in bucket.value && !Resembles(plan, file, bucket.value[key])
    {
    }
  }

  function Objects(bucket: Option<map<string, Object>>): map<string, Object> {
    if bucket.Some? then bucket.value else map[]
  }

  function Metadata(objects: map<string, Object>, key: string): Option<ObjectMetadata> {
    if key in objects then Some(ObjectMetadata(|objects[key].body|, objects[key].sha256)) else None
  }

  class ObjectStore {
    const machine: Machine
    var bucket: Option<map<string, Object>>

    constructor (machine: Machine)
      ensures this.machine == machine && bucket == None
    {
      this.machine := machine;
      bucket := None;
    }

    method BucketExists() returns (r: Result<bool>)
      modifies machine
      ensures machine.failures == old(machine.failures) + if r.Ok? then 0 else 1
      ensures r.Ok? ==> r.value == bucket.Some?
    {
      var answered := machine.Attempt();
      r := if answered then Ok(bucket.Some?) else Err;
    }

    /** A creation may be reported and not become visible, or become visible and not be reported. */
    method CreateBucket() returns (reported: bool)
      requires bucket.None?
      modifies this, machine
      ensures machine.failures >= old(machine.failures)
      ensures bucket == None || bucket == Some(map[])
      ensures machine.failures == old(machine.failures) ==> reported && bucket == Some(map[])
    {
      reported := machine.Attempt();
      var visible: bool, said: bool := *, *;
      if reported || visible {
        bucket := Some(map[]);
      }
      reported := reported || said;
    }

    method HeadObject(key: string) returns (r: Result<Option<ObjectMetadata>>)
      requires bucket.Some?
      modifies machine
      ensures machine.failures == old(machine.failures) + if r.Ok? then 0 else 1
      ensures r.Ok? ==> r.value == Metadata(bucket.value, key)
    {
      var answered := machine.Attempt();
      r := if answered then Ok(Metadata(bucket.value, key)) else Err;
    }

    /** An upload that is reported as failed may have arrived. */
    method PutObject(key: string, item: Object) returns (done: bool)
      requires bucket.Some?
      modifies this, machine
      ensures machine.failures == old(machine.failures) + if done then 0 else 1
      ensures bucket == old(bucket) || bucket == Some(old(bucket.value)[key := item])
      ensures done ==> bucket == Some(old(bucket.value)[key := item])
    {
      done := machine.Attempt();
      var arrived: bool := *;
      if done || arrived {
        bucket := Some(bucket.value[key := item]);
      }
    }

    /** One turn of the loop: a file that is there is left alone, a different one is not replaced unasked. */
    method PublishFile(plan: Plan, file: Entry) returns (r: Result<Row>)
      requires bucket.Some?
      modifies this, machine
      ensures machine.failures >= old(machine.failures)
      ensures bucket == old(bucket) || (bucket.Some? && bucket.value == plan.After(old(bucket.value), [file]))
      ensures plan.Conflict(old(bucket.value), file) ==> r.Err? && bucket == old(bucket)
      ensures r.Ok? ==>
        && bucket == Some(plan.After(old(bucket.value), [file])) && plan.Holds(bucket.value, file)
        && r.value == plan.Rows(old(bucket.value), [file])[0]
      ensures r.Err? && machine.failures == old(machine.failures) ==> plan.Conflict(old(bucket.value), file)
    {
      var (key, digest, size) := (plan.Key(file), plan.digest(file.bytes), |file.bytes|);
      assert [file][..0] == [];
      var existing := HeadObject(key);
      if existing.Err? {
        return Err;
      }
      if existing.value.Some? {
        if existing.value.value.sha256 == Some(digest) && existing.value.value.contentLength == size {
          return Ok(Row(key, digest, size, false));
        }
        if !plan.overwrite {
          return Err;
        }
      }
      var done := PutObject(key, plan.ObjectFor(file));
      if !done {
        return Err;
      }
      var verified := HeadObject(key);
      if verified.Err? {
        return Err;
      }
      if verified.value != Some(ObjectMetadata(size, Some(digest))) {
        return Err;
      }
      return Ok(Row(key, digest, size, true));
    }

    method PublishFiles(plan: Plan, files: seq<Entry>) returns (r: Result<seq<Row>>, ghost k: nat)
      requires bucket.Some? && DistinctNames(files)
      modifies this, machine
      ensures machine.failures >= old(machine.failures)
      ensures bucket.Some? && PartlyPublished(plan, old(bucket.value), bucket.value, files, k)
      ensures r.Ok? ==> k == |files| && r.value == plan.Rows(old(bucket.value), files)
      ensures r.Err? && machine.failures == old(machine.failures) ==>
        k < |files| && plan.Conflict(old(bucket.value), files[k])
    {
      var results: seq<Row> := [];
      k := 0;
      for i := 0 to |files|
        invariant machine.failures >= old(machine.failures)
        invariant bucket.Some? && PartlyPublished(plan, old(bucket.value), bucket.value, files, i)
        invariant results == plan.Rows(old(bucket.value), files[..i])
      {
        ghost var before := bucket.value;
        var row := PublishFile(plan, files[i]);
        PartlyNext(plan, old(bucket.value), before, files, i);
        if row.Err? {
          k := if bucket.value == before then i else i + 1;
          return Err, k;
        }
        results := results + [row.value];
      }
      assert files[..|files|] == files;
      r, k := Ok(results), |files|;
    }

    /**
     Whatever fails, the bucket holds what it held and a first part of the files; without permission to
     overwrite no object changes. On success every file is there, with one row each, in file order.
     */
    method PublishDirectory(plan: Plan, entries: seq<Entry>) returns (r: Result<seq<Row>>, ghost k: nat)
      requires DistinctNames(entries)
      modifies this, machine
      ensures PartlyPublished(plan, Objects(old(bucket)), Objects(bucket), Regulars(entries), k)
      ensures old(bucket).Some? ==> bucket.Some?
      ensures !plan.overwrite ==> forall key :: key in Objects(old(bucket)) ==>
        key in Objects(bucket) && Objects(bucket)[key] == Objects(old(bucket))[key]
      ensures r.Ok? ==>
        && k == |Regulars(entries)| && r.value == plan.Rows(Objects(old(bucket)), Regulars(entries))
        && forall file :: file in Regulars(entries) ==> plan.Holds(Objects(bucket), file)
      ensures r.Ok? ==> Reported(plan, Objects(old(bucket)), Objects(bucket), entries, r.value)
      ensures OnlyFilesAreNew(plan, Objects(old(bucket)), Objects(bucket), entries)
      ensures machine.failures == old(machine.failures) ==> (r.Ok? <==> Publishable(plan, old(bucket), entries))
    {
      k := 0;
      assert Regulars(entries)[..0] == [];
      var files := CollectFiles(entries);
      if files.Err? {
        return Err, 0;
      }
      var present := BucketExists();
      if present.Err? {
        return Err, 0;
      }
      if !present.value {
        if !plan.createBucket {
          return Err, 0;
        }
        var reported := CreateBucket();
        if !reported {
          return Err, 0;
        }
        present := BucketExists();
        if present != Ok(true) {
          return Err, 0;
        }
      }
      RegularsAreDistinct(entries);
      ghost var before := bucket.value;
      r, k := PublishFiles(plan, files.value);
      ghost var published := files.value[..k];
      forall key | !plan.overwrite && key in before ensures key in bucket.value && bucket.value[key] == before[key] {
        AfterKeeps(plan, before, published, key);
      }
      PublishedAreFiles(plan, before, entries, published);
      if r.Ok? {
        assert published == files.value;
        SuccessIsReported(plan, before, bucket.value, entries);
        forall i | 0 <= i < k ensures plan.Holds(bucket.value, files.value[i]) {
          AfterHolds(plan, before, files.value, i);
        }
      }
    }
  }
}
