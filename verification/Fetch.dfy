/** Exporting the frozen dependency graph of a lock file as one bundle. */
module Fetch {
  import opened Wrappers
  import opened Faults
  import opened Strings

  datatype LockedPackage = LockedPackage(
    org: string, name: string, version: string, sha256: string, size: nat, format: string,
    vcsTag: Option<string>, vcsCommit: Option<string>, source: string, mirrors: seq<string>)
  {
    function Identity(): (string, string) {
      (org, name)
    }
  }

  datatype Metadata = Metadata(
    org: string, name: string, version: string, sha256: string, size: nat, format: string,
    vcsTag: Option<string>, vcsCommit: Option<string>)

  type Tree = map<string, string>

  /** Checks and services whose bodies are not part of this model. */
  datatype Services = Services(
    isSlug: string -> bool, isSha256: string -> bool, validSource: string -> bool,
    missingLocal: string -> bool, configured: string, mirrorsAllowed: bool,
    opens: string -> bool, record: (string, LockedPackage) -> Result<Metadata>,
    artifact: (string, Metadata) -> Result<Tree>, content: string -> Tree, sourceKind: string -> string)
  {
    /** The store only takes an artifact with the digest asked for, which determines its tree. */
    ghost predicate Valid() {
      forall source, m :: artifact(source, m).Ok? ==> artifact(source, m).value == content(m.sha256)
    }
  }

  // ---------- Order ----------

  /** Fields in order of weight. */
  predicate Precedes(x: seq<string>, y: seq<string>)
    requires |x| == |y|
  {
    x != [] && (Below(x[0], y[0]) || (x[0] == y[0] && Precedes(x[1..], y[1..])))
  }

  lemma PrecedesIsTotal(x: seq<string>, y: seq<string>)
    requires |x| == |y|
    ensures x == y || Precedes(x, y) || Precedes(y, x)
    ensures !(Precedes(x, y) && Precedes(y, x))
  {
    if x != [] {
      BelowTotal(x[0], y[0]);
      PrecedesIsTotal(x[1..], y[1..]);
      assert x == [x[0]] + x[1..] && y == [y[0]] + y[1..];
    }
  }

  lemma PrecedesIsTransitive(x: seq<string>, y: seq<string>, z: seq<string>)
    requires |x| == |y| == |z| && Precedes(x, y) && Precedes(y, z)
    ensures Precedes(x, z)
  {
    if Below(x[0], y[0]) && Below(y[0], z[0]) {
      BelowTransitive(x[0], y[0], z[0]);
    } else if x[0] == y[0] == z[0] {
      PrecedesIsTransitive(x[1..], y[1..], z[1..]);
    }
  }

  function SortKey(p: LockedPackage): (key: seq<string>)
    ensures |key| == 4
  {
    [p.org, p.name, p.version, p.sha256]
  }

  function IdentityKey(p: LockedPackage): (key: seq<string>)
    ensures |key| == 2
  {
    [p.org, p.name]
  }

  ghost predicate Sorted(packages: seq<LockedPackage>) {
    forall i, j :: 0 <= i < j < |packages| ==> !Precedes(SortKey(packages[j]), SortKey(packages[i]))
  }

  /** Strictly increasing by organization and name. */
  ghost predicate Ascending(packages: seq<LockedPackage>) {
    forall i, j :: 0 <= i < j < |packages| ==> Precedes(IdentityKey(packages[i]), IdentityKey(packages[j]))
  }

  function Insert(p: LockedPackage, packages: seq<LockedPackage>): (r: seq<LockedPackage>)
    ensures multiset(r) == multiset(packages) + multiset{p}
  {
    if packages == [] then [p]
    else if Precedes(SortKey(packages[0]), SortKey(p)) then
      assert packages == [packages[0]] + packages[1..];
      [packages[0]] + Insert(p, packages[1..])
    else [p] + packages
  }

  lemma {:induction false} InsertKeepsSorted(p: LockedPackage, packages: seq<LockedPackage>)
    requires Sorted(packages)
    ensures Sorted(Insert(p, packages))
  {
    if packages != [] {
      var head := packages[0];
      PrecedesIsTotal(SortKey(head), SortKey(p));
      if Precedes(SortKey(head), SortKey(p)) {
        var rest := Insert(p, packages[1..]);
        InsertKeepsSorted(p, packages[1..]);
        forall j | 0 <= j < |rest| ensures !Precedes(SortKey(rest[j]), SortKey(head)) {
          assert rest[j] in multiset(rest);
          assert rest[j] == p || rest[j] in packages[1..];
        }
      } else {
        forall j | 0 <= j < |packages| ensures !Precedes(SortKey(packages[j]), SortKey(p)) {
          NotBefore(SortKey(p), SortKey(head), SortKey(packages[j]));
        }
      }
    }
  }

  lemma NotBefore(x: seq<string>, y: seq<string>, z: seq<string>)
    requires |x| == |y| == |z| && !Precedes(y, x) && (z == y || !Precedes(z, y))
    ensures !Precedes(z, x)
  {
    PrecedesIsTotal(x, y);
    PrecedesIsTotal(y, z);
    if Precedes(z, x) && Precedes(y, z) {
      PrecedesIsTransitive(y, z, x);
    }
  }

  method SortPackages(packages: seq<LockedPackage>) returns (r: seq<LockedPackage>)
    ensures Sorted(r) && multiset(r) == multiset(packages)
  {
    r := [];
    for i := 0 to |packages|
      invariant Sorted(r) && multiset(r) == multiset(packages[..i])
    {
      InsertKeepsSorted(packages[i], r);
      assert packages[..i + 1] == packages[..i] + [packages[i]];
      r := Insert(packages[i], r);
    }
    assert packages[..|packages|] == packages;
  }

  // ---------- Validation ----------

  function TrimSlashes(s: string): string {
    if s != "" && s[|s| - 1] == '/' then TrimSlashes(s[..|s| - 1]) else s
  }

  function EffectiveSource(services: Services, p: LockedPackage): string {
    TrimSlashes(if Trim(p.source) == "" then services.configured else Trim(p.source))
  }

  predicate WellFormed(services: Services, p: LockedPackage) {
    && services.isSlug(p.org) && services.isSlug(p.name) && services.isSha256(p.sha256)
    && Trim(p.version) != "" && services.validSource(EffectiveSource(services, p))
  }

  /** Every entry is well formed and no identity occurs twice. */
  ghost predicate Unambiguous(services: Services, packages: seq<LockedPackage>) {
    && (forall p :: p in packages ==> WellFormed(services, p))
    && forall i, j :: 0 <= i < j < |packages| ==> packages[i].Identity() != packages[j].Identity()
  }

  method ValidateLockedPackages(services: Services, lock: seq<LockedPackage>)
    returns (r: Result<seq<LockedPackage>>)
    ensures r.Ok? <==> Unambiguous(services, lock)
    ensures r.Ok? ==> Ascending(r.value) && multiset(r.value) == multiset(lock)
  {
    var packages := SortPackages(lock);
    SamePackages(services, packages, lock);
    var identities: set<(string, string)> := {};
    for i := 0 to |packages|
      invariant Checked(services, packages, i, identities)
    {
      if !WellFormed(services, packages[i]) || packages[i].Identity() in identities {
        CheckedStops(services, packages, i, identities);
        return Err;
      }
      CheckedNext(services, packages, i, identities);
      identities := identities + {packages[i].Identity()};
    }
    SortedIsAscending(packages);
    r := Ok(packages);
  }

  /** The first `n` entries have been checked and their identities collected. */
  ghost predicate Checked(
    services: Services, packages: seq<LockedPackage>, n: nat, identities: set<(string, string)>)
  {
    && n <= |packages|
    && (forall i :: 0 <= i < n ==> WellFormed(services, packages[i]) && packages[i].Identity() in identities)
    && (forall identity :: identity in identities ==> exists i :: 0 <= i < n && packages[i].Identity() == identity)
    && forall i, j :: 0 <= i < j < n ==> packages[i].Identity() != packages[j].Identity()
  }

  lemma CheckedNext(
      services: Services, packages: seq<LockedPackage>, n: nat, identities: set<(string, string)>)
    requires Checked(services, packages, n, identities) && n < |packages|
    requires WellFormed(services, packages[n]) && packages[n].Identity() !in identities
    ensures Checked(services, packages, n + 1, identities + {packages[n].Identity()})
  {
    var next := identities + {packages[n].Identity()};
    forall identity | identity in next
      ensures exists i :: 0 <= i < n + 1 && packages[i].Identity() == identity
    {
      if identity !in identities {
        assert packages[n].Identity() == identity;
      }
    }
    forall i, j | 0 <= i < j < n + 1 ensures packages[i].Identity() != packages[j].Identity() {
      assert packages[i].Identity() in identities;
    }
  }

  lemma CheckedStops(
      services: Services, packages: seq<LockedPackage>, n: nat, identities: set<(string, string)>)
    requires Checked(services, packages, n, identities) && n < |packages|
    requires !WellFormed(services, packages[n]) || packages[n].Identity() in identities
    ensures !Unambiguous(services, packages)
  {
  }

  lemma SortedIsAscending(packages: seq<LockedPackage>)
    requires Sorted(packages)
    requires forall i, j :: 0 <= i < j < |packages| ==> packages[i].Identity() != packages[j].Identity()
    ensures Ascending(packages)
  {
    forall i, j | 0 <= i < j < |packages|
      ensures Precedes(IdentityKey(packages[i]), IdentityKey(packages[j]))
    {
      var (x, y) := (packages[i], packages[j]);
      PrecedesIsTotal(SortKey(x), SortKey(y));
      BelowTotal(x.org, y.org);
      BelowTotal(x.name, y.name);
      assert SortKey(x)[1..][0] == x.name && SortKey(y)[1..][0] == y.name;
      assert IdentityKey(x)[1..][0] == x.name && IdentityKey(y)[1..][0] == y.name;
    }
  }

  lemma {:induction false} CountTwo(packages: seq<LockedPackage>, p: LockedPackage)
    ensures multiset(packages)[p] >= 2 <==> exists i, j :: 0 <= i < j < |packages| && packages[i] == packages[j] == p
  {
    if packages != [] {
      var (front, last) := (packages[..|packages| - 1], packages[|packages| - 1]);
      CountTwo(front, p);
      assert packages == front + [last];
      if last == p && multiset(front)[p] >= 1 {
        assert p in multiset(front);
        var i :| 0 <= i < |front| && front[i] == p;
        assert packages[i] == packages[|front|] == p;
      }
    }
  }

  /** Whether a lock is accepted does not depend on the order of its entries. */
  lemma SamePackages(services: Services, a: seq<LockedPackage>, b: seq<LockedPackage>)
    requires multiset(a) == multiset(b)
    ensures Unambiguous(services, a) <==> Unambiguous(services, b)
  {
    if Unambiguous(services, a) {
      StillUnambiguous(services, a, b);
    }
    if Unambiguous(services, b) {
      StillUnambiguous(services, b, a);
    }
  }

  lemma StillUnambiguous(services: Services, a: seq<LockedPackage>, b: seq<LockedPackage>)
    requires multiset(a) == multiset(b) && Unambiguous(services, a)
    ensures Unambiguous(services, b)
  {
    forall p | p in b ensures WellFormed(services, p) {
      assert p in multiset(b);
      assert p in a;
    }
    forall i, j | 0 <= i < j < |b| ensures b[i].Identity() != b[j].Identity() {
      assert b[i] in multiset(b) && b[j] in multiset(b);
      var k :| 0 <= k < |a| && a[k] == b[i];
      var l :| 0 <= l < |a| && a[l] == b[j];
      CountTwo(a, b[i]);
      CountTwo(b, b[i]);
      assert multiset(b)[b[i]] < 2;
      assert b[i] != b[j];
    }
  }

  /** The accepted list is the only one there is: it does not depend on that order either. */
  lemma {:induction false} OneOrder(a: seq<LockedPackage>, b: seq<LockedPackage>)
    requires Ascending(a) && Ascending(b) && multiset(a) == multiset(b)
    ensures a == b
  {
    if a == [] {
      assert |multiset(b)| == 0;
    } else {
      assert |multiset(a)| == |multiset(b)| == |b|;
      SmallestFirst(a, b);
      assert a == [a[0]] + a[1..] && b == [b[0]] + b[1..];
      assert multiset(a[1..]) == multiset(a) - multiset{a[0]};
      assert multiset(b[1..]) == multiset(b) - multiset{b[0]};
      OneOrder(a[1..], b[1..]);
    }
  }

  lemma SmallestFirst(a: seq<LockedPackage>, b: seq<LockedPackage>)
    requires Ascending(a) && Ascending(b) && multiset(a) == multiset(b) && a != [] && b != []
    ensures a[0] == b[0]
  {
    assert a[0] in multiset(b) && b[0] in multiset(a);
    var i :| 0 <= i < |b| && b[i] == a[0];
    var j :| 0 <= j < |a| && a[j] == b[0];
    PrecedesIsTotal(IdentityKey(a[0]), IdentityKey(b[0]));
  }

  // ---------- Export ----------

  datatype FetchedPackage = FetchedPackage(pinned: Metadata, sourceKind: string)

  datatype Bundle = Bundle(packages: map<string, Tree>, index: seq<FetchedPackage>)

  /** The record a lock entry pins. */
  function MetadataFromLock(p: LockedPackage): Metadata {
    Metadata(p.org, p.name, p.version, p.sha256, p.size, p.format, p.vcsTag, p.vcsCommit)
  }

  predicate SameRecord(services: Services, p: LockedPackage, m: Metadata) {
    && m.org == p.org && m.name == p.name && m.version == p.version
    && services.isSha256(m.sha256) && m.sha256 == p.sha256
    && m.size == p.size && m.format == p.format && m.vcsTag == p.vcsTag && m.vcsCommit == p.vcsCommit
  }

  function SourceOf(services: Services, p: LockedPackage): string {
    var (locked, configured) := (EffectiveSource(services, p), TrimSlashes(services.configured));
    if locked != configured && services.missingLocal(locked) then configured else locked
  }

  /** The registry confirms the entry, or cannot answer while the entry names mirrors that may be used. */
  predicate Confirmed(services: Services, p: LockedPackage) {
    var source := SourceOf(services, p);
    && services.opens(source)
    && match services.record(source, p)
       case Ok(m) => SameRecord(services, p, m)
       case Err => p.mirrors != [] && services.mirrorsAllowed
  }

  predicate Downloads(services: Services, p: LockedPackage) {
    services.artifact(SourceOf(services, p), MetadataFromLock(p)).Ok?
  }

  /** Entry `i` can be exported: it is confirmed, and downloads unless an earlier one brought its artifact. */
  ghost predicate Exportable(services: Services, packages: seq<LockedPackage>, i: nat)
    requires i < |packages|
  {
    && Confirmed(services, packages[i])
    && (Downloads(services, packages[i]) || exists j :: 0 <= j < i && packages[j].sha256 == packages[i].sha256)
  }

  /** Payloads and rows for the first `n` entries, in order. */
  ghost predicate Exported(services: Services, packages: seq<LockedPackage>, bundle: Bundle, n: nat) {
    && n <= |packages| && |bundle.index| == n
    && (forall i :: 0 <= i < n ==>
          && bundle.index[i] == FetchedPackage(
               MetadataFromLock(packages[i]), services.sourceKind(SourceOf(services, packages[i])))
          && packages[i].sha256 in bundle.packages)
    && forall sha256 :: sha256 in bundle.packages ==>
         && bundle.packages[sha256] == services.content(sha256)
         && exists i :: 0 <= i < n && packages[i].sha256 == sha256
  }

  // ---------- In terms of entries and sources ----------

  /** A registry address without blanks around it or slashes at its end. */
  predicate Tidy(source: string) {
    Tight(source) && source[|source| - 1] != '/'
  }

  /**
   An entry is read from the registry it is locked to, or from the configured one if it names none or names a local
   one that is not there.
   */
  lemma {:induction false} SourceIs(services: Services, p: LockedPackage, source: string)
    requires Tidy(source) && Tidy(services.configured)
    requires p.source in {source, source + "/", source + "/" + "/", " " + source}
    ensures SourceOf(services, p) ==
      if services.missingLocal(source) && source != services.configured then services.configured else source
    ensures SourceOf(services, p.(source := "")) == services.configured
  {
    Untouched(source);
    Untouched(services.configured);
    assert (source + "/")[..|source|] == source && Tight(source + "/");
    TrimTight(source + "/");
    TrimTight(source);
    assert " " + source == Spaces(1) + source;
    TrimIndented(1, source);
    var twice := source + "/" + "/";
    assert twice[..|twice| - 1] == source + "/" && Tight(twice);
    TrimTight(twice);
    assert TrimSlashes(twice) == source && TrimSlashes(source + "/") == source;
  }

  lemma {:induction false} Untouched(source: string)
    requires Tidy(source)
    ensures TrimSlashes(source) == source && TrimSlashes(source + "/") == source
  {
    assert (source + "/")[..|source|] == source;
  }

  /** The registry's record agrees with the lock entry in every field. */
  predicate Agrees(services: Services, p: LockedPackage, m: Metadata) {
    && m == Metadata(p.org, p.name, p.version, p.sha256, p.size, p.format, p.vcsTag, p.vcsCommit)
    && services.isSha256(p.sha256)
  }

  /** What it takes to export an entry: a record that agrees, or mirrors instead of an answer, and its artifact. */
  lemma {:induction false} ExportableExactly(services: Services, packages: seq<LockedPackage>, i: nat)
    requires i < |packages|
    ensures var (p, source) := (packages[i], SourceOf(services, packages[i]));
      Exportable(services, packages, i) <==>
        && services.opens(source)
        && (if services.record(source, p).Ok? then Agrees(services, p, services.record(source, p).value)
            else p.mirrors != [] && services.mirrorsAllowed)
        && ((exists j :: 0 <= j < i && packages[j].sha256 == p.sha256)
            || services.artifact(
                 source, Metadata(p.org, p.name, p.version, p.sha256, p.size, p.format, p.vcsTag, p.vcsCommit)).Ok?)
  {
  }

  /** A row with what this entry pins. */
  ghost predicate HasRow(services: Services, index: seq<FetchedPackage>, p: LockedPackage) {
    exists i :: 0 <= i < |index| && index[i] == FetchedPackage(
      Metadata(p.org, p.name, p.version, p.sha256, p.size, p.format, p.vcsTag, p.vcsCommit),
      services.sourceKind(SourceOf(services, p)))
  }

  predicate NamedBefore(x: Metadata, y: Metadata) {
    Below(x.org, y.org) || (x.org == y.org && Below(x.name, y.name))
  }

  /** Every entry has its row and its payload; the rows are ordered, and there is nothing else. */
  ghost predicate Complete(services: Services, lock: seq<LockedPackage>, bundle: Bundle) {
    && |bundle.index| == |lock|
    && (forall p :: p in lock ==>
          && HasRow(services, bundle.index, p)
          && p.sha256 in bundle.packages && bundle.packages[p.sha256] == services.content(p.sha256))
    && (forall sha256 :: sha256 in bundle.packages ==> exists p :: p in lock && p.sha256 == sha256)
    && forall i, j :: 0 <= i < j < |bundle.index| ==> NamedBefore(bundle.index[i].pinned, bundle.index[j].pinned)
  }

  lemma {:induction false} ExportedIsComplete(
      services: Services, lock: seq<LockedPackage>, packages: seq<LockedPackage>, bundle: Bundle)
    requires multiset(packages) == multiset(lock) && Ascending(packages)
    requires Exported(services, packages, bundle, |packages|)
    ensures Complete(services, lock, bundle)
  {
    assert |packages| == |multiset(packages)| == |multiset(lock)| == |lock|;
    forall p | p in lock
      ensures p in packages && HasRow(services, bundle.index, p) && p.sha256 in bundle.packages
    {
      assert p in multiset(packages);
      RowOf(services, packages, bundle, p);
    }
    forall sha256 | sha256 in bundle.packages ensures exists p :: p in lock && p.sha256 == sha256 {
      var i :| 0 <= i < |packages| && packages[i].sha256 == sha256;
      assert packages[i] in multiset(lock);
    }
    RowsAreOrdered(services, packages, bundle);
  }

  lemma {:induction false} RowOf(
      services: Services, packages: seq<LockedPackage>, bundle: Bundle, p: LockedPackage)
    requires Exported(services, packages, bundle, |packages|) && p in packages
    ensures HasRow(services, bundle.index, p) && p.sha256 in bundle.packages
  {
    var i :| 0 <= i < |packages| && packages[i] == p;
    assert bundle.index[i].pinned == MetadataFromLock(p);
  }

  lemma {:induction false} RowsAreOrdered(services: Services, packages: seq<LockedPackage>, bundle: Bundle)
    requires Exported(services, packages, bundle, |packages|) && Ascending(packages)
    ensures forall i, j :: 0 <= i < j < |bundle.index| ==> NamedBefore(bundle.index[i].pinned, bundle.index[j].pinned)
  {
    forall i, j | 0 <= i < j < |bundle.index| ensures NamedBefore(bundle.index[i].pinned, bundle.index[j].pinned) {
      IdentityBefore(packages[i], packages[j]);
      assert bundle.index[i].pinned == MetadataFromLock(packages[i]);
      assert bundle.index[j].pinned == MetadataFromLock(packages[j]);
    }
  }

  lemma {:induction false} IdentityBefore(x: LockedPackage, y: LockedPackage)
    ensures Precedes(IdentityKey(x), IdentityKey(y)) <==>
      Below(x.org, y.org) || (x.org == y.org && Below(x.name, y.name))
  {
    assert IdentityKey(x)[1..] == [x.name] && IdentityKey(y)[1..] == [y.name];
    assert Precedes([x.name], [y.name]) <==> Below(x.name, y.name) by {
      assert [x.name][1..] == [] && [y.name][1..] == [];
    }
  }

  /** Entries of one package are ordered by version and then by digest. */
  lemma {:induction false} TiesAreOrdered(packages: seq<LockedPackage>, i: nat, j: nat)
    requires Sorted(packages) && i < j < |packages|
    requires packages[i].org == packages[j].org && packages[i].name == packages[j].name
    ensures !Below(packages[j].version, packages[i].version)
    ensures packages[i].version == packages[j].version ==> !Below(packages[j].sha256, packages[i].sha256)
  {
    var (x, y) := (packages[i], packages[j]);
    assert !Precedes(SortKey(y), SortKey(x));
    SameHead(y.org, [y.name, y.version, y.sha256], [x.name, x.version, x.sha256]);
    SameHead(y.name, [y.version, y.sha256], [x.version, x.sha256]);
    FirstTwo(y.version, y.sha256, x.version, x.sha256);
    assert SortKey(y) == [y.org] + [y.name, y.version, y.sha256];
    assert SortKey(x) == [y.org] + [x.name, x.version, x.sha256];
    assert [y.name] + [y.version, y.sha256] == [y.name, y.version, y.sha256];
    assert [y.name] + [x.version, x.sha256] == [x.name, x.version, x.sha256];
  }

  lemma {:induction false} SameHead(head: string, x: seq<string>, y: seq<string>)
    requires |x| == |y|
    ensures Precedes([head] + x, [head] + y) <==> Precedes(x, y)
  {
    BelowTotal(head, head);
    assert ([head] + x)[1..] == x && ([head] + y)[1..] == y;
  }

  lemma {:induction false} FirstTwo(a: string, b: string, c: string, d: string)
    ensures Precedes([a, b], [c, d]) <==> Below(a, c) || (a == c && Below(b, d))
  {
    assert [a, b][1..] == [b] && [c, d][1..] == [d];
    assert Precedes([b], [d]) <==> Below(b, d) by {
      assert [b][1..] == [] && [d][1..] == [];
    }
  }

  /** What a lock is accepted for: valid names and digests, versions, sources, and no package twice. */
  lemma {:induction false} UnambiguousExactly(services: Services, lock: seq<LockedPackage>)
    ensures Unambiguous(services, lock) <==>
      && (forall p :: p in lock ==>
            && services.isSlug(p.org) && services.isSlug(p.name) && services.isSha256(p.sha256)
            && (exists c :: c in p.version && !IsSpace(c)) && services.validSource(EffectiveSource(services, p)))
      && forall i, j :: 0 <= i < j < |lock| ==> lock[i].org != lock[j].org || lock[i].name != lock[j].name
  {
    forall p | p in lock ensures Trim(p.version) != "" <==> exists c :: c in p.version && !IsSpace(c) {
      var left, right := TrimExactly(p.version);
      if Trim(p.version) != "" {
        assert Trim(p.version)[0] in p.version;
      }
    }
  }

  method FetchOne(machine: Machine, services: Services, p: LockedPackage, bundle: Bundle) returns (r: Result<Bundle>)
    requires services.Valid()
    requires p.sha256 in bundle.packages ==> bundle.packages[p.sha256] == services.content(p.sha256)
    modifies machine
    ensures machine.failures >= old(machine.failures)
    ensures r.Ok? ==> Confirmed(services, p) && (Downloads(services, p) || p.sha256 in bundle.packages)
    ensures r.Ok? ==> r.value == Bundle(
      bundle.packages[p.sha256 := services.content(p.sha256)],
      bundle.index + [FetchedPackage(MetadataFromLock(p), services.sourceKind(SourceOf(services, p)))])
    ensures r.Err? && machine.failures == old(machine.failures) ==>
      !Confirmed(services, p) || (!Downloads(services, p) && p.sha256 !in bundle.packages)
  {
    var source := SourceOf(services, p);
    if !services.opens(source) {
      return Err;
    }
    var answer := services.record(source, p);
    var metadata;
    if answer.Ok? {
      if !SameRecord(services, p, answer.value) {
        return Err;
      }
      metadata := answer.value;
    } else if p.mirrors != [] && services.mirrorsAllowed {
      metadata := MetadataFromLock(p);
    } else {
      return Err;
    }
    var packages := bundle.packages;
    if metadata.sha256 !in packages {
      var tree := services.artifact(source, metadata);
      if tree.Err? {
        return Err;
      }
      var copied := machine.Attempt();
      if !copied {
        return Err;
      }
      packages := packages[p.sha256 := tree.value];
    }
    r := Ok(Bundle(packages, bundle.index + [FetchedPackage(metadata, services.sourceKind(source))]));
    assert p.sha256 in bundle.packages ==> packages[p.sha256 := services.content(p.sha256)] == packages;
  }

  lemma ExportedNext(
      services: Services, packages: seq<LockedPackage>, bundle: Bundle, next: Bundle, n: nat)
    requires n < |packages| && Exported(services, packages, bundle, n)
    requires var p := packages[n]; next == Bundle(
      bundle.packages[p.sha256 := services.content(p.sha256)],
      bundle.index + [FetchedPackage(MetadataFromLock(p), services.sourceKind(SourceOf(services, p)))])
    ensures Exported(services, packages, next, n + 1)
  {
  }

  lemma ExportedBefore(services: Services, packages: seq<LockedPackage>, bundle: Bundle, n: nat)
    requires n < |packages| && Exported(services, packages, bundle, n)
    ensures Exportable(services, packages, n) <==>
      Confirmed(services, packages[n])
      && (Downloads(services, packages[n]) || packages[n].sha256 in bundle.packages)
    ensures packages[n].sha256 in bundle.packages ==>
      bundle.packages[packages[n].sha256] == services.content(packages[n].sha256)
  {
  }

  method FetchAll(machine: Machine, services: Services, packages: seq<LockedPackage>) returns (r: Result<Bundle>)
    requires services.Valid()
    modifies machine
    ensures machine.failures >= old(machine.failures)
    ensures r.Ok? ==> Exported(services, packages, r.value, |packages|)
    ensures r.Ok? ==> forall i :: 0 <= i < |packages| ==> Exportable(services, packages, i)
    ensures r.Err? && machine.failures == old(machine.failures) ==>
      exists i :: 0 <= i < |packages| && !Exportable(services, packages, i)
  {
    var bundle := Bundle(map[], []);
    for i := 0 to |packages|
      invariant machine.failures >= old(machine.failures)
      invariant Exported(services, packages, bundle, i)
      invariant forall j :: 0 <= j < i ==> Exportable(services, packages, j)
    {
      ExportedBefore(services, packages, bundle, i);
      var next := FetchOne(machine, services, packages[i], bundle);
      if next.Err? {
        return Err;
      }
      ExportedNext(services, packages, bundle, next.value, i);
      bundle := next.value;
    }
    r := Ok(bundle);
  }

  class Disk {
    const machine: Machine
    /** What is at the output path. The project is only read. */
    var output: Option<Bundle>

    constructor (machine: Machine)
      ensures this.machine == machine && output == None
    {
      this.machine := machine;
      output := None;
    }

    /** On every failure the output stays as it was; on success it holds the whole lock, in the one order. */
    method Run(services: Services, lock: seq<LockedPackage>)
      returns (r: Result<nat>, ghost packages: seq<LockedPackage>)
      requires services.Valid()
      modifies this, machine
      ensures r.Err? ==> output == old(output)
      ensures Unambiguous(services, lock) ==> Ascending(packages) && multiset(packages) == multiset(lock)
      ensures r.Ok? ==>
        && Unambiguous(services, lock) && old(output).None? && output.Some?
        && Exported(services, packages, output.value, |packages|) && r.value == |lock|
        && Complete(services, lock, output.value)
      ensures machine.failures == old(machine.failures) ==> (r.Ok? <==>
        && Unambiguous(services, lock) && old(output).None?
        && forall i :: 0 <= i < |packages| ==> Exportable(services, packages, i))
    {
      packages := [];
      var validated := ValidateLockedPackages(services, lock);
      if validated.Err? {
        return Err, [];
      }
      packages := validated.value;
      assert |packages| == |multiset(packages)| == |multiset(lock)| == |lock|;
      if output.Some? {
        return Err, packages;
      }
      var bundle := FetchAll(machine, services, validated.value);
      if bundle.Err? {
        return Err, packages;
      }
      var renamed := machine.Attempt();
      if !renamed {
        return Err, packages;
      }
      ExportedIsComplete(services, lock, packages, bundle.value);
      output := Some(bundle.value);
      r := Ok(|validated.value|);
    }
  }
}
