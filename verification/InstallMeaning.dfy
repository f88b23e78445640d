/** What an answer of the install resolver is, in terms of the project, the registry and the workspace only. */
module InstallMeaning {
  import opened Wrappers
  import opened Enumerations
  import opened Strings
  import opened InstallSolver

  /** A published version that was not withdrawn, with what its release brings. */
  predicate Published(p: Problem, key: string, pick: Pick) {
    && key in p.packages && pick.version in p.packages[key].versions && pick.scheme == p.packages[key].scheme
    && (key, pick.version) in p.releases
    && p.releases[(key, pick.version)] == Release(false, pick.dependencies)
  }

  /** The selected version of the package is one that these requirements allow. */
  ghost predicate Answered(p: Problem, selection: Selection, dependencies: map<string, string>) {
    forall key :: key in dependencies ==>
      && key in selection
      && p.matches(selection[key].scheme, dependencies[key], selection[key].version)
  }

  /** A resolution is exactly a selection of such versions, or of the workspace's, that answers all requirements. */
  lemma {:induction false} ResolutionExactly(p: Problem, selection: Selection)
    ensures Resolution(p, selection) <==>
      && (forall key :: key in selection ==>
            if key in p.members then selection[key] == p.members[key] else Published(p, key, selection[key]))
      && Answered(p, selection, p.dependencies)
      && forall key :: key in selection && (key != p.root || p.root in p.dependencies) ==>
           Answered(p, selection, selection[key].dependencies)
  {
    forall key | key in selection
      ensures p.Available(key, selection[key]) <==>
        if key in p.members then selection[key] == p.members[key] else Published(p, key, selection[key])
      ensures ClosedAt(p, selection, key) <==> Answered(p, selection, selection[key].dependencies)
    {
    }
  }

  /**
   What the resolver answers with.  A project that depends on itself gets a published version of itself, and everything
   else the workspace's, if the workspace has it.
   */
  lemma {:induction false} AnswersArePublished(p: Problem, r: Result<Option<Selection>>, key: string)
    requires Resolves(Effective(p), r) && r.Ok? && r.value.Some? && key in r.value.value
    ensures if key in p.members && !(key == p.root && p.root in p.dependencies)
      then r.value.value[key] == p.members[key]
      else Published(p, key, r.value.value[key])
    ensures Answered(p, r.value.value, p.dependencies)
  {
    ResolutionExactly(Effective(p), r.value.value);
  }

  /** One dependency, on published versions that need nothing more. */
  ghost predicate Simple(p: Problem, key: string, requirement: string) {
    && p.dependencies == map[key := requirement] && key !in p.members && key in p.packages
    && forall version :: version in p.packages[key].versions && (key, version) in p.releases ==>
      p.releases[(key, version)].dependencies == map[]
  }

  /** A version that is published, released, not withdrawn and allowed can be selected. */
  lemma {:induction false} AnyVersionCanBeSelected(p: Problem, key: string, requirement: string, version: string)
    requires Simple(p, key, requirement) && version in p.packages[key].versions
    requires (key, version) in p.releases && !p.releases[(key, version)].yanked
    requires p.matches(p.packages[key].scheme, requirement, version)
    ensures Fitting(p, map[key := Pick(version, p.packages[key].scheme, map[])])
  {
    var pick := Pick(version, p.packages[key].scheme, map[]);
    assert Published(p, key, pick);
    ResolutionExactly(p, map[key := pick]);
    assert Reached(p, map[key := pick], key, 1);
  }

  /** A version that is not allowed or was withdrawn. */
  predicate Useless(p: Problem, key: string, requirement: string, version: string)
    requires key in p.packages
  {
    || !p.matches(p.packages[key].scheme, requirement, version)
    || ((key, version) in p.releases && p.releases[(key, version)].yanked)
  }

  /** The highest allowed version that was not withdrawn is chosen. */
  lemma {:induction false} HighestIsChosen(
      p: Problem, key: string, requirement: string, i: nat, selection: Selection, trail: seq<Decision>)
    requires Simple(p, key, requirement) && i < |p.packages[key].versions|
    requires Fitting(p, selection) && IsBest(p, selection, trail)
    requires forall j :: 0 <= j < i ==> Useless(p, key, requirement, p.packages[key].versions[j])
    requires var version := p.packages[key].versions[i];
      && p.matches(p.packages[key].scheme, requirement, version)
      && (key, version) in p.releases && !p.releases[(key, version)].yanked
    ensures key in selection && selection[key].version == p.packages[key].versions[i]
  {
    var versions := p.packages[key].versions;
    var other := map[key := Pick(versions[i], p.packages[key].scheme, map[])];
    AnyVersionCanBeSelected(p, key, requirement, versions[i]);
    ResolutionExactly(p, selection);
    assert Published(p, key, selection[key]);
    assert Highest(p, trail, selection, other);
    if n: nat :| DiffersFirst(p, trail, selection, other, n) {
      assert trail[n].key == key;
      ComesBefore(p, key, i, selection[key].version);
    }
  }

  lemma {:induction false} ComesBefore(p: Problem, key: string, i: nat, version: string)
    requires key in p.packages && i < |p.packages[key].versions|
    requires ComesAfter(p, key, version, p.packages[key].versions[i])
    ensures exists j :: 0 <= j < i && p.packages[key].versions[j] == version
  {
    var versions := p.packages[key].versions;
    var k :| 0 <= k < |versions| && versions[k] == version && versions[i] !in versions[..k + 1];
    assert k < i;
  }

  /** If all allowed versions of a direct dependency were withdrawn, there is no answer. */
  lemma {:induction false} AllWithdrawnIsUnsatisfiable(p: Problem, key: string, r: Result<Option<Selection>>)
    requires key in p.dependencies && key in p.packages && (key !in p.members || key == p.root)
    requires forall version :: version in p.packages[key].versions ==> Useless(p, key, p.dependencies[key], version)
    requires Resolves(Effective(p), r)
    ensures r.Err? || r.value.None?
  {
    if r.Ok? && r.value.Some? {
      AnswersArePublished(p, r, key);
    }
  }

  /** The limits: a chain of 256 packages below the project, and ten thousand packages. */
  lemma {:induction false} Limits(p: Problem, s: State, key: string, c: Constraint)
    requires p.validKey(key)
    ensures AddConstraint(p.(validKey := _ => false), s, key, c).Err?
    ensures |c.path| == 258 ==> AddConstraint(p, s, key, c).Err?
    ensures |c.path| == 257 && key in s.constraints ==> AddConstraint(p, s, key, c).Ok?
    ensures |c.path| <= 257 && key !in s.constraints ==>
      (AddConstraint(p, s, key, c).Ok? <==> |s.constraints| < 10_000)
  {
  }

  // ---------- In which order ----------

  /** A package with a shorter provenance path comes first, and of equally near ones the one with the smaller name. */
  lemma {:induction false} NearestFirst(s: State, key: string, other: string, c: Constraint, d: Constraint)
    requires AskedFor(s) && key in s.constraints && other in s.constraints
    requires c in s.constraints[key] && forall e :: e in s.constraints[key] ==> |c.path| <= |e.path|
    requires d in s.constraints[other] && forall e :: e in s.constraints[other] ==> |d.path| <= |e.path|
    ensures Before(s, key, other) <==>
      |c.path| < |d.path| || (|c.path| == |d.path| && (key == other || Below(key, other)))
  {
    var (m, n) := (Depth(s.constraints[key]), Depth(s.constraints[other]));
    assert Shortest(s.constraints[key], m) && Shortest(s.constraints[other], n);
  }

  /** Some constraint does not allow this version. */
  predicate Ruled(p: Problem, key: string, constraints: set<Constraint>, version: string)
    requires key in p.packages
  {
    exists c :: c in constraints && !p.matches(p.packages[key].scheme, c.requirement, version)
  }

  /** What is fetched ahead is the first listed version that all constraints allow. */
  lemma {:induction false} FirstIsFetched(p: Problem, key: string, constraints: set<Constraint>, i: nat)
    requires key in p.packages && i < |p.packages[key].versions|
    requires forall c :: c in constraints ==>
      p.matches(p.packages[key].scheme, c.requirement, p.packages[key].versions[i])
    requires forall j :: 0 <= j < i ==> Ruled(p, key, constraints, p.packages[key].versions[j])
    ensures Fetchable(p, key, constraints) <==> (key, p.packages[key].versions[i]) in p.releases
  {
    FirstFrom(p, p.packages[key], constraints, 0, i);
  }

  lemma {:induction false} FirstFrom(p: Problem, package: Package, constraints: set<Constraint>, i: nat, n: nat)
    requires i <= n < |package.versions| && AllMatch(p, package.scheme, package.versions[n], constraints)
    requires forall j :: i <= j < n ==> !AllMatch(p, package.scheme, package.versions[j], constraints)
    ensures FirstMatching(p, package, i, constraints) == Some(package.versions[n])
    decreases n - i
  {
    if i < n {
      FirstFrom(p, package, constraints, i + 1, n);
    }
  }
}
