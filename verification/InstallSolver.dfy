/**
 The backtracking resolver of `zed install`: it selects one version for every package that is needed, or
 finds that there is no selection.
 */
module InstallSolver {
  import opened Wrappers
  import opened Enumerations
  import opened Strings

  const MAX_DEPENDENCY_DEPTH := 256
  const MAX_GRAPH_COORDINATES := 10_000

  /** A version of a package with its dependencies, from the registry or from the workspace. */
  datatype Pick = Pick(version: string, scheme: string, dependencies: map<string, string>)

  /** A published version, under its package's version scheme. */
  datatype Release = Release(yanked: bool, dependencies: map<string, string>)

  /** What the registry publishes, the highest version first. */
  datatype Package = Package(scheme: string, versions: seq<string>)

  /** A segment of a provenance path. */
  datatype Step = Step(coordinate: string, version: Option<string>)

  datatype Constraint = Constraint(requirement: string, path: seq<Step>, propagate: bool)

  type Selection = map<string, Pick>

  /** The project, the registry and the workspace; how requirements match and keys look is not modelled. */
  datatype Problem = Problem(
    root: string, rootVersion: string, dependencies: map<string, string>,
    packages: map<string, Package>, releases: map<(string, string), Release>, members: map<string, Pick>,
    matches: (string, string, string) -> bool, validKey: string -> bool)
  {
    predicate Satisfies(pick: Pick, requirement: string) {
      matches(pick.scheme, requirement, pick.version)
    }

    predicate Accepts(pick: Pick, constraints: set<Constraint>) {
      forall c :: c in constraints ==> Satisfies(pick, c.requirement)
    }

    /** The registry has this version, and it was not withdrawn. */
    predicate Offers(key: string, version: string) {
      && key in packages && version in packages[key].versions
      && (key, version) in releases && !releases[(key, version)].yanked
    }

    function Offered(key: string, version: string): Pick
      requires key in packages && (key, version) in releases
    {
      Pick(version, packages[key].scheme, releases[(key, version)].dependencies)
    }

    /** A pick that may be selected for a key: the workspace's, or one that the registry offers. */
    ghost predicate Available(key: string, pick: Pick) {
      if key in members then pick == members[key]
      else Offers(key, pick.version) && pick == Offered(key, pick.version)
    }
  }

  // ---------- What the resolver is for ----------

  ghost predicate RootSatisfied(p: Problem, selection: Selection) {
    forall key :: key in p.dependencies ==> key in selection && p.Satisfies(selection[key], p.dependencies[key])
  }

  /** What the pick for `key` needs is selected. */
  ghost predicate ClosedAt(p: Problem, selection: Selection, key: string)
    requires key in selection
  {
    forall d :: d in selection[key].dependencies ==>
      d in selection && p.Satisfies(selection[d], selection[key].dependencies[d])
  }

  /** Whether a selected package brings its dependencies: not the project's own, when only a cycle leads to it. */
  predicate Brings(p: Problem, key: string) {
    key == p.root ==> key in p.dependencies
  }

  ghost predicate Resolution(p: Problem, selection: Selection) {
    && (forall key :: key in selection ==> p.Available(key, selection[key]))
    && RootSatisfied(p, selection)
    && forall key :: key in selection && Brings(p, key) ==> ClosedAt(p, selection, key)
  }

  // ---------- The search state ----------

  datatype State = State(constraints: map<string, set<Constraint>>, picked: Selection)
  {
    function Of(key: string): set<Constraint> {
      if key in constraints then constraints[key] else {}
    }

    predicate Has(key: string, c: Constraint) {
      c in Of(key)
    }
  }

  /** Some segment is about this package. */
  predicate Visits(steps: seq<Step>, key: string) {
    exists i :: 0 <= i < |steps| && steps[i].coordinate == key
  }

  /** The constraint a selected package passes on to one of its dependencies; not on from there if that is a cycle. */
  function ChildConstraint(parent: Constraint, key: string, version: string, dependency: string, requirement: string)
    : Constraint
  {
    var path := if parent.path == [] then [] else parent.path[..|parent.path| - 1] + [Step(key, Some(version))];
    Constraint(requirement, path + [Step(dependency, None)], !Visits(parent.path, dependency))
  }

  function RootStep(p: Problem): Step {
    Step(p.root, Some(p.rootVersion))
  }

  function RootConstraint(p: Problem, key: string): Constraint
    requires key in p.dependencies
  {
    Constraint(p.dependencies[key], [RootStep(p), Step(key, None)], true)
  }

  function AddConstraint(p: Problem, s: State, key: string, c: Constraint): Result<State> {
    if !p.validKey(key) then Err
    else if |c.path| > MAX_DEPENDENCY_DEPTH + 1 then Err
    else if key !in s.constraints && |s.constraints| >= MAX_GRAPH_COORDINATES then Err
    else Ok(s.(constraints := s.constraints[key := s.Of(key) + {c}]))
  }

  // ---------- What every state of the search keeps ----------

  ghost predicate FromParent(s: State, key: string, c: Constraint, from: string, parent: Constraint) {
    && from in s.picked && s.Has(from, parent) && parent.propagate && key in s.picked[from].dependencies
    && c == ChildConstraint(parent, from, s.picked[from].version, key, s.picked[from].dependencies[key])
  }

  /** A selected package passes this on. */
  ghost predicate PassedOn(s: State, key: string, c: Constraint) {
    exists from, parent :: FromParent(s, key, c, from, parent)
  }

  /** Where a constraint comes from: the project itself, or a selected package. */
  ghost predicate Derived(p: Problem, s: State, key: string, c: Constraint) {
    || (key in p.dependencies && c == RootConstraint(p, key))
    || PassedOn(s, key, c)
  }

  /** Selected packages, none of them twice. */
  ghost predicate Along(picked: Selection, steps: seq<Step>) {
    && (forall i :: 0 <= i < |steps| ==>
          steps[i].coordinate in picked && steps[i].version == Some(picked[steps[i].coordinate].version))
    && forall i, j :: 0 <= i < j < |steps| ==> steps[i].coordinate != steps[j].coordinate
  }

  function Middle(c: Constraint): seq<Step>
    requires |c.path| >= 2
  {
    c.path[1..|c.path| - 1]
  }

  /** A provenance path goes from the project through selected packages; at a cycle it ends. */
  ghost predicate Shaped(p: Problem, picked: Selection, key: string, c: Constraint) {
    && 2 <= |c.path| <= MAX_DEPENDENCY_DEPTH + 1
    && c.path == [RootStep(p)] + Middle(c) + [Step(key, None)]
    && Along(picked, Middle(c))
    && (c.propagate ==> !Visits(Middle(c), key) && Brings(p, key))
    && (!c.propagate ==> key == p.root || Visits(Middle(c), key))
  }

  /** What is reached passes its dependencies on. */
  ghost predicate Expanded(p: Problem, s: State, key: string) {
    exists c :: s.Has(key, c) && (c.propagate || !Brings(p, key))
  }

  ghost predicate PicksFit(p: Problem, s: State) {
    forall key :: key in s.picked ==> key in s.constraints && p.Available(key, s.picked[key])
  }

  ghost predicate Fits(p: Problem, s: State, key: string, c: Constraint) {
    s.Has(key, c) ==> Derived(p, s, key, c) && Shaped(p, s.picked, key, c)
  }

  ghost predicate ConstraintsFit(p: Problem, s: State) {
    forall key, c :: Fits(p, s, key, c)
  }

  ghost predicate RootIn(p: Problem, s: State) {
    forall key :: key in p.dependencies ==> s.Has(key, RootConstraint(p, key))
  }

  ghost predicate Inv(p: Problem, s: State) {
    && PicksFit(p, s) && ConstraintsFit(p, s) && RootIn(p, s)
    && |s.constraints| <= MAX_GRAPH_COORDINATES
    && forall key :: key in s.constraints ==> Expanded(p, s, key)
  }

  /** Constraints and picks only accumulate. */
  ghost predicate Grown(s: State, t: State) {
    && s.constraints.Keys <= t.constraints.Keys && (forall key :: s.Of(key) <= t.Of(key))
    && forall key :: key in s.picked ==> key in t.picked && t.picked[key] == s.picked[key]
  }

  lemma {:induction false} VisitsAppend(left: seq<Step>, right: seq<Step>, key: string)
    ensures Visits(left + right, key) <==> Visits(left, key) || Visits(right, key)
  {
    var all := left + right;
    if i :| 0 <= i < |left| && left[i].coordinate == key {
      assert all[i].coordinate == key;
    }
    if i :| 0 <= i < |right| && right[i].coordinate == key {
      assert all[|left| + i].coordinate == key;
    }
  }

  /** A child's path is its parent's, through the parent. */
  lemma {:induction false} ChildPath(
      p: Problem, picked: Selection, from: string, parent: Constraint, version: string, key: string, c: Constraint)
    requires Shaped(p, picked, from, parent)
    requires exists requirement :: c == ChildConstraint(parent, from, version, key, requirement)
    ensures |c.path| == |parent.path| + 1 && Middle(c) == Middle(parent) + [Step(from, Some(version))]
    ensures c.path == [RootStep(p)] + Middle(c) + [Step(key, None)]
    ensures c.propagate <==> key != p.root && key != from && !Visits(Middle(parent), key)
  {
    var (middle, last) := (Middle(parent), [Step(from, None)]);
    assert parent.path[..|parent.path| - 1] == [RootStep(p)] + middle;
    VisitsAppend([RootStep(p)] + middle, last, key);
    VisitsAppend([RootStep(p)], middle, key);
    assert Visits(last, key) <==> key == from by {
      assert last[0].coordinate == from;
    }
    assert Visits([RootStep(p)], key) <==> key == p.root by {
      assert [RootStep(p)][0].coordinate == p.root;
    }
  }

  lemma {:induction false} AlongMore(picked: Selection, steps: seq<Step>, key: string)
    requires Along(picked, steps) && !Visits(steps, key) && key in picked
    ensures Along(picked, steps + [Step(key, Some(picked[key].version))])
  {
  }

  lemma {:induction false} ChildIsShaped(
      p: Problem, s: State, key: string, c: Constraint, from: string, parent: Constraint)
    requires Shaped(p, s.picked, from, parent) && FromParent(s, key, c, from, parent)
    requires |c.path| <= MAX_DEPENDENCY_DEPTH + 1
    ensures Shaped(p, s.picked, key, c)
  {
    var version := s.picked[from].version;
    ChildPath(p, s.picked, from, parent, version, key, c);
    AlongMore(s.picked, Middle(parent), from);
    VisitsAppend(Middle(parent), [Step(from, Some(version))], key);
    assert Visits([Step(from, Some(version))], key) <==> key == from by {
      assert [Step(from, Some(version))][0].coordinate == from;
    }
  }

  /** A key that is new is reached by a path on which it is not, unless it is the project itself. */
  lemma {:induction false} NewKeyIsExpanded(p: Problem, s: State, key: string, c: Constraint)
    requires Inv(p, s) && Shaped(p, s.picked, key, c) && key !in s.constraints
    ensures c.propagate || !Brings(p, key)
  {
    assert key !in s.picked && !Visits(Middle(c), key);
    assert key in p.dependencies ==> s.Has(key, RootConstraint(p, key));
  }

  lemma {:induction false} DerivedStays(p: Problem, s: State, t: State, key: string, c: Constraint)
    requires Derived(p, s, key, c) && Grown(s, t)
    ensures Derived(p, t, key, c)
  {
    if !(key in p.dependencies && c == RootConstraint(p, key)) {
      var from, parent :| FromParent(s, key, c, from, parent);
      assert parent in t.Of(from);
      assert FromParent(t, key, c, from, parent);
    }
  }

  lemma {:induction false} ShapedStays(p: Problem, picked: Selection, more: Selection, key: string, c: Constraint)
    requires Shaped(p, picked, key, c)
    requires forall k :: k in picked ==> k in more && more[k] == picked[k]
    ensures Shaped(p, more, key, c)
  {
  }

  lemma {:induction false} ExpandedStays(p: Problem, s: State, t: State, key: string)
    requires Expanded(p, s, key) && Grown(s, t)
    ensures Expanded(p, t, key)
  {
    var c :| s.Has(key, c) && (c.propagate || !Brings(p, key));
    assert c in t.Of(key);
    assert t.Has(key, c);
  }

  lemma {:induction false} AddedIs(p: Problem, s: State, t: State, key: string, c: Constraint)
    requires AddConstraint(p, s, key, c) == Ok(t)
    ensures t.picked == s.picked && t.constraints == s.constraints[key := s.Of(key) + {c}]
    ensures forall k :: t.Of(k) == if k == key then s.Of(k) + {c} else s.Of(k)
  {
  }

  lemma {:induction false} AddedGrows(p: Problem, s: State, t: State, key: string, c: Constraint)
    requires AddConstraint(p, s, key, c) == Ok(t)
    ensures Grown(s, t) && t.Has(key, c) && t.picked == s.picked
    ensures t.constraints.Keys == s.constraints.Keys + {key}
  {
    AddedIs(p, s, t, key, c);
    AddedKeys(s.constraints, key, s.Of(key) + {c});
  }

  lemma {:induction false} AddedKeys(constraints: map<string, set<Constraint>>, key: string, more: set<Constraint>)
    ensures constraints[key := more].Keys == constraints.Keys + {key}
  {
  }

  lemma {:induction false} AddedKeepsInv(p: Problem, s: State, t: State, key: string, c: Constraint)
    requires Inv(p, s) && AddConstraint(p, s, key, c) == Ok(t)
    requires Derived(p, s, key, c) && Shaped(p, s.picked, key, c)
    ensures Inv(p, t)
  {
    AddedGrows(p, s, t, key, c);
    AddedConstraintsFit(p, s, t, key, c);
    AddedIsExpanded(p, s, t, key, c);
    RootStays(p, s, t);
    AddedCount(p, s, t, key, c);
  }

  lemma {:induction false} AddedCount(p: Problem, s: State, t: State, key: string, c: Constraint)
    requires AddConstraint(p, s, key, c) == Ok(t) && |s.constraints| <= MAX_GRAPH_COORDINATES
    ensures |t.constraints| <= MAX_GRAPH_COORDINATES
  {
    assert t.constraints.Keys == s.constraints.Keys + {key};
    assert |t.constraints| == |t.constraints.Keys| && |s.constraints| == |s.constraints.Keys|;
    assert key in s.constraints ==> t.constraints.Keys == s.constraints.Keys;
  }

  lemma {:induction false} RootStays(p: Problem, s: State, t: State)
    requires RootIn(p, s) && Grown(s, t)
    ensures RootIn(p, t)
  {
    forall k | k in p.dependencies ensures t.Has(k, RootConstraint(p, k)) {
      assert s.Has(k, RootConstraint(p, k));
      assert s.Of(k) <= t.Of(k);
    }
  }

  lemma {:induction false} AddedIsExpanded(p: Problem, s: State, t: State, key: string, c: Constraint)
    requires Inv(p, s) && Grown(s, t) && t.Has(key, c) && t.constraints.Keys == s.constraints.Keys + {key}
    requires Shaped(p, s.picked, key, c)
    ensures forall k :: k in t.constraints ==> Expanded(p, t, k)
  {
    forall k | k in t.constraints ensures Expanded(p, t, k) {
      if k in s.constraints {
        ExpandedStays(p, s, t, k);
      } else {
        NewKeyIsExpanded(p, s, key, c);
      }
    }
  }

  lemma {:induction false} AddedConstraintsFit(p: Problem, s: State, t: State, key: string, c: Constraint)
    requires ConstraintsFit(p, s) && AddConstraint(p, s, key, c) == Ok(t)
    requires Derived(p, s, key, c) && Shaped(p, s.picked, key, c)
    ensures ConstraintsFit(p, t)
  {
    AddedIs(p, s, t, key, c);
    AddedGrows(p, s, t, key, c);
    forall k, d ensures Fits(p, t, k, d) {
      if k == key && d == c {
        DerivedStays(p, s, t, key, c);
      } else if t.Has(k, d) {
        assert Fits(p, s, k, d);
        DerivedStays(p, s, t, k, d);
      }
    }
  }

  // ---------- Selecting ----------

  function WithPick(s: State, key: string, pick: Pick): State {
    s.(picked := s.picked[key := pick])
  }

  lemma {:induction false} PickKeepsInv(p: Problem, s: State, key: string, pick: Pick)
    requires Inv(p, s) && key in s.constraints && key !in s.picked && p.Available(key, pick)
    ensures Inv(p, WithPick(s, key, pick)) && Grown(s, WithPick(s, key, pick))
    ensures |s.picked| < |s.constraints|
  {
    var t := WithPick(s, key, pick);
    PickedConstraintsFit(p, s, key, pick);
    forall k | k in t.constraints ensures Expanded(p, t, k) {
      ExpandedStays(p, s, t, k);
    }
    RootStays(p, s, t);
    Fewer(s.picked.Keys, s.constraints.Keys, key);
    assert |s.picked| == |s.picked.Keys| && |s.constraints| == |s.constraints.Keys|;
  }

  lemma {:induction false} Fewer(part: set<string>, whole: set<string>, key: string)
    requires part <= whole && key in whole && key !in part
    ensures |part| < |whole|
  {
    SubsetSize(part + {key}, whole);
  }

  lemma {:induction false} PickedConstraintsFit(p: Problem, s: State, key: string, pick: Pick)
    requires ConstraintsFit(p, s) && key !in s.picked
    ensures ConstraintsFit(p, WithPick(s, key, pick)) && Grown(s, WithPick(s, key, pick))
  {
    var t := WithPick(s, key, pick);
    forall k, c ensures Fits(p, t, k, c) {
      if t.Has(k, c) {
        assert Fits(p, s, k, c);
        DerivedStays(p, s, t, k, c);
        ShapedStays(p, s.picked, t.picked, k, c);
      }
    }
  }

  // ---------- What constraints say about resolutions ----------

  /** A resolution that contains the picks made so far. */
  ghost predicate Extends(p: Problem, picked: Selection, selection: Selection) {
    && Resolution(p, selection)
    && forall key :: key in picked ==> key in selection && selection[key] == picked[key]
  }

  /** There is none. */
  ghost predicate Hopeless(p: Problem, picked: Selection) {
    forall selection: Selection :: !Extends(p, picked, selection)
  }

  /** Every constraint holds of every such resolution. */
  lemma {:induction false} ConstraintHolds(p: Problem, s: State, selection: Selection, key: string, c: Constraint)
    requires Inv(p, s) && Extends(p, s.picked, selection) && s.Has(key, c)
    ensures key in selection && p.Satisfies(selection[key], c.requirement)
  {
    assert Fits(p, s, key, c);
    if !(key in p.dependencies && c == RootConstraint(p, key)) {
      var from, parent :| FromParent(s, key, c, from, parent);
      assert Fits(p, s, from, parent) && Brings(p, from);
      assert ClosedAt(p, selection, from);
    }
  }

  lemma {:induction false} RefusedIsHopeless(p: Problem, s: State, key: string)
    requires Inv(p, s) && key in s.picked && !p.Accepts(s.picked[key], s.Of(key))
    ensures Hopeless(p, s.picked)
  {
    var c :| c in s.Of(key) && !p.Satisfies(s.picked[key], c.requirement);
    forall selection: Selection ensures !Extends(p, s.picked, selection) {
      if Extends(p, s.picked, selection) {
        ConstraintHolds(p, s, selection, key, c);
      }
    }
  }

  // ---------- Propagation ----------

  /** Everything the selected packages pass on. */
  ghost predicate Saturated(p: Problem, s: State) {
    && (forall key :: key in s.picked ==> p.Accepts(s.picked[key], s.Of(key)))
    && NothingNew(s)
  }

  ghost predicate NothingNew(s: State) {
    forall key, c, from, parent :: FromParent(s, key, c, from, parent) ==> s.Has(key, c)
  }

  function Additions(s: State): set<(string, Constraint)> {
    set from, parent, key | from in s.picked && parent in s.Of(from) && parent.propagate
                            && key in s.picked[from].dependencies ::
      (key, ChildConstraint(parent, from, s.picked[from].version, key, s.picked[from].dependencies[key]))
  }

  lemma {:induction false} AdditionsAre(s: State)
    ensures forall key, c, from, parent :: FromParent(s, key, c, from, parent) ==> (key, c) in Additions(s)
    ensures forall a :: a in Additions(s) ==> PassedOn(s, a.0, a.1)
  {
    forall a | a in Additions(s) ensures PassedOn(s, a.0, a.1) {
      var from, parent, key :| from in s.picked && parent in s.Of(from) && parent.propagate
        && key in s.picked[from].dependencies && a
        == (key, ChildConstraint(parent, from, s.picked[from].version, key, s.picked[from].dependencies[key]));
      assert FromParent(s, a.0, a.1, from, parent);
    }
  }

  ghost function All(s: State): set<(string, Constraint)> {
    set key, c | key in s.constraints && c in s.constraints[key] :: (key, c)
  }

  // ---------- Bounds ----------

  ghost function Picks(p: Problem): set<Pick> {
    (set release | release in p.releases && release.0 in p.packages :: p.Offered(release.0, release.1))
    + p.members.Values
  }

  /** Every package anybody depends on. */
  ghost function Keys(p: Problem): set<string> {
    p.dependencies.Keys + set pick, key | pick in Picks(p) && key in pick.dependencies :: key
  }

  ghost function Requirements(p: Problem): set<string> {
    p.dependencies.Values + set pick, key | pick in Picks(p) && key in pick.dependencies :: pick.dependencies[key]
  }

  /** These packages hold the project's dependencies and those of every version of them that can be selected. */
  ghost predicate Spans(p: Problem, keys: set<string>) {
    && p.dependencies.Keys <= keys
    && forall from, key :: from in keys && Asks(p, from, key) ==> key in keys
  }

  /** Some version of `from` brings `key`. */
  ghost predicate Asks(p: Problem, from: string, key: string) {
    Brings(p, from) && exists pick :: p.Available(from, pick) && key in pick.dependencies
  }

  /** A way on which dependencies can run from the project on. */
  ghost predicate Chain(p: Problem, keys: seq<string>) {
    && (keys != [] ==> keys[0] in p.dependencies)
    && forall i, j :: 0 <= i && j == i + 1 < |keys| ==> Asks(p, keys[i], keys[j])
  }

  /** Whoever asks for a package does so after fewer than the allowed number of different packages. */
  ghost predicate Shallow(p: Problem) {
    forall keys, key :: Distinct(keys) && Chain(p, keys + [key]) ==> |keys| < MAX_DEPENDENCY_DEPTH
  }

  /** Its name is valid, and the workspace or the registry has it. */
  ghost predicate Known(p: Problem, key: string) {
    p.validKey(key) && (key in p.members || Published(p, key))
  }

  /** What the project can reach is known and within the two limits. */
  ghost predicate Tractable(p: Problem) {
    Shallow(p) && exists keys :: Spans(p, keys) && AllKnown(p, keys)
  }

  ghost predicate AllKnown(p: Problem, keys: set<string>) {
    |keys| <= MAX_GRAPH_COORDINATES && forall key :: key in keys ==> Known(p, key)
  }

  ghost predicate Published(p: Problem, key: string) {
    key in p.packages && forall version :: version in p.packages[key].versions ==> (key, version) in p.releases
  }

  lemma {:induction false} PickIsKnown(p: Problem, key: string, pick: Pick)
    requires p.Available(key, pick)
    ensures pick in Picks(p)
  {
    if key in p.members {
      assert p.members[key] in p.members.Values;
    } else {
      var release := (key, pick.version);
      assert release in p.releases && release.0 in p.packages && p.Offered(release.0, release.1) == pick;
    }
  }

  lemma {:induction false} DerivedIsKnown(p: Problem, s: State, key: string, c: Constraint)
    requires PicksFit(p, s) && Derived(p, s, key, c)
    ensures key in Keys(p) && c.requirement in Requirements(p)
  {
    if key in p.dependencies && c == RootConstraint(p, key) {
      assert p.dependencies[key] in p.dependencies.Values;
    } else {
      var from, parent :| FromParent(s, key, c, from, parent);
      PickIsKnown(p, from, s.picked[from]);
    }
  }

  /** The packages on a provenance path. */
  function Coordinates(steps: seq<Step>): (keys: seq<string>)
    ensures |keys| == |steps|
  {
    seq(|steps|, i requires 0 <= i < |steps| => steps[i].coordinate)
  }

  /** A provenance path is a chain of dependencies, inside whatever spans the problem. */
  lemma {:induction false} PathIsChain(p: Problem, s: State, keys: set<string>, key: string, c: Constraint)
    requires Inv(p, s) && Spans(p, keys) && s.Has(key, c)
    ensures |c.path| >= 2 && Chain(p, Coordinates(Middle(c)) + [key]) && key in keys
    decreases |c.path|, 0
  {
    assert Fits(p, s, key, c);
    if key in p.dependencies && c == RootConstraint(p, key) {
      assert Coordinates(Middle(c)) + [key] == [key];
    } else {
      var from, parent :| FromParent(s, key, c, from, parent);
      PassedOnChain(p, s, keys, key, c, from, parent);
    }
  }

  lemma {:induction false} PassedOnChain(
      p: Problem, s: State, keys: set<string>, key: string, c: Constraint, from: string, parent: Constraint)
    requires Inv(p, s) && Spans(p, keys) && FromParent(s, key, c, from, parent)
    ensures |c.path| == |parent.path| + 1 && |parent.path| >= 2
    ensures Coordinates(Middle(c)) == Coordinates(Middle(parent)) + [from]
    ensures Chain(p, Coordinates(Middle(c)) + [key]) && key in keys
    decreases |parent.path|, 1
  {
    assert Fits(p, s, from, parent) && p.Available(from, s.picked[from]);
    ChildPath(p, s.picked, from, parent, s.picked[from].version, key, c);
    PathIsChain(p, s, keys, from, parent);
    var way := Coordinates(Middle(parent)) + [from];
    assert Coordinates(Middle(c)) == way;
    ChainMore(p, way, key);
  }

  lemma {:induction false} ChainMore(p: Problem, way: seq<string>, key: string)
    requires way != [] && Chain(p, way) && Asks(p, way[|way| - 1], key)
    ensures Chain(p, way + [key])
  {
  }

  /** What a state has is inside as well. */
  lemma {:induction false} SpannedKeys(p: Problem, s: State, keys: set<string>)
    requires Inv(p, s) && Spans(p, keys)
    ensures s.constraints.Keys <= keys
  {
    forall key | key in s.constraints ensures key in keys {
      assert Expanded(p, s, key);
      var c :| s.Has(key, c);
      PathIsChain(p, s, keys, key, c);
    }
  }

  /** What is passed on fits the state. */
  lemma {:induction false} AdditionFits(p: Problem, s: State, key: string, c: Constraint)
    requires Inv(p, s) && PassedOn(s, key, c)
    ensures Derived(p, s, key, c)
    ensures |c.path| <= MAX_DEPENDENCY_DEPTH + 1 ==> Shaped(p, s.picked, key, c)
  {
    var from, parent :| FromParent(s, key, c, from, parent);
    assert Fits(p, s, from, parent);
    if |c.path| <= MAX_DEPENDENCY_DEPTH + 1 {
      ChildIsShaped(p, s, key, c, from, parent);
    }
  }

  /** Within the limits its path is short enough. */
  lemma {:induction false} AdditionIsShort(p: Problem, s: State, keys: set<string>, key: string, c: Constraint)
    requires Shallow(p) && Spans(p, keys) && Inv(p, s) && PassedOn(s, key, c)
    ensures key in keys && |c.path| <= MAX_DEPENDENCY_DEPTH + 1
  {
    var from, parent :| FromParent(s, key, c, from, parent);
    assert Fits(p, s, from, parent);
    PassedOnChain(p, s, keys, key, c, from, parent);
    DistinctWay(s.picked, Middle(parent), from);
  }

  lemma {:induction false} DistinctWay(picked: Selection, steps: seq<Step>, from: string)
    requires Along(picked, steps) && !Visits(steps, from)
    ensures Distinct(Coordinates(steps) + [from])
  {
  }

  /** Within the limits it can be added. */
  lemma {:induction false} AddSucceeds(p: Problem, s: State, t: State, key: string, c: Constraint)
    requires Tractable(p) && Inv(p, s) && Inv(p, t)
    requires PassedOn(s, key, c)
    ensures AddConstraint(p, t, key, c).Ok?
  {
    var keys :| Spans(p, keys) && AllKnown(p, keys);
    AdditionIsShort(p, s, keys, key, c);
    SpannedKeys(p, t, keys);
    assert Known(p, key);
    if key !in t.constraints {
      Fewer(t.constraints.Keys, keys, key);
      assert |t.constraints| == |t.constraints.Keys|;
    }
  }

  /** More constraints, for the same picks. */
  ghost predicate Furthers(p: Problem, s: State, t: State) {
    Inv(p, t) && Grown(s, t) && t.picked == s.picked && All(s) <= All(t)
  }

  /** Adding one of the constraints that are passed on. */
  lemma {:induction false} AddOne(p: Problem, s: State, t: State, next: State, key: string, c: Constraint)
    requires Inv(p, s) && Furthers(p, s, t) && PassedOn(s, key, c)
    requires AddConstraint(p, t, key, c) == Ok(next)
    ensures Furthers(p, s, next) && (!t.Has(key, c) ==> All(s) < All(next))
  {
    AdditionFits(p, s, key, c);
    DerivedStays(p, s, t, key, c);
    AddedKeepsInv(p, t, next, key, c);
    AddedGrows(p, t, next, key, c);
    GrownTwice(s, t, next);
    AddedAll(p, t, next, key, c);
  }

  ghost predicate HasAll(s: State, additions: seq<(string, Constraint)>, n: nat)
    requires n <= |additions|
  {
    forall i :: 0 <= i < n ==> s.Has(additions[i].0, additions[i].1)
  }

  /** Adds one constraint; says whether it is new. */
  method AddNew(p: Problem, ghost s: State, t: State, key: string, c: Constraint)
    returns (r: Result<State>, changed: bool)
    requires Inv(p, s) && Furthers(p, s, t) && PassedOn(s, key, c)
    ensures Tractable(p) ==> r.Ok?
    ensures r.Ok? ==> Furthers(p, s, r.value)
    ensures r.Ok? && !changed ==> r.value == t && t.Has(key, c)
    ensures r.Ok? && changed ==> All(s) < All(r.value)
  {
    r := AddConstraint(p, t, key, c);
    changed := !t.Has(key, c);
    if Tractable(p) {
      AddSucceeds(p, s, t, key, c);
    }
    if r.Ok? {
      AddOne(p, s, t, r.value, key, c);
      if !changed {
        AddedAgain(p, t, r.value, key, c);
      }
    }
  }

  lemma {:induction false} AddedAgain(p: Problem, s: State, t: State, key: string, c: Constraint)
    requires AddConstraint(p, s, key, c) == Ok(t) && s.Has(key, c)
    ensures t == s
  {
    assert s.Of(key) + {c} == s.constraints[key];
    assert t.constraints == s.constraints;
  }

  /** Adds what is passed on; says whether anything is new. */
  method AddAll(p: Problem, s: State, additions: seq<(string, Constraint)>) returns (r: Result<State>, changed: bool)
    requires Inv(p, s) && forall i :: 0 <= i < |additions| ==> PassedOn(s, additions[i].0, additions[i].1)
    ensures Tractable(p) ==> r.Ok?
    ensures r.Ok? ==> Furthers(p, s, r.value)
    ensures r.Ok? && !changed ==> r.value == s && HasAll(s, additions, |additions|)
    ensures r.Ok? && changed ==> All(s) < All(r.value)
  {
    r := Ok(s);
    changed := false;
    for i := 0 to |additions|
      invariant r.Ok? && Furthers(p, s, r.value)
      invariant !changed ==> r.value == s && HasAll(s, additions, i)
      invariant changed ==> All(s) < All(r.value)
    {
      var more;
      r, more := AddNew(p, s, r.value, additions[i].0, additions[i].1);
      if r.Err? {
        return;
      }
      changed := changed || more;
    }
  }

  lemma {:induction false} GrownTwice(s: State, t: State, u: State)
    requires Grown(s, t) && Grown(t, u)
    ensures Grown(s, u)
  {
    forall key ensures s.Of(key) <= u.Of(key) {
      assert s.Of(key) <= t.Of(key) <= u.Of(key);
    }
  }

  lemma {:induction false} AddedAll(p: Problem, s: State, t: State, key: string, c: Constraint)
    requires AddConstraint(p, s, key, c) == Ok(t)
    ensures All(s) <= All(t) && (!s.Has(key, c) ==> All(s) < All(t))
  {
    AddedIs(p, s, t, key, c);
    forall a | a in All(s) ensures a in All(t) {
      assert a.1 in s.Of(a.0);
    }
    assert (key, c) in All(t);
    if !s.Has(key, c) {
      assert (key, c) !in All(s);
    }
  }

  // ---------- Termination ----------

  /** All paths over some segments, up to a length. */
  ghost function Paths(alphabet: set<Step>, n: nat): set<seq<Step>> {
    if n == 0 then {[]}
    else {[]} + set first, rest | first in alphabet && rest in Paths(alphabet, n - 1) :: [first] + rest
  }

  lemma {:induction false} PathsAre(alphabet: set<Step>, n: nat, path: seq<Step>)
    requires |path| <= n && forall i :: 0 <= i < |path| ==> path[i] in alphabet
    ensures path in Paths(alphabet, n)
  {
    if path != [] {
      PathsAre(alphabet, n - 1, path[1..]);
      assert path == [path[0]] + path[1..];
    }
  }

  ghost function Alphabet(p: Problem, picked: Selection): set<Step> {
    {RootStep(p)}
    + (set key | key in picked :: Step(key, Some(picked[key].version)))
    + set key | key in Keys(p) :: Step(key, None)
  }

  /** Every constraint there can be while these packages are selected: finitely many, cycles or not. */
  ghost function Universe(p: Problem, picked: Selection): set<(string, Constraint)> {
    set key, requirement, path, propagate |
      key in Keys(p) && requirement in Requirements(p)
      && path in Paths(Alphabet(p, picked), MAX_DEPENDENCY_DEPTH + 1) && propagate in {true, false} ::
      (key, Constraint(requirement, path, propagate))
  }

  lemma {:induction false} AllIsBounded(p: Problem, s: State)
    requires Inv(p, s)
    ensures All(s) <= Universe(p, s.picked)
  {
    forall a | a in All(s) ensures a in Universe(p, s.picked) {
      var (key, c) := a;
      assert Fits(p, s, key, c) && s.Has(key, c);
      DerivedIsKnown(p, s, key, c);
      forall i | 0 <= i < |c.path| ensures c.path[i] in Alphabet(p, s.picked) {
        ShapedStep(p, s.picked, key, c, i);
      }
      PathsAre(Alphabet(p, s.picked), MAX_DEPENDENCY_DEPTH + 1, c.path);
      assert c == Constraint(c.requirement, c.path, c.propagate);
    }
  }

  lemma {:induction false} ShapedStep(p: Problem, picked: Selection, key: string, c: Constraint, i: nat)
    requires Shaped(p, picked, key, c) && i < |c.path| && key in Keys(p)
    ensures c.path[i] in Alphabet(p, picked)
  {
    if i == 0 {
      assert c.path[0] == RootStep(p);
    } else if i == |c.path| - 1 {
      assert c.path[i] == Step(key, None);
    } else {
      var step := Middle(c)[i - 1];
      assert c.path[i] == step && step == Step(step.coordinate, Some(picked[step.coordinate].version));
    }
  }

  method AllAdditions(s: State) returns (additions: seq<(string, Constraint)>)
    ensures forall i :: 0 <= i < |additions| ==> PassedOn(s, additions[i].0, additions[i].1)
    ensures HasAll(s, additions, |additions|) ==> NothingNew(s)
  {
    additions := Enumerate(Additions(s));
    AdditionsAre(s);
    assert forall i :: 0 <= i < |additions| ==> additions[i] in Additions(s);
    if HasAll(s, additions, |additions|) {
      forall key, c, from, parent | FromParent(s, key, c, from, parent) ensures s.Has(key, c) {
        assert (key, c) in additions;
      }
    }
  }

  /** Passes on what selected packages need until nothing is new; `None` when a selected package is refused. */
  method Propagate(p: Problem, s0: State) returns (r: Result<Option<State>>)
    requires Inv(p, s0)
    ensures Tractable(p) ==> r.Ok?
    ensures r == Ok(None) ==> Hopeless(p, s0.picked)
    ensures r.Ok? && r.value.Some? ==>
      var t := r.value.value;
      Inv(p, t) && Grown(s0, t) && t.picked == s0.picked && Saturated(p, t)
  {
    var s := s0;
    while true
      invariant Inv(p, s) && Grown(s0, s) && s.picked == s0.picked
      decreases |Universe(p, s0.picked) - All(s)|
    {
      if key :| key in s.picked && !p.Accepts(s.picked[key], s.Of(key)) {
        RefusedIsHopeless(p, s, key);
        return Ok(None);
      }
      var additions := AllAdditions(s);
      var next, changed := AddAll(p, s, additions);
      if next.Err? {
        return Err;
      }
      if !changed {
        return Ok(Some(s));
      }
      AllIsBounded(p, next.value);
      Shrinks(Universe(p, s0.picked), All(s), All(next.value));
      GrownTwice(s0, s, next.value);
      s := next.value;
    }
  }

  lemma {:induction false} Shrinks<T>(whole: set<T>, part: set<T>, more: set<T>)
    requires part < more <= whole
    ensures |whole - more| < |whole - part|
  {
    var x :| x in more && x !in part;
    SubsetSize((whole - more) + {x}, whole - part);
  }

  // ---------- The next package to decide ----------

  function Undecided(s: State): set<string> {
    s.constraints.Keys - s.picked.Keys
  }

  ghost predicate Shortest(constraints: set<Constraint>, d: nat) {
    && (exists c :: c in constraints && |c.path| == d)
    && forall c :: c in constraints ==> d <= |c.path|
  }

  lemma {:induction false} ShortestExists(constraints: set<Constraint>) returns (d: nat)
    requires constraints != {}
    ensures Shortest(constraints, d)
    decreases |constraints|
  {
    var c :| c in constraints;
    d := |c.path|;
    if constraints != {c} {
      var e := ShortestExists(constraints - {c});
      if e < d {
        d := e;
      }
    }
  }

  /** The length of the shortest provenance path to a package. */
  ghost function Depth(constraints: set<Constraint>): (d: nat)
    requires constraints != {}
    ensures Shortest(constraints, d)
  {
    assert exists d :: Shortest(constraints, d) by {
      var d := ShortestExists(constraints);
    }
    var d :| Shortest(constraints, d);
    d
  }

  method ConstraintDepth(constraints: set<Constraint>) returns (d: nat)
    requires constraints != {}
    ensures d == Depth(constraints)
  {
    var all := Enumerate(constraints);
    assert all != [];
    d := |all[0].path|;
    for i := 1 to |all|
      invariant exists j :: 0 <= j < i && |all[j].path| == d
      invariant forall j :: 0 <= j < i ==> d <= |all[j].path|
    {
      if |all[i].path| < d {
        d := |all[i].path|;
      }
    }
    assert Shortest(constraints, d);
  }

  /** Every package in the state was asked for. */
  ghost predicate AskedFor(s: State) {
    forall key :: key in s.constraints ==> s.constraints[key] != {}
  }

  lemma {:induction false} AllAskedFor(p: Problem, s: State)
    requires Inv(p, s)
    ensures AskedFor(s)
  {
    forall key | key in s.constraints ensures s.constraints[key] != {} {
      assert Expanded(p, s, key);
    }
  }

  /** Shallower packages come first, and among them the smaller name. */
  ghost predicate Before(s: State, key: string, other: string)
    requires AskedFor(s) && key in s.constraints && other in s.constraints
  {
    var (d, e) := (Depth(s.constraints[key]), Depth(s.constraints[other]));
    d < e || (d == e && (key == other || Below(key, other)))
  }

  method UnresolvedKey(s: State) returns (next: Option<string>)
    requires AskedFor(s)
    ensures next.None? <==> Undecided(s) == {}
    ensures next.Some? ==>
      next.value in Undecided(s) && forall key :: key in Undecided(s) ==> Before(s, next.value, key)
  {
    var keys := Enumerate(Undecided(s));
    if keys == [] {
      return None;
    }
    assert forall j :: 0 <= j < |keys| ==> keys[j] in Undecided(s);
    var best := keys[0];
    var depth := ConstraintDepth(s.constraints[best]);
    for i := 1 to |keys|
      invariant best in Undecided(s) && depth == Depth(s.constraints[best])
      invariant forall j :: 0 <= j < i ==> Before(s, best, keys[j])
    {
      var key := keys[i];
      var d := ConstraintDepth(s.constraints[key]);
      BelowTotal(key, best);
      if d < depth || (d == depth && Below(key, best)) {
        forall j | 0 <= j < i ensures Before(s, key, keys[j]) {
          if Below(key, best) && Below(best, keys[j]) {
            BelowTransitive(key, best, keys[j]);
          }
        }
        best, depth := key, d;
      }
    }
    return Some(best);
  }

  predicate AllMatch(p: Problem, scheme: string, version: string, constraints: set<Constraint>) {
    forall c :: c in constraints ==> p.matches(scheme, c.requirement, version)
  }

  function FirstMatching(p: Problem, package: Package, i: nat, constraints: set<Constraint>): Option<string>
    requires i <= |package.versions|
    decreases |package.versions| - i
  {
    if i == |package.versions| then None
    else if AllMatch(p, package.scheme, package.versions[i], constraints) then Some(package.versions[i])
    else FirstMatching(p, package, i + 1, constraints)
  }

  /** The package is there, and so is the version that would be tried first. */
  predicate Fetchable(p: Problem, key: string, constraints: set<Constraint>) {
    key in p.packages &&
      var version := FirstMatching(p, p.packages[key], 0, constraints);
      version.Some? ==> (key, version.value) in p.releases
  }

  lemma {:induction false} FirstMatchingIsPublished(p: Problem, package: Package, i: nat, constraints: set<Constraint>)
    requires i <= |package.versions|
    ensures var version := FirstMatching(p, package, i, constraints);
      version.Some? ==> version.value in package.versions
    decreases |package.versions| - i
  {
    if i < |package.versions| {
      FirstMatchingIsPublished(p, package, i + 1, constraints);
    }
  }

  /** An undecided package that no other one precedes in depth; the workspace does not have it. */
  ghost predicate OnFrontier(p: Problem, s: State, key: string)
    requires AskedFor(s)
  {
    && key in Undecided(s) && key !in p.members
    && forall other :: other in Undecided(s) ==> Depth(s.constraints[key]) <= Depth(s.constraints[other])
  }

  ghost predicate Fetched(p: Problem, s: State, key: string)
    requires AskedFor(s)
  {
    OnFrontier(p, s, key) ==> Fetchable(p, key, s.constraints[key])
  }

  /** Fetches ahead what the shallowest undecided packages will probably need. */
  method PrefetchFrontier(p: Problem, s: State) returns (ok: bool)
    requires AskedFor(s)
    ensures ok <==> forall key :: Fetched(p, s, key)
  {
    var next := UnresolvedKey(s);
    if next.None? {
      return true;
    }
    var depth := ConstraintDepth(s.constraints[next.value]);
    var keys := Enumerate(Undecided(s));
    for i := 0 to |keys|
      invariant forall j :: 0 <= j < i ==> Fetched(p, s, keys[j])
    {
      var key := keys[i];
      assert key in keys && key in Undecided(s);
      var d := ConstraintDepth(s.constraints[key]);
      if d == depth && key !in p.members && !Fetchable(p, key, s.constraints[key]) {
        assert OnFrontier(p, s, key) && !Fetched(p, s, key);
        return false;
      }
      assert Fetched(p, s, key);
    }
    ok := true;
  }

  lemma {:induction false} UndecidedIsKnown(p: Problem, s: State, key: string)
    requires Tractable(p) && Inv(p, s) && key in s.constraints
    ensures Known(p, key)
  {
    var keys :| Spans(p, keys) && AllKnown(p, keys);
    SpannedKeys(p, s, keys);
  }

  lemma {:induction false} WithinLimitsAllIsFetched(p: Problem, s: State)
    requires Tractable(p) && Inv(p, s) && AskedFor(s)
    ensures forall key :: Fetched(p, s, key)
  {
    forall key ensures Fetched(p, s, key) {
      if OnFrontier(p, s, key) {
        UndecidedIsKnown(p, s, key);
        FirstMatchingIsPublished(p, p.packages[key], 0, s.constraints[key]);
      }
    }
  }

  // ---------- The search ----------

  /** Every resolution with these picks has the package. */
  ghost predicate Needs(p: Problem, picked: Selection, key: string) {
    forall selection: Selection :: Extends(p, picked, selection) ==> key in selection
  }

  /** No resolution with these picks has this version of it. */
  ghost predicate Excluded(p: Problem, picked: Selection, key: string, version: string) {
    forall selection: Selection :: Extends(p, picked, selection) && key in selection ==>
      selection[key].version != version
  }

  /** The pick is the workspace's, or the highest version that is not excluded by the picks before. */
  ghost predicate Best(p: Problem, picked: Selection, key: string, pick: Pick) {
    key in p.members || BestVersion(p, picked, key, pick.version)
  }

  ghost predicate BestVersion(p: Problem, picked: Selection, key: string, version: string) {
    && key in p.packages
    && exists i :: 0 <= i < |p.packages[key].versions| && p.packages[key].versions[i] == version
                   && AllExcluded(p, picked, key, p.packages[key].versions[..i])
  }

  ghost predicate AllExcluded(p: Problem, picked: Selection, key: string, versions: seq<string>) {
    forall version :: version in versions ==> Excluded(p, picked, key, version)
  }

  /** Everything is passed on, and the package is the first of the undecided ones. */
  ghost predicate Comes(p: Problem, s: State, key: string) {
    && Inv(p, s) && Saturated(p, s) && AskedFor(s) && key in Undecided(s)
    && forall other :: other in Undecided(s) ==> Before(s, key, other)
  }

  datatype Decision = Decision(state: State, key: string)

  /** The packages were decided in this order, each the first that was undecided. */
  ghost predicate Decided(p: Problem, picked: Selection, trail: seq<Decision>, final: Selection)
    decreases |trail|
  {
    if trail == [] then picked == final
    else
      && trail[0].state.picked == picked && Comes(p, trail[0].state, trail[0].key)
      && trail[0].key in final && Needs(p, picked, trail[0].key)
      && Best(p, picked, trail[0].key, final[trail[0].key])
      && Decided(p, picked[trail[0].key := final[trail[0].key]], trail[1..], final)
  }

  lemma {:induction false} ConstrainedIsNeeded(p: Problem, s: State, key: string)
    requires Inv(p, s) && key in s.constraints
    ensures Needs(p, s.picked, key)
  {
    assert Expanded(p, s, key);
    var c :| s.Has(key, c);
    forall selection: Selection | Extends(p, s.picked, selection) ensures key in selection {
      ConstraintHolds(p, s, selection, key, c);
    }
  }

  lemma {:induction false} ExtendsMore(p: Problem, picked: Selection, selection: Selection, key: string)
    requires Extends(p, picked, selection) && key in selection
    ensures Extends(p, picked[key := selection[key]], selection)
    ensures if key in p.members then selection[key] == p.members[key]
      else p.Offers(key, selection[key].version) && selection[key] == p.Offered(key, selection[key].version)
  {
    assert p.Available(key, selection[key]);
  }

  lemma {:induction false} RefusedMemberIsHopeless(p: Problem, s: State, key: string)
    requires Inv(p, s) && key in s.constraints && key in p.members && !p.Accepts(p.members[key], s.Of(key))
    ensures Hopeless(p, s.picked)
  {
    var c :| c in s.Of(key) && !p.Satisfies(p.members[key], c.requirement);
    forall selection: Selection ensures !Extends(p, s.picked, selection) {
      if Extends(p, s.picked, selection) {
        ConstraintHolds(p, s, selection, key, c);
      }
    }
  }

  lemma {:induction false} HopelessMemberIsHopeless(p: Problem, s: State, key: string)
    requires Inv(p, s) && key in s.constraints && key in p.members
    requires Hopeless(p, s.picked[key := p.members[key]])
    ensures Hopeless(p, s.picked)
  {
    ConstrainedIsNeeded(p, s, key);
    forall selection: Selection ensures !Extends(p, s.picked, selection) {
      if Extends(p, s.picked, selection) {
        ExtendsMore(p, s.picked, selection, key);
      }
    }
  }

  lemma {:induction false} MismatchIsExcluded(p: Problem, s: State, key: string, version: string)
    requires Inv(p, s) && key in p.packages && key !in p.members
    requires !AllMatch(p, p.packages[key].scheme, version, s.Of(key))
    ensures Excluded(p, s.picked, key, version)
  {
    var c :| c in s.Of(key) && !p.matches(p.packages[key].scheme, c.requirement, version);
    forall selection: Selection | Extends(p, s.picked, selection) && key in selection
      ensures selection[key].version != version
    {
      ConstraintHolds(p, s, selection, key, c);
    }
  }

  lemma {:induction false} WithdrawnIsExcluded(p: Problem, picked: Selection, key: string, version: string)
    requires key !in p.members && !p.Offers(key, version)
    ensures Excluded(p, picked, key, version)
  {
  }

  lemma {:induction false} HopelessIsExcluded(p: Problem, picked: Selection, key: string, version: string)
    requires key !in p.members && p.Offers(key, version) && key !in picked
    requires Hopeless(p, picked[key := p.Offered(key, version)])
    ensures Excluded(p, picked, key, version)
  {
    forall selection: Selection | Extends(p, picked, selection) && key in selection
      ensures selection[key].version != version
    {
      if selection[key].version == version {
        ExtendsMore(p, picked, selection, key);
      }
    }
  }

  lemma {:induction false} OneMoreExcluded(p: Problem, picked: Selection, key: string, versions: seq<string>, i: nat)
    requires i < |versions| && AllExcluded(p, picked, key, versions[..i]) && Excluded(p, picked, key, versions[i])
    ensures AllExcluded(p, picked, key, versions[..i + 1])
  {
    assert versions[..i + 1] == versions[..i] + [versions[i]];
  }

  lemma {:induction false} AllExcludedIsHopeless(p: Problem, picked: Selection, key: string)
    requires key !in p.members && key in p.packages && Needs(p, picked, key)
    requires AllExcluded(p, picked, key, p.packages[key].versions)
    ensures Hopeless(p, picked)
  {
    forall selection: Selection ensures !Extends(p, picked, selection) {
      if Extends(p, picked, selection) {
        ExtendsMore(p, picked, selection, key);
      }
    }
  }

  /** The search is over: everything that is asked for is selected, and nothing more is passed on. */
  ghost predicate Finished(p: Problem, t: State) {
    Inv(p, t) && Saturated(p, t) && Undecided(t) == {}
  }

  /** What the search promises from a state on. */
  ghost predicate Answers(p: Problem, picked: Selection, r: Result<Option<State>>) {
    && (Tractable(p) ==> r.Ok?)
    && (r == Ok(None) ==> Hopeless(p, picked))
    && (r.Ok? && r.value.Some? ==> Finished(p, r.value.value))
  }

  /** And how it came there. */
  ghost predicate Follows(p: Problem, picked: Selection, r: Result<Option<State>>, trail: seq<Decision>) {
    r.Ok? && r.value.Some? ==> Decided(p, picked, trail, r.value.value.picked)
  }

  lemma {:induction false} DecidedKeeps(
      p: Problem, picked: Selection, trail: seq<Decision>, final: Selection, key: string)
    requires Decided(p, picked, trail, final) && key in picked
    ensures key in final && final[key] == picked[key]
    decreases |trail|
  {
    if trail != [] {
      DecidedKeeps(p, picked[trail[0].key := final[trail[0].key]], trail[1..], final, key);
    }
  }

  lemma {:induction false} FollowsBefore(
      p: Problem, s: State, key: string, pick: Pick, r: Result<Option<State>>, trail: seq<Decision>)
    requires Comes(p, s, key) && Needs(p, s.picked, key) && Best(p, s.picked, key, pick)
    requires Follows(p, s.picked[key := pick], r, trail)
    ensures Follows(p, s.picked, r, [Decision(s, key)] + trail)
  {
    if r.Ok? && r.value.Some? {
      var final := r.value.value.picked;
      DecidedKeeps(p, s.picked[key := pick], trail, final, key);
      assert ([Decision(s, key)] + trail)[1..] == trail;
    }
  }

  /** Decides one package after another, highest version first, and goes back when that fails. */
  method Solve(p: Problem, s0: State) returns (r: Result<Option<State>>, ghost trail: seq<Decision>)
    requires Inv(p, s0) && |s0.picked| <= MAX_GRAPH_COORDINATES
    ensures Answers(p, s0.picked, r)
    ensures Follows(p, s0.picked, r, trail)
    decreases MAX_GRAPH_COORDINATES - |s0.picked|, 2
  {
    trail := [];
    r := Propagate(p, s0);
    if r.Err? || r.value.None? {
      return;
    }
    var s := r.value.value;
    AllAskedFor(p, s);
    if Tractable(p) {
      WithinLimitsAllIsFetched(p, s);
    }
    var fetched := PrefetchFrontier(p, s);
    if !fetched {
      return Err, [];
    }
    var next := UnresolvedKey(s);
    if next.None? {
      return;
    }
    ConstrainedIsNeeded(p, s, next.value);
    if next.value in p.members {
      r, trail := SolveMember(p, s, next.value);
    } else {
      if Tractable(p) {
        UndecidedIsKnown(p, s, next.value);
      }
      r, trail := SolveVersions(p, s, next.value);
    }
  }

  /** A package that the workspace has. */
  method SolveMember(p: Problem, s: State, key: string) returns (r: Result<Option<State>>, ghost trail: seq<Decision>)
    requires Comes(p, s, key) && key in p.members && Needs(p, s.picked, key)
    ensures Answers(p, s.picked, r)
    ensures Follows(p, s.picked, r, trail)
    decreases MAX_GRAPH_COORDINATES - |s.picked|, 0
  {
    if !p.Accepts(p.members[key], s.Of(key)) {
      RefusedMemberIsHopeless(p, s, key);
      return Ok(None), [];
    }
    PickKeepsInv(p, s, key, p.members[key]);
    r, trail := Solve(p, WithPick(s, key, p.members[key]));
    if r == Ok(None) {
      HopelessMemberIsHopeless(p, s, key);
    } else {
      FollowsBefore(p, s, key, p.members[key], r, trail);
      trail := [Decision(s, key)] + trail;
    }
  }

  /** A package of the registry: its versions one after the other. */
  method SolveVersions(p: Problem, s: State, key: string) returns (r: Result<Option<State>>, ghost trail: seq<Decision>)
    requires Comes(p, s, key) && key !in p.members && Needs(p, s.picked, key)
    requires Tractable(p) ==> Published(p, key)
    ensures Answers(p, s.picked, r)
    ensures Follows(p, s.picked, r, trail)
    decreases MAX_GRAPH_COORDINATES - |s.picked|, 1
  {
    r, trail := Err, [];
    if key !in p.packages {
      return;
    }
    var versions := p.packages[key].versions;
    for i := 0 to |versions|
      invariant AllExcluded(p, s.picked, key, versions[..i])
    {
      r, trail := SolveVersion(p, s, key, versions[i]);
      if r != Ok(None) {
        if r.Ok? {
          assert BestVersion(p, s.picked, key, versions[i]);
          FollowsBefore(p, s, key, p.Offered(key, versions[i]), r, trail);
        }
        trail := [Decision(s, key)] + trail;
        return;
      }
      OneMoreExcluded(p, s.picked, key, versions, i);
    }
    assert versions[..|versions|] == versions;
    AllExcludedIsHopeless(p, s.picked, key);
    r := Ok(None);
  }

  method SolveVersion(p: Problem, s: State, key: string, version: string)
    returns (r: Result<Option<State>>, ghost trail: seq<Decision>)
    requires Inv(p, s) && key in Undecided(s) && key !in p.members && key in p.packages
    requires version in p.packages[key].versions
    requires Tractable(p) ==> Published(p, key)
    ensures Tractable(p) ==> r.Ok?
    ensures r == Ok(None) ==> Excluded(p, s.picked, key, version)
    ensures r.Ok? && r.value.Some? ==> p.Offers(key, version) && Finished(p, r.value.value)
    ensures r.Ok? && r.value.Some? ==> Follows(p, s.picked[key := p.Offered(key, version)], r, trail)
    decreases MAX_GRAPH_COORDINATES - |s.picked|, 0
  {
    if !AllMatch(p, p.packages[key].scheme, version, s.Of(key)) {
      MismatchIsExcluded(p, s, key, version);
      return Ok(None), [];
    }
    if (key, version) !in p.releases {
      return Err, [];
    }
    if p.releases[(key, version)].yanked {
      WithdrawnIsExcluded(p, s.picked, key, version);
      return Ok(None), [];
    }
    var pick := p.Offered(key, version);
    PickKeepsInv(p, s, key, pick);
    r, trail := Solve(p, WithPick(s, key, pick));
    if r == Ok(None) {
      HopelessIsExcluded(p, s.picked, key, version);
    }
  }

  // ---------- What an answer is ----------

  lemma {:induction false} AnswerIsResolution(p: Problem, t: State)
    requires Finished(p, t)
    ensures Resolution(p, t.picked)
  {
    forall key | key in p.dependencies
      ensures key in t.picked && p.Satisfies(t.picked[key], p.dependencies[key])
    {
      assert t.Has(key, RootConstraint(p, key)) && key !in Undecided(t);
    }
    forall key | key in t.picked && Brings(p, key) ensures ClosedAt(p, t.picked, key) {
      AnswerIsClosed(p, t, key);
    }
  }

  lemma {:induction false} AnswerIsClosed(p: Problem, t: State, key: string)
    requires Finished(p, t) && key in t.picked && Brings(p, key)
    ensures ClosedAt(p, t.picked, key)
  {
    assert Expanded(p, t, key);
    var parent :| t.Has(key, parent) && parent.propagate;
    forall d | d in t.picked[key].dependencies
      ensures d in t.picked && p.Satisfies(t.picked[d], t.picked[key].dependencies[d])
    {
      var c := ChildConstraint(parent, key, t.picked[key].version, d, t.picked[key].dependencies[d]);
      assert FromParent(t, d, c, key, parent);
      assert t.Has(d, c) && d !in Undecided(t);
    }
  }

  /** The package is reached from the project over dependencies of selected packages, in at most `n` steps. */
  ghost predicate Reached(p: Problem, selection: Selection, key: string, n: nat)
    decreases n, 1
  {
    (n > 0 && key in p.dependencies) || exists from :: ReachedFrom(p, selection, key, from, n)
  }

  ghost predicate ReachedFrom(p: Problem, selection: Selection, key: string, from: string, n: nat)
    decreases n, 0
  {
    && n > 0 && from in selection && key in selection[from].dependencies && Brings(p, from)
    && Reached(p, selection, from, n - 1)
  }

  /** Nothing is selected that nothing needs. */
  ghost predicate OnlyNeeded(p: Problem, selection: Selection) {
    forall key :: key in selection ==> exists n :: Reached(p, selection, key, n)
  }

  lemma {:induction false} ConstrainedIsReached(p: Problem, s: State, key: string, c: Constraint)
    requires Inv(p, s) && s.Has(key, c)
    ensures Reached(p, s.picked, key, |c.path|)
    decreases |c.path|
  {
    assert Fits(p, s, key, c);
    if !(key in p.dependencies && c == RootConstraint(p, key)) {
      var from, parent :| FromParent(s, key, c, from, parent);
      assert Fits(p, s, from, parent) && |c.path| == |parent.path| + 1;
      ConstrainedIsReached(p, s, from, parent);
      assert ReachedFrom(p, s.picked, key, from, |c.path|);
    }
  }

  lemma {:induction false} AnswerIsNeeded(p: Problem, t: State)
    requires Finished(p, t)
    ensures OnlyNeeded(p, t.picked)
  {
    forall key | key in t.picked ensures exists n :: Reached(p, t.picked, key, n) {
      assert Expanded(p, t, key);
      var c :| t.Has(key, c);
      ConstrainedIsReached(p, t, key, c);
    }
  }

  ghost predicate Agree(left: Selection, right: Selection, key: string) {
    key in left && key in right && left[key] == right[key]
  }

  /** The second version is not listed up to the first. */
  ghost predicate ComesAfter(p: Problem, key: string, first: string, second: string) {
    && key in p.packages
    && exists i :: 0 <= i < |p.packages[key].versions| && p.packages[key].versions[i] == first
                   && second !in p.packages[key].versions[..i + 1]
  }

  /** Up to decision `i` they agree, and there `other` has a version that comes after the chosen one. */
  ghost predicate DiffersFirst(p: Problem, trail: seq<Decision>, final: Selection, other: Selection, i: nat) {
    && i < |trail| && (forall j :: 0 <= j < i ==> Agree(final, other, trail[j].key))
    && trail[i].key in final && trail[i].key in other
    && ComesAfter(p, trail[i].key, final[trail[i].key].version, other[trail[i].key].version)
  }

  /** No resolution is better: one that does not contain the answer is lower where it first differs. */
  ghost predicate Highest(p: Problem, trail: seq<Decision>, final: Selection, other: Selection) {
    (forall key :: key in final ==> Agree(final, other, key)) || exists i :: DiffersFirst(p, trail, final, other, i)
  }

  lemma {:induction false} HighestFirst(
      p: Problem, picked: Selection, trail: seq<Decision>, final: Selection, other: Selection)
    requires Decided(p, picked, trail, final) && Resolution(p, final) && Extends(p, picked, other)
    ensures Highest(p, trail, final, other)
    decreases |trail|
  {
    if trail != [] {
      var key := trail[0].key;
      if other[key] == final[key] {
        HighestFirst(p, picked[key := final[key]], trail[1..], final, other);
        if i :| DiffersFirst(p, trail[1..], final, other, i) {
          Shifted(p, trail, final, other, i);
        }
      } else {
        OtherComesAfter(p, picked, key, final[key], other);
        assert DiffersFirst(p, trail, final, other, 0);
      }
    }
  }

  lemma {:induction false} Shifted(p: Problem, trail: seq<Decision>, final: Selection, other: Selection, i: nat)
    requires trail != [] && DiffersFirst(p, trail[1..], final, other, i) && Agree(final, other, trail[0].key)
    ensures DiffersFirst(p, trail, final, other, i + 1)
  {
    forall j | 0 <= j < i + 1 ensures Agree(final, other, trail[j].key) {
      if j > 0 {
        assert trail[1..][j - 1] == trail[j];
      }
    }
  }

  lemma {:induction false} OtherComesAfter(p: Problem, picked: Selection, key: string, pick: Pick, other: Selection)
    requires Needs(p, picked, key) && Best(p, picked, key, pick) && p.Available(key, pick)
    requires Extends(p, picked, other) && key in other && other[key] != pick
    ensures ComesAfter(p, key, pick.version, other[key].version)
  {
    ExtendsMore(p, picked, other, key);
    var versions := p.packages[key].versions;
    var i :| 0 <= i < |versions| && versions[i] == pick.version && AllExcluded(p, picked, key, versions[..i]);
    assert Excluded(p, picked, key, other[key].version) <== other[key].version in versions[..i];
    NotUpTo(versions, i, other[key].version);
  }

  lemma {:induction false} NotUpTo(versions: seq<string>, i: nat, version: string)
    requires i < |versions| && version !in versions[..i] && version != versions[i]
    ensures version !in versions[..i + 1]
  {
    assert versions[..i + 1] == versions[..i] + [versions[i]];
  }

  // ---------- The whole resolution ----------

  /** A project that depends on itself asks for what was published, not for its own tree. */
  function Effective(p: Problem): Problem {
    if p.root in p.dependencies then p.(members := p.members - {p.root}) else p
  }

  function RootConstraints(p: Problem, keys: set<string>): State
    requires keys <= p.dependencies.Keys
  {
    State(map key | key in keys :: {RootConstraint(p, key)}, map[])
  }

  /** What the project itself asks for. */
  method Start(p: Problem) returns (r: Result<State>)
    ensures r.Ok? <==>
      (forall key :: key in p.dependencies ==> p.validKey(key)) && |p.dependencies| <= MAX_GRAPH_COORDINATES
    ensures r.Ok? ==> r.value == RootConstraints(p, p.dependencies.Keys)
  {
    var s := RootConstraints(p, {});
    var todo := p.dependencies.Keys;
    ghost var done: set<string> := {};
    while todo != {}
      invariant todo == p.dependencies.Keys - done && done <= p.dependencies.Keys
      invariant s == RootConstraints(p, done)
      invariant |done| <= MAX_GRAPH_COORDINATES && forall key :: key in done ==> p.validKey(key)
      decreases |todo|
    {
      var key :| key in todo;
      StartStep(p, done, key);
      r := AddConstraint(p, s, key, RootConstraint(p, key));
      if r.Err? {
        return;
      }
      s, todo, done := r.value, todo - {key}, done + {key};
    }
    assert done == p.dependencies.Keys;
    r := Ok(s);
  }

  lemma {:induction false} StartStep(p: Problem, done: set<string>, key: string)
    requires done <= p.dependencies.Keys && key in p.dependencies && key !in done && |done| <= MAX_GRAPH_COORDINATES
    ensures AddConstraint(p, RootConstraints(p, done), key, RootConstraint(p, key)) ==
      if p.validKey(key) && |done| < MAX_GRAPH_COORDINATES then Ok(RootConstraints(p, done + {key})) else Err
    ensures |done| < |p.dependencies|
  {
    var s := RootConstraints(p, done);
    assert s.constraints.Keys == done && |s.constraints| == |s.constraints.Keys|;
    assert s.constraints[key := {RootConstraint(p, key)}] == RootConstraints(p, done + {key}).constraints;
    assert s.Of(key) + {RootConstraint(p, key)} == {RootConstraint(p, key)};
    SubsetSize(done + {key}, p.dependencies.Keys);
    assert |p.dependencies| == |p.dependencies.Keys|;
  }

  lemma {:induction false} StartKeepsInv(p: Problem)
    requires |p.dependencies| <= MAX_GRAPH_COORDINATES
    ensures Inv(p, RootConstraints(p, p.dependencies.Keys))
  {
    var s := RootConstraints(p, p.dependencies.Keys);
    assert s.constraints.Keys == p.dependencies.Keys;
    forall key, c ensures Fits(p, s, key, c) {
      if s.Has(key, c) {
        assert Middle(c) == [];
      }
    }
    forall key | key in s.constraints ensures Expanded(p, s, key) {
      assert s.Has(key, RootConstraint(p, key));
    }
  }

  lemma {:induction false} WithinLimitsItStarts(p: Problem)
    requires Tractable(p)
    ensures (forall key :: key in p.dependencies ==> p.validKey(key)) && |p.dependencies| <= MAX_GRAPH_COORDINATES
  {
    var keys :| Spans(p, keys) && AllKnown(p, keys);
    SubsetSize(p.dependencies.Keys, keys);
    forall key | key in p.dependencies ensures p.validKey(key) {
      assert Known(p, key);
    }
    assert |p.dependencies| == |p.dependencies.Keys|;
  }

  /** A resolution without anything that nobody needs. */
  ghost predicate Fitting(p: Problem, selection: Selection) {
    Resolution(p, selection) && OnlyNeeded(p, selection)
  }

  /** It was decided shallowest first, and there is no better one. */
  ghost predicate IsBest(p: Problem, selection: Selection, trail: seq<Decision>) {
    && Decided(p, map[], trail, selection)
    && forall other: Selection :: Resolution(p, other) ==> Highest(p, trail, selection, other)
  }

  /** A selection fits, `None` means that there is none, and within the limits it is one or the other. */
  ghost predicate Resolves(p: Problem, r: Result<Option<Selection>>) {
    && (r.Ok? && r.value.Some? ==> Fitting(p, r.value.value))
    && (r == Ok(None) ==> forall selection :: !Resolution(p, selection))
    && (Tractable(p) ==> r.Ok?)
  }

  /** Resolves a project's dependencies. */
  method SolveInstall(p: Problem) returns (r: Result<Option<Selection>>, ghost trail: seq<Decision>)
    ensures Resolves(Effective(p), r)
    ensures r.Ok? && r.value.Some? ==> IsBest(Effective(p), r.value.value, trail)
    ensures Tractable(Effective(p)) ==>
      r.Ok? && (r.value.Some? <==> exists selection :: Resolution(Effective(p), selection))
  {
    var q := Effective(p);
    trail := [];
    if p.dependencies == map[] {
      r := Ok(Some(map[]));
      assert Resolution(q, map[]);
      return;
    }
    if Tractable(q) {
      WithinLimitsItStarts(q);
    }
    var start := Start(q);
    if start.Err? {
      return Err, [];
    }
    StartKeepsInv(q);
    var solved;
    solved, trail := Solve(q, start.value);
    if solved.Err? {
      return Err, trail;
    }
    if solved.value.None? {
      FromNothing(q);
      return Ok(None), trail;
    }
    var t := solved.value.value;
    AnswerIsResolution(q, t);
    AnswerIsNeeded(q, t);
    assert IsBest(q, t.picked, trail) by {
      forall other: Selection | Resolution(q, other) ensures Highest(q, trail, t.picked, other) {
        HighestFirst(q, map[], trail, t.picked, other);
      }
    }
    r := Ok(Some(t.picked));
  }

  lemma {:induction false} FromNothing(p: Problem)
    requires Hopeless(p, map[])
    ensures forall selection :: !Resolution(p, selection)
  {
    forall selection ensures !Resolution(p, selection) {
      assert !Extends(p, map[], selection);
    }
  }

  // ---------- A cycle through the project itself ----------

  ghost predicate ClosedEverywhere(p: Problem, selection: Selection) {
    forall key :: key in selection ==> ClosedAt(p, selection, key)
  }

  /** Another registry and another workspace around the same project. */
  ghost predicate SameProject(p: Problem, q: Problem) {
    && q.root == p.root && q.rootVersion == p.rootVersion && q.dependencies == p.dependencies
    && q.matches == p.matches && q.validKey == p.validKey
  }

  /** What this version of the project needs is what the project asks for anyway, or the version itself. */
  ghost predicate Covered(p: Problem, own: Pick) {
    forall key :: key in own.dependencies ==> CoveredAt(p, own, key, own.dependencies[key])
  }

  ghost predicate CoveredAt(p: Problem, own: Pick, key: string, requirement: string) {
    if key == p.root then p.Satisfies(own, requirement)
    else key in p.dependencies && Implies(p, p.dependencies[key], requirement)
  }

  ghost predicate Implies(p: Problem, requirement: string, other: string) {
    forall pick :: p.Satisfies(pick, requirement) ==> p.Satisfies(pick, other)
  }

  ghost predicate Satisfiable(p: Problem, requirement: string) {
    exists pick :: p.Satisfies(pick, requirement)
  }

  /** A cycle can lead to this version: every requirement can be met, and somebody may require this. */
  ghost predicate CanReturn(p: Problem, own: Pick) {
    && p.root !in p.dependencies && p.dependencies != map[]
    && (forall key :: key in p.dependencies ==> Satisfiable(p, p.dependencies[key]))
    && exists requirement :: p.Satisfies(own, requirement)
  }

  ghost predicate SelectsOwn(q: Problem, own: Pick, selection: Selection) {
    q.root in selection && selection[q.root] == own
  }

  /** Whatever the registry and the workspace hold, what selects this version has all that it needs. */
  ghost predicate AlwaysClosed(p: Problem, own: Pick) {
    forall q, selection :: SameProject(p, q) && Fitting(q, selection) && SelectsOwn(q, own, selection) ==>
      ClosedEverywhere(q, selection)
  }

  /** Something can be selected, but only this version, and only without something that it needs. */
  ghost predicate NeverClosed(q: Problem, own: Pick) {
    && (exists selection :: Fitting(q, selection))
    && forall selection :: Resolution(q, selection) ==> SelectsOwn(q, own, selection) && !ClosedEverywhere(q, selection)
  }

  /**
   A cycle back to the project is harmless exactly if the version it would select asks for nothing new or no cycle can
   lead to it.  Otherwise there is a workspace in which every answer lacks something.
   */
  lemma {:induction false} OwnCycleIsClosedExactly(p: Problem, own: Pick)
    ensures Covered(p, own) || !CanReturn(p, own) <==> AlwaysClosed(p, own)
    ensures !AlwaysClosed(p, own) ==> exists q :: SameProject(p, q) && NeverClosed(q, own)
  {
    if Covered(p, own) || !CanReturn(p, own) {
      forall q, selection | SameProject(p, q) && Fitting(q, selection) && SelectsOwn(q, own, selection)
        ensures ClosedEverywhere(q, selection)
      {
        HarmlessIsClosed(p, own, q, selection);
      }
    } else {
      var key :| key in own.dependencies && !CoveredAt(p, own, key, own.dependencies[key]);
      var requirement :| p.Satisfies(own, requirement);
      var q := Uncovering(p, own, key, requirement);
      UncoveringIsOpen(p, own, key, requirement);
      var selection :| Fitting(q, selection);
      assert SelectsOwn(q, own, selection) && !ClosedEverywhere(q, selection);
    }
  }

  lemma {:induction false} HarmlessIsClosed(p: Problem, own: Pick, q: Problem, selection: Selection)
    requires Covered(p, own) || !CanReturn(p, own)
    requires SameProject(p, q) && Fitting(q, selection) && SelectsOwn(q, own, selection)
    ensures ClosedEverywhere(q, selection)
  {
    if p.root !in p.dependencies {
      if Covered(p, own) {
        CoveredIsClosed(p, own, q, selection);
      } else {
        SelectedCanReturn(p, own, q, selection);
      }
    }
  }

  lemma {:induction false} CoveredIsClosed(p: Problem, own: Pick, q: Problem, selection: Selection)
    requires Covered(p, own) && SameProject(p, q) && Resolution(q, selection) && SelectsOwn(q, own, selection)
    ensures ClosedEverywhere(q, selection)
  {
    forall key | key in selection ensures ClosedAt(q, selection, key) {
      if !Brings(q, key) {
        forall d | d in own.dependencies ensures d in selection && q.Satisfies(selection[d], own.dependencies[d]) {
          assert CoveredAt(p, own, d, own.dependencies[d]);
          assert d != p.root ==> p.Satisfies(selection[d], q.dependencies[d]);
        }
      }
    }
  }

  /** What is selected because of a cycle is what a cycle can lead to. */
  lemma {:induction false} SelectedCanReturn(p: Problem, own: Pick, q: Problem, selection: Selection)
    requires SameProject(p, q) && Fitting(q, selection) && SelectsOwn(q, own, selection)
    requires p.root !in p.dependencies
    ensures CanReturn(p, own)
  {
    forall key | key in p.dependencies ensures Satisfiable(p, p.dependencies[key]) {
      assert p.Satisfies(selection[key], p.dependencies[key]);
    }
    var n: nat :| Reached(q, selection, q.root, n);
    var from := AskedBySomebody(q, selection, q.root, n);
    assert ClosedAt(q, selection, from);
    assert p.Satisfies(own, selection[from].dependencies[q.root]);
    SomethingAsked(q, selection, from, n - 1);
  }

  lemma {:induction false} AskedBySomebody(p: Problem, selection: Selection, key: string, n: nat) returns (from: string)
    requires Reached(p, selection, key, n) && key !in p.dependencies
    ensures ReachedFrom(p, selection, key, from, n)
  {
    from :| ReachedFrom(p, selection, key, from, n);
  }

  lemma {:induction false} SomethingAsked(p: Problem, selection: Selection, key: string, n: nat)
    requires Reached(p, selection, key, n)
    ensures p.dependencies != map[]
    decreases n
  {
    if key !in p.dependencies {
      var from := AskedBySomebody(p, selection, key, n);
      SomethingAsked(p, selection, from, n - 1);
    }
  }

  /** Some version that meets the requirement. */
  ghost function Meeting(p: Problem, requirement: string): (pick: Pick)
    requires Satisfiable(p, requirement)
    ensures p.Satisfies(pick, requirement)
  {
    var pick: Pick :| p.Satisfies(pick, requirement);
    pick
  }

  /** Some version that meets the requirement, but not the other one, if there is one. */
  ghost function Telling(p: Problem, requirement: string, other: string): (pick: Pick)
    requires Satisfiable(p, requirement)
    ensures p.Satisfies(pick, requirement)
    ensures p.Satisfies(pick, other) ==> Implies(p, requirement, other)
  {
    if Implies(p, requirement, other) then Meeting(p, requirement)
    else
      var pick: Pick :| p.Satisfies(pick, requirement) && !p.Satisfies(pick, other);
      pick
  }

  /** A version that asks for the project, and does not do as `key`. */
  ghost function Returning(p: Problem, own: Pick, k: string, key: string, requirement: string): (pick: Pick)
    requires k in p.dependencies && Satisfiable(p, p.dependencies[k]) && key in own.dependencies
    ensures pick.dependencies == map[p.root := requirement] && p.Satisfies(pick, p.dependencies[k])
    ensures k == key && p.Satisfies(pick, own.dependencies[key]) ==>
      Implies(p, p.dependencies[k], own.dependencies[key])
  {
    var pick :=
      if k == key then Telling(p, p.dependencies[k], own.dependencies[key]) else Meeting(p, p.dependencies[k]);
    pick.(dependencies := map[p.root := requirement])
  }

  /** A workspace in which everybody asks for the project, and it misses what its version needs of `key`. */
  ghost function Uncovering(p: Problem, own: Pick, key: string, requirement: string): Problem
    requires CanReturn(p, own) && key in own.dependencies
  {
    var members := map k | k in p.dependencies :: Returning(p, own, k, key, requirement);
    p.(packages := map[], members := members[p.root := own])
  }

  lemma {:induction false} UncoveringIsOpen(p: Problem, own: Pick, key: string, requirement: string)
    requires CanReturn(p, own) && p.Satisfies(own, requirement)
    requires key in own.dependencies && !CoveredAt(p, own, key, own.dependencies[key])
    ensures SameProject(p, Uncovering(p, own, key, requirement))
    ensures NeverClosed(Uncovering(p, own, key, requirement), own)
  {
    var q := Uncovering(p, own, key, requirement);
    UncoveringFits(p, own, key, requirement);
    forall selection | Resolution(q, selection)
      ensures SelectsOwn(q, own, selection) && !ClosedEverywhere(q, selection)
    {
      UncoveringIsAll(p, own, key, requirement, selection);
      assert key != p.root && key in selection ==> !p.Satisfies(selection[key], own.dependencies[key]);
      assert !ClosedAt(q, selection, p.root);
    }
  }

  lemma {:induction false} UncoveringFits(p: Problem, own: Pick, key: string, requirement: string)
    requires CanReturn(p, own) && p.Satisfies(own, requirement) && key in own.dependencies
    ensures var q := Uncovering(p, own, key, requirement); Fitting(q, q.members)
  {
    var q := Uncovering(p, own, key, requirement);
    forall k | k in q.members && Brings(q, k) ensures ClosedAt(q, q.members, k) {
      assert q.members[k].dependencies == map[p.root := requirement];
    }
    var first :| first in p.dependencies;
    assert Reached(q, q.members, first, 1);
    assert ReachedFrom(q, q.members, p.root, first, 2);
    forall k | k in q.members ensures exists n :: Reached(q, q.members, k, n) {
      assert Reached(q, q.members, k, 2);
    }
  }

  /** Nothing else can be selected there. */
  lemma {:induction false} UncoveringIsAll(
      p: Problem, own: Pick, key: string, requirement: string, selection: Selection)
    requires CanReturn(p, own) && key in own.dependencies
    requires Resolution(Uncovering(p, own, key, requirement), selection)
    ensures selection == Uncovering(p, own, key, requirement).members
  {
    var q := Uncovering(p, own, key, requirement);
    forall k | k in selection ensures k in q.members && selection[k] == q.members[k] {
      assert q.Available(k, selection[k]);
    }
    var first :| first in p.dependencies;
    assert first in selection && ClosedAt(q, selection, first);
    assert p.root in selection[first].dependencies;
  }

  /** The project `a` needs `b`, which needs `a` back; the published `a` needs `c` as well. */
  function BackEdge(a: string, b: string, c: string): Problem {
    Problem(
      a, "1", map[b := "*"], map[a := Package("", ["1"])], map[(a, "1") := Release(false, map[b := "*", c := "*"])],
      map[b := Pick("1", "", map[a := "*"]), c := Pick("1", "", map[])], (_, _, _) => true, _ => true)
  }

  /**
   The published project is selected without what it needs, though that could be selected as well: this is what every
   answer of the resolver is.
   */
  lemma {:induction false} BackEdgeStaysOpen(a: string, b: string, c: string)
    requires a != b && b != c && c != a
    ensures var p := BackEdge(a, b, c);
      && Effective(p) == p && Tractable(p)
      && (exists selection :: Resolution(p, selection) && ClosedEverywhere(p, selection))
      && forall r :: Resolves(p, r) ==>
        r.Ok? && r.value.Some? && a in r.value.value && !ClosedEverywhere(p, r.value.value)
  {
    var p := BackEdge(a, b, c);
    var all := p.members[a := p.Offered(a, "1")];
    assert Resolution(p, all) && ClosedEverywhere(p, all);
    BackEdgeIsTractable(a, b, c);
    forall r | Resolves(p, r)
      ensures r.Ok? && r.value.Some? && a in r.value.value && !ClosedEverywhere(p, r.value.value)
    {
      if r.Ok? && r.value.Some? {
        BackEdgeIsNotFollowed(a, b, c, r.value.value);
      }
    }
  }

  lemma {:induction false} BackEdgeIsTractable(a: string, b: string, c: string)
    requires a != b && b != c && c != a
    ensures Tractable(BackEdge(a, b, c))
  {
    var (p, keys) := (BackEdge(a, b, c), {a, b, c});
    assert Spans(p, keys) && AllKnown(p, keys);
    forall way, key | Distinct(way) && Chain(p, way + [key]) ensures |way| < MAX_DEPENDENCY_DEPTH {
      ChainIsInside(p, keys, way + [key]);
      assert forall i :: 0 <= i < |way| ==> way[i] == (way + [key])[i];
      DistinctIsShort(way, keys);
    }
  }

  lemma {:induction false} ChainIsInside(p: Problem, keys: set<string>, way: seq<string>)
    requires Spans(p, keys) && Chain(p, way)
    ensures forall i :: 0 <= i < |way| ==> way[i] in keys
  {
    if |way| > 1 {
      var n := |way| - 1;
      ChainIsInside(p, keys, way[..n]);
      assert way[n - 1] == way[..n][n - 1] && Asks(p, way[n - 1], way[n]);
    }
  }

  lemma {:induction false} DistinctIsShort(way: seq<string>, keys: set<string>)
    requires Distinct(way) && forall i :: 0 <= i < |way| ==> way[i] in keys
    ensures |way| <= |keys|
    decreases |way|
  {
    if way != [] {
      var n := |way| - 1;
      DistinctIsShort(way[..n], keys - {way[n]});
    }
  }

  lemma {:induction false} BackEdgeIsNotFollowed(a: string, b: string, c: string, selection: Selection)
    requires a != b && b != c && c != a
    requires Resolution(BackEdge(a, b, c), selection) && OnlyNeeded(BackEdge(a, b, c), selection)
    ensures a in selection && !ClosedAt(BackEdge(a, b, c), selection, a)
  {
    var p := BackEdge(a, b, c);
    assert p.Available(b, selection[b]) && ClosedAt(p, selection, b);
    assert a in selection[b].dependencies;
    assert p.Available(a, selection[a]);
    assert c in selection[a].dependencies;
    NobodyElseAsks(a, b, c, selection);
  }

  lemma {:induction false} NobodyElseAsks(a: string, b: string, c: string, selection: Selection)
    requires a != b && b != c && c != a && Resolution(BackEdge(a, b, c), selection)
    ensures forall n :: !Reached(BackEdge(a, b, c), selection, c, n)
  {
    var p := BackEdge(a, b, c);
    assert c !in p.dependencies;
    forall from, n ensures !ReachedFrom(p, selection, c, from, n) {
      if from in selection && from != a {
        assert p.Available(from, selection[from]);
        assert c !in selection[from].dependencies;
      }
    }
  }
}
