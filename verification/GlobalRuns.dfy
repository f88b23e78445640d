/** Whole histories of global commands, successful or failing, and user edits. */
module GlobalRuns {
  import opened Wrappers
  import opened GlobalFiles
  import opened GlobalBins
  import opened GlobalProfiles

  datatype State = State(files: Files, nextId: nat)

  /** A command carries what `Install` and `Uninstall` report; an edit is anything a user does. */
  datatype Event = Command(roots: set<Path>, ok: bool, lost: set<Path>) | Edit

  ghost predicate Step(env: Env, before: State, event: Event, after: State) {
    match event
    case Command(roots, ok, lost) =>
      Transacted(before.files, after.files, before.nextId, env, roots, ok, lost)
    case Edit =>
      // Users change any file but Zed's own index.
      Lookup(after.files, Index) == Lookup(before.files, Index)
  }

  ghost predicate Run(env: Env, states: seq<State>, events: seq<Event>) {
    && |states| == |events| + 1
    && forall k :: 0 <= k < |events| ==> Step(env, states[k], events[k], states[k + 1])
  }

  /**
   A successful command wrote these bytes: the name was free or still Zed's own before, and now it holds
   an installed profile's executable under a record with this hash.
   */
  ghost predicate Wrote(env: Env, states: seq<State>, events: seq<Event>, step: nat, name: string, sha256: string)
    requires |states| == |events| + 1 && step < |events|
  {
    var before, after := states[step].files, states[step + 1].files;
    && events[step].Command? && events[step].ok
    && LoadIndex(before, env).Some? && LoadIndex(after, env).Some?
    && (Bin(name) in before ==> Owned(before, env, LoadIndex(before, env).value, name))
    && Owned(after, env, LoadIndex(after, env).value, name)
    && LoadIndex(after, env).value[name].sha256 == sha256
    && exists path, logical ::
      && Exposes(after, env, path, logical) && env.destination(logical) == name
      && after[Bin(name)] == File(BinsOf(after, path)[logical])
  }

  /** Every record in the index goes back to a file that a successful command wrote. */
  lemma {:induction false} RecordsHaveProvenance(env: Env, states: seq<State>, events: seq<Event>, k: nat, name: string)
    requires env.Valid() && Run(env, states, events) && k <= |events|
    requires LoadIndex(states[0].files, env) == Some(map[])
    requires LoadIndex(states[k].files, env).Some? && name in LoadIndex(states[k].files, env).value
    ensures var sha256 := LoadIndex(states[k].files, env).value[name].sha256;
      exists step :: 0 <= step < k && Wrote(env, states, events, step, name, sha256)
    decreases k
  {
    var before, after := states[k - 1].files, states[k].files;
    var sha256 := LoadIndex(after, env).value[name].sha256;
    assert Step(env, states[k - 1], events[k - 1], states[k]);
    if events[k - 1].Command? && events[k - 1].ok {
      var state :| Consistent(after, env, state) && Retired(before, after, env, state);
      assert LoadIndex(after, env) == Some(state);
      assert Justified(after, env, name);
      var path, logical :| Exposes(after, env, path, logical) && env.destination(logical) == name;
      assert Served(after, env, state, path, logical);
      assert Wrote(env, states, events, k - 1, name, sha256);
    } else {
      assert Lookup(after, Index) == Lookup(before, Index);
      RecordsHaveProvenance(env, states, events, k - 1, name);
    }
  }

  /**
   Starting without records, whatever happens in between: if a command overwrites
   or deletes an executable, a previous command had put a file with the same hash
   at the same name.
   */
  lemma OnlyOwnBytesAreDestroyed(env: Env, states: seq<State>, events: seq<Event>, k: nat, name: string)
    requires env.Valid() && Run(env, states, events) && k < |events| && events[k].Command?
    requires LoadIndex(states[0].files, env) == Some(map[])
    requires Bin(name) in states[k].files
    requires Lookup(states[k + 1].files, Bin(name)) != Lookup(states[k].files, Bin(name))
    ensures states[k].files[Bin(name)].File?
    ensures var sha256 := env.hash(states[k].files[Bin(name)].bytes);
      exists step :: 0 <= step < k && Wrote(env, states, events, step, name, sha256)
  {
    assert Step(env, states[k], events[k], states[k + 1]);
    RecordsHaveProvenance(env, states, events, k, name);
  }

  /** A file without a record is neither touched nor taken over by any number of commands. */
  lemma {:induction false} ForeignFilesSurvive(env: Env, states: seq<State>, events: seq<Event>, k: nat, name: string)
    requires env.Valid() && Run(env, states, events) && k <= |events|
    requires Bin(name) in states[0].files
    requires LoadIndex(states[0].files, env).Some? ==> name !in LoadIndex(states[0].files, env).value
    requires forall j :: 0 <= j < k && events[j].Edit? ==>
      Lookup(states[j + 1].files, Bin(name)) == Lookup(states[j].files, Bin(name))
    ensures Lookup(states[k].files, Bin(name)) == Lookup(states[0].files, Bin(name))
    ensures LoadIndex(states[k].files, env).Some? ==> name !in LoadIndex(states[k].files, env).value
    decreases k
  {
    if k > 0 {
      ForeignFilesSurvive(env, states, events, k - 1, name);
      var before, after := states[k - 1].files, states[k].files;
      assert Step(env, states[k - 1], events[k - 1], states[k]);
      if events[k - 1].Command? && events[k - 1].ok {
        var state :| Consistent(after, env, state) && Retired(before, after, env, state);
        assert LoadIndex(after, env) == Some(state);
      }
    }
  }

  /** What a series of commands has lost altogether. */
  ghost function Losses(events: seq<Event>): set<Path> {
    if events == [] then {}
    else
      var last := events[|events| - 1];
      Losses(events[..|events| - 1]) + if last.Command? then last.lost else {}
  }

  /**
   Failed commands leave no trace but what they lost: with every undo complete, erasing them changes
   nothing a user can name.
   */
  lemma {:induction false} FailuresLeaveNoTrace(env: Env, states: seq<State>, events: seq<Event>, k: nat)
    requires Run(env, states, events) && k <= |events|
    requires forall j :: 0 <= j < k ==> events[j].Command? && !events[j].ok
    requires forall j :: 0 <= j < k ==> states[j].nextId <= states[j + 1].nextId
    ensures SameExcept(states[0].files, states[k].files, states[0].nextId, Losses(events[..k]))
    ensures states[0].nextId <= states[k].nextId
    decreases k
  {
    if k > 0 {
      FailuresLeaveNoTrace(env, states, events, k - 1);
      assert events[..k][..k - 1] == events[..k - 1];
      assert Step(env, states[k - 1], events[k - 1], states[k]);
    }
  }
}
