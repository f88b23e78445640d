/** Whole histories of a downloads root: one call after another, and several processes at once. */
module HostRuns {
  import opened Wrappers
  import opened HostNames
  import opened HostViews

  // ---------- One call after another ----------

  datatype Call = Call(request: Request, result: Result<Download>, quiet: bool, alone: bool)

  type Views = map<Path, Entry>

  ghost predicate Run(lib: Library, layout: Layout, states: seq<Views>, calls: seq<Call>) {
    && |states| == |calls| + 1
    && forall i :: 0 <= i < |calls| ==> MadeAt(lib, layout, states, calls, i)
  }

  ghost predicate MadeAt(lib: Library, layout: Layout, states: seq<Views>, calls: seq<Call>, i: nat)
    requires |states| == |calls| + 1 && i < |calls|
  {
    Made(lib, layout, states[i], states[i + 1], calls[i])
  }

  ghost predicate Made(lib: Library, layout: Layout, before: Views, after: Views, call: Call) {
    Materialized(lib, layout, before, after, call.request, call.result, call.quiet, call.alone)
  }

  ghost predicate Kept(before: Views, after: Views) {
    forall path :: path in before ==> path in after && after[path] == before[path]
  }

  /** Whatever succeeds, fails or races, a view that is there stays there and stays the same. */
  lemma {:induction false} ViewsNeverChange(
      lib: Library, layout: Layout, states: seq<Views>, calls: seq<Call>, i: nat, j: nat)
    requires Run(lib, layout, states, calls) && i <= j < |states|
    ensures Kept(states[i], states[j])
  {
    if i < j {
      ViewsNeverChange(lib, layout, states, calls, i, j - 1);
      assert MadeAt(lib, layout, states, calls, j - 1);
      KeptByCall(lib, layout, states[j - 1], states[j], calls[j - 1]);
    }
  }

  lemma KeptByCall(lib: Library, layout: Layout, before: Views, after: Views, call: Call)
    requires Made(lib, layout, before, after, call)
    ensures Kept(before, after)
  {
  }

  /** The same organization, project, package, version, source and target. */
  predicate SameDownload(lib: Library, r: Request, s: Request) {
    && CoordinateOf(lib, r).Ok? && CoordinateOf(lib, r) == CoordinateOf(lib, s)
    && r.source == s.source && r.verified.descriptor.target == s.verified.descriptor.target
  }

  /** A download has one origin for good: all successes had the very same archive. */
  lemma {:induction false} OneOriginForever(
      lib: Library, layout: Layout, states: seq<Views>, calls: seq<Call>, i: nat, j: nat)
    requires Run(lib, layout, states, calls) && i < |calls| && j < |calls|
    requires calls[i].result.Ok? && calls[j].result.Ok? && SameDownload(lib, calls[i].request, calls[j].request)
    ensures OriginFor(lib, calls[i].request) == OriginFor(lib, calls[j].request)
    ensures calls[i].result.value == calls[j].result.value
  {
    RecordedAt(lib, layout, states, calls, i);
    RecordedAt(lib, layout, states, calls, j);
    if i <= j {
      ViewsNeverChange(lib, layout, states, calls, i + 1, j + 1);
      OneRecord(lib, layout, states[i + 1], calls[i], states[j + 1], calls[j]);
    } else {
      ViewsNeverChange(lib, layout, states, calls, j + 1, i + 1);
      OneRecord(lib, layout, states[j + 1], calls[j], states[i + 1], calls[i]);
    }
  }

  /** A success leaves its origin in the canonical view, and its answer follows from origin and targets. */
  ghost predicate Recorded(lib: Library, layout: Layout, views: Views, call: Call) {
    && CoordinateOf(lib, call.request).Ok? && call.result.Ok?
    && var (targets, origin) := (Targets(lib, layout, call.request), OriginFor(lib, call.request));
       && targets[0] in views && views[targets[0]].Directory? && views[targets[0]].origin.Some?
       && lib.decodeOrigin(views[targets[0]].origin.value) == Some(origin)
       && call.result.value == Download(origin.logicalUri, targets[0], targets[1..])
  }

  lemma {:induction false} RecordedAt(
      lib: Library, layout: Layout, states: seq<Views>, calls: seq<Call>, i: nat)
    requires Run(lib, layout, states, calls) && i < |calls| && calls[i].result.Ok?
    ensures Recorded(lib, layout, states[i + 1], calls[i])
  {
    assert MadeAt(lib, layout, states, calls, i);
    SuccessRecords(lib, layout, states[i], states[i + 1], calls[i]);
  }

  lemma {:induction false} SuccessRecords(lib: Library, layout: Layout, before: Views, after: Views, call: Call)
    requires Made(lib, layout, before, after, call) && call.result.Ok?
    ensures Recorded(lib, layout, after, call)
  {
    var (targets, d) := (Targets(lib, layout, call.request), call.result.value);
    assert targets[0] in targets;
    assert d.indexPaths == ([d.canonicalPath] + d.indexPaths)[1..];
  }

  lemma {:induction false} OneRecord(lib: Library, layout: Layout, views: Views, call: Call, views': Views, call': Call)
    requires Recorded(lib, layout, views, call) && Recorded(lib, layout, views', call') && Kept(views, views')
    requires SameDownload(lib, call.request, call'.request)
    ensures OriginFor(lib, call.request) == OriginFor(lib, call'.request)
    ensures call.result.value == call'.result.value
  {
    assert Targets(lib, layout, call.request) == Targets(lib, layout, call'.request);
  }

  /** What is there for a request is what the request would have published. */
  ghost predicate Ours(lib: Library, layout: Layout, views: Views, request: Request)
    requires CoordinateOf(lib, request).Ok?
  {
    forall path :: path in Targets(lib, layout, request) && path in views ==>
      Accepted(lib, views[path], OriginFor(lib, request))
  }

  /** Nobody else interfered with a call, and if it was for the same download, it was for the same bytes. */
  ghost predicate Compatible(lib: Library, call: Call, request: Request)
    requires CoordinateOf(lib, request).Ok?
  {
    && call.alone
    && (SameDownload(lib, call.request, request) ==> OriginFor(lib, call.request) == OriginFor(lib, request))
  }

  lemma SharedTarget(lib: Library, layout: Layout, r: Request, s: Request, path: Path)
    requires CoordinateOf(lib, r).Ok? && CoordinateOf(lib, s).Ok?
    requires path in Targets(lib, layout, r) && path in Targets(lib, layout, s)
    ensures SameDownload(lib, r, s)
  {
    var i :| 0 <= i < |Targets(lib, layout, r)| && Targets(lib, layout, r)[i] == path;
    var j :| 0 <= j < |Targets(lib, layout, s)| && Targets(lib, layout, s)[j] == path;
    DestinationsIdentify(
      layout, CoordinateOf(lib, r).value, r.source, r.verified.descriptor.target, i, path,
      CoordinateOf(lib, s).value, s.source, s.verified.descriptor.target, j, path);
  }

  /** No call for another download, and no interrupted call for this one, gets in its way. */
  lemma {:induction false} StaysOurs(
      lib: Library, layout: Layout, states: seq<Views>, calls: seq<Call>, request: Request, n: nat)
    requires Run(lib, layout, states, calls) && n < |states|
    requires CoordinateOf(lib, request).Ok?
    requires forall k :: 0 <= k < n ==> Compatible(lib, calls[k], request)
    requires Ours(lib, layout, states[0], request)
    ensures Ours(lib, layout, states[n], request)
  {
    if n > 0 {
      StaysOurs(lib, layout, states, calls, request, n - 1);
      assert MadeAt(lib, layout, states, calls, n - 1);
      StaysOursOnce(lib, layout, states[n - 1], states[n], calls[n - 1], request);
    }
  }

  lemma StaysOursOnce(lib: Library, layout: Layout, before: Views, after: Views, call: Call, request: Request)
    requires Made(lib, layout, before, after, call)
    requires CoordinateOf(lib, request).Ok? && Compatible(lib, call, request)
    requires Ours(lib, layout, before, request)
    ensures Ours(lib, layout, after, request)
  {
    forall path | path in Targets(lib, layout, request) && path in after
      ensures Accepted(lib, after[path], OriginFor(lib, request))
    {
      if path !in before {
        SharedTarget(lib, layout, call.request, request, path);
      }
    }
  }

  /**
   After any such history, interrupted wherever it was, repeating a call completes it: if nothing
   fails by itself, it succeeds, and every view of the download is there.
   */
  lemma {:induction false} RepeatingCompletes(
      lib: Library, layout: Layout, states: seq<Views>, calls: seq<Call>, n: nat)
    requires Run(lib, layout, states, calls) && n < |calls|
    requires WellNamed(lib, layout, calls[n].request) && Stageable(lib, calls[n].request) && calls[n].quiet
    requires forall k :: 0 <= k < n ==> Compatible(lib, calls[k], calls[n].request)
    requires Ours(lib, layout, states[0], calls[n].request)
    ensures calls[n].result.Ok? && Served(lib, layout, states[n + 1], calls[n].request)
  {
    StaysOurs(lib, layout, states, calls, calls[n].request, n);
    assert MadeAt(lib, layout, states, calls, n);
    assert Targets(lib, layout, calls[n].request) != [];
  }

  ghost predicate NoCollision(lib: Library, a: Bytes, b: Bytes) {
    lib.digest(a) == lib.digest(b) ==> a == b
  }

  /** The digest tells the archives of these views apart, and their files. */
  ghost predicate NoClash(lib: Library, x: Entry, y: Entry) {
    && (x.Directory? && y.Directory? && x.archive.Some? && y.archive.Some? ==>
          NoCollision(lib, x.archive.value, y.archive.value))
    && (x.Directory? && y.Directory? && x.package.Some? && y.package.Some? ==>
          forall path :: path in x.package.value && path in y.package.value ==>
            NoCollision(lib, x.package.value[path].bytes, y.package.value[path].bytes))
  }

  /** The same archive and the same files; only the descriptor's executable bit is not looked at. */
  ghost predicate Agree(lib: Library, x: Entry, y: Entry) {
    && x.Directory? && y.Directory? && x.package.Some? && y.package.Some?
    && x.archive == y.archive && x.package.value.Keys == y.package.value.Keys
    && forall path :: path in x.package.value ==>
      && x.package.value[path].bytes == y.package.value[path].bytes
      && (path != lib.descriptorPath ==> x.package.value[path] == y.package.value[path])
  }

  lemma FaithfulAgree(lib: Library, x: Entry, y: Entry, origin: Origin)
    requires lib.Valid() && NoClash(lib, x, y)
    requires Faithful(lib, x, origin) && Faithful(lib, y, origin)
    ensures Agree(lib, x, y)
  {
  }

  /**
   All views of a download agree at all times, whichever successful calls made them and whatever happened in between,
   unless the digest collides on the very bytes that are there.
   */
  lemma {:induction false} ViewsAgree(
      lib: Library, layout: Layout, states: seq<Views>, calls: seq<Call>, i: nat, m: nat, x: Path,
      j: nat, n: nat, y: Path)
    requires lib.Valid() && Run(lib, layout, states, calls) && i < m < |states| && j < n < |states|
    requires calls[i].result.Ok? && calls[j].result.Ok? && SameDownload(lib, calls[i].request, calls[j].request)
    requires x in Targets(lib, layout, calls[i].request) && y in Targets(lib, layout, calls[j].request)
    ensures x in states[m] && y in states[n]
    ensures NoClash(lib, states[m][x], states[n][y]) ==> Agree(lib, states[m][x], states[n][y])
  {
    var origin := OriginFor(lib, calls[i].request);
    OneOriginForever(lib, layout, states, calls, i, j);
    ServedLater(lib, layout, states, calls, i, m, x, origin);
    ServedLater(lib, layout, states, calls, j, n, y, origin);
    if NoClash(lib, states[m][x], states[n][y]) {
      FaithfulAgree(lib, states[m][x], states[n][y], origin);
    }
  }

  lemma {:induction false} ServedLater(
      lib: Library, layout: Layout, states: seq<Views>, calls: seq<Call>, i: nat, m: nat, path: Path, origin: Origin)
    requires Run(lib, layout, states, calls) && i < m < |states| && calls[i].result.Ok?
    requires CoordinateOf(lib, calls[i].request).Ok? && origin == OriginFor(lib, calls[i].request)
    requires path in Targets(lib, layout, calls[i].request)
    ensures path in states[m] && Faithful(lib, states[m][path], origin)
  {
    assert MadeAt(lib, layout, states, calls, i);
    ServedByCall(lib, layout, states[i], states[i + 1], calls[i], path);
    ViewsNeverChange(lib, layout, states, calls, i + 1, m);
  }

  lemma {:induction false} ServedByCall(
      lib: Library, layout: Layout, before: Views, after: Views, call: Call, path: Path)
    requires Made(lib, layout, before, after, call) && call.result.Ok?
    requires CoordinateOf(lib, call.request).Ok? && path in Targets(lib, layout, call.request)
    ensures path in after && Faithful(lib, after[path], OriginFor(lib, call.request))
  {
    assert Served(lib, layout, after, call.request);
  }

  // ---------- Several processes at once ----------

  datatype Phase =
    | Idle
    | Checking(request: Request, next: nat)  // about to look at a target
    | Staging(request: Request, next: nat)   // has seen it absent, about to publish it

  datatype System = System(views: Views, locks: map<string, nat>, processes: map<nat, Phase>)

  datatype Action = Begin(request: Request) | LookAt | PublishAs(entry: Entry) | Leave

  function LockKey(lib: Library, layout: Layout, request: Request): string
    requires CoordinateOf(lib, request).Ok?
  {
    lib.digest(Text(Targets(lib, layout, request)[0]))
  }

  predicate Busy(s: System, p: nat) {
    p in s.processes && !s.processes[p].Idle?
  }

  predicate WellPhased(lib: Library, layout: Layout, phase: Phase) {
    !phase.Idle? ==> WellNamed(lib, layout, phase.request) && phase.next < |Targets(lib, layout, phase.request)|
  }

  ghost predicate Leaves(lib: Library, layout: Layout, s: System, s': System, p: nat)
    requires Busy(s, p) && CoordinateOf(lib, s.processes[p].request).Ok?
  {
    && s'.processes == s.processes[p := Idle] && s'.views == s.views
    && s'.locks == s.locks - {LockKey(lib, layout, s.processes[p].request)}
  }

  /** Process `p` goes on to the next target, or leaves after the last. */
  ghost predicate Proceeds(lib: Library, layout: Layout, s: System, s': System, p: nat)
    requires Busy(s, p) && CoordinateOf(lib, s.processes[p].request).Ok?
  {
    var phase := s.processes[p];
    if phase.next + 1 < |Targets(lib, layout, phase.request)| then
      && s'.processes == s.processes[p := Checking(phase.request, phase.next + 1)]
      && s'.views == s.views && s'.locks == s.locks
    else Leaves(lib, layout, s, s', p)
  }

  /** One step of one process. A process may fail or be killed at any time, which frees its lock. */
  ghost predicate Next(lib: Library, layout: Layout, s: System, s': System, p: nat, a: Action) {
    match a
    case Begin(request) =>
      && !Busy(s, p) && WellNamed(lib, layout, request)
      && LockKey(lib, layout, request) !in s.locks
      && s' == System(s.views, s.locks[LockKey(lib, layout, request) := p],
                      s.processes[p := Checking(request, 0)])
    case LookAt =>
      && Busy(s, p) && s.processes[p].Checking? && WellPhased(lib, layout, s.processes[p])
      && var (request, n) := (s.processes[p].request, s.processes[p].next);
         if Targets(lib, layout, request)[n] in s.views then Proceeds(lib, layout, s, s', p)
         else s' == s.(processes := s.processes[p := Staging(request, n)])
    case PublishAs(entry) =>
      && Busy(s, p) && s.processes[p].Staging? && WellPhased(lib, layout, s.processes[p])
      && var path := Targets(lib, layout, s.processes[p].request)[s.processes[p].next];
         if path in s.views then Leaves(lib, layout, s, s', p)
         else Proceeds(lib, layout, s.(views := s.views[path := entry]), s', p)
    case Leave =>
      && Busy(s, p) && WellPhased(lib, layout, s.processes[p]) && Leaves(lib, layout, s, s', p)
  }

  ghost predicate Behaviour(lib: Library, layout: Layout, states: seq<System>, steps: seq<(nat, Action)>) {
    && |states| == |steps| + 1
    && states[0].locks == map[] && states[0].processes == map[]
    && forall i :: 0 <= i < |steps| ==> Taken(lib, layout, states, steps, i)
  }

  ghost predicate Taken(lib: Library, layout: Layout, states: seq<System>, steps: seq<(nat, Action)>, i: nat)
    requires |states| == |steps| + 1 && i < |steps|
  {
    Next(lib, layout, states[i], states[i + 1], steps[i].0, steps[i].1)
  }

  /** A busy process holds the lock of its download, and what it saw absent still is. */
  ghost predicate Sound(lib: Library, layout: Layout, s: System, p: nat) {
    Busy(s, p) ==>
      var phase := s.processes[p];
      && WellPhased(lib, layout, phase)
      && LockKey(lib, layout, phase.request) in s.locks && s.locks[LockKey(lib, layout, phase.request)] == p
      && (phase.Staging? ==> Targets(lib, layout, phase.request)[phase.next] !in s.views)
  }

  ghost predicate Inv(lib: Library, layout: Layout, s: System) {
    forall p :: Sound(lib, layout, s, p)
  }

  /** Processes at work at the same time have no target in common. */
  lemma DisjointTargets(lib: Library, layout: Layout, s: System, p: nat, q: nat, path: Path)
    requires Sound(lib, layout, s, p) && Sound(lib, layout, s, q) && Busy(s, p) && Busy(s, q)
    requires path in Targets(lib, layout, s.processes[p].request)
    requires path in Targets(lib, layout, s.processes[q].request)
    ensures p == q
  {
    var (r, t) := (s.processes[p].request, s.processes[q].request);
    SharedTarget(lib, layout, r, t, path);
    assert LockKey(lib, layout, r) == LockKey(lib, layout, t);
  }

  lemma ViewsStep(lib: Library, layout: Layout, s: System, s': System, p: nat, a: Action)
    requires Next(lib, layout, s, s', p, a)
    ensures forall q :: q != p ==> (Busy(s', q) <==> Busy(s, q)) && (Busy(s, q) ==> s'.processes[q] == s.processes[q])
    ensures forall path :: path in s'.views && path !in s.views ==>
      && Busy(s, p) && WellPhased(lib, layout, s.processes[p])
      && path in Targets(lib, layout, s.processes[p].request)
    ensures forall path :: path in s.views ==> path in s'.views && s'.views[path] == s.views[path]
    ensures forall key :: key in s.locks && s.locks[key] != p ==>
      || (key in s'.locks && s'.locks[key] == s.locks[key])
      || (Busy(s, p) && WellPhased(lib, layout, s.processes[p]) && key == LockKey(lib, layout, s.processes[p].request))
  {
  }

  lemma {:induction false} SoundSelf(lib: Library, layout: Layout, s: System, s': System, p: nat, a: Action)
    requires Sound(lib, layout, s, p) && Next(lib, layout, s, s', p, a)
    ensures Sound(lib, layout, s', p)
  {
    match a
    case Begin(request) =>
      SoundBegin(lib, layout, s, s', p, request);
    case LookAt =>
      SoundLook(lib, layout, s, s', p);
    case PublishAs(entry) =>
      SoundPublish(lib, layout, s, s', p, entry);
    case Leave =>
  }

  lemma {:induction false} SoundBegin(
      lib: Library, layout: Layout, s: System, s': System, p: nat, request: Request)
    requires Next(lib, layout, s, s', p, Begin(request))
    ensures Sound(lib, layout, s', p)
  {
  }

  lemma {:induction false} SoundLook(lib: Library, layout: Layout, s: System, s': System, p: nat)
    requires Sound(lib, layout, s, p) && Next(lib, layout, s, s', p, LookAt)
    ensures Sound(lib, layout, s', p)
  {
  }

  lemma {:induction false} SoundPublish(lib: Library, layout: Layout, s: System, s': System, p: nat, entry: Entry)
    requires Sound(lib, layout, s, p) && Next(lib, layout, s, s', p, PublishAs(entry))
    ensures Sound(lib, layout, s', p)
  {
  }

  lemma SoundOther(lib: Library, layout: Layout, s: System, s': System, p: nat, a: Action, q: nat)
    requires Sound(lib, layout, s, p) && Sound(lib, layout, s, q) && q != p && Next(lib, layout, s, s', p, a)
    ensures Sound(lib, layout, s', q)
  {
    ViewsStep(lib, layout, s, s', p, a);
    if Busy(s, q) && s.processes[q].Staging? {
      var path := Targets(lib, layout, s.processes[q].request)[s.processes[q].next];
      if path in s'.views {
        DisjointTargets(lib, layout, s, p, q, path);
      }
    }
  }

  lemma InvStep(lib: Library, layout: Layout, s: System, s': System, p: nat, a: Action)
    requires Inv(lib, layout, s) && Next(lib, layout, s, s', p, a)
    ensures Inv(lib, layout, s')
  {
    forall q: nat ensures Sound(lib, layout, s', q) {
      assert Sound(lib, layout, s, p) && Sound(lib, layout, s, q);
      if q == p {
        SoundSelf(lib, layout, s, s', p, a);
      } else {
        SoundOther(lib, layout, s, s', p, a, q);
      }
    }
  }

  /**
   Because the lock belongs to the canonical path and paths identify downloads, a process that saw a
   target absent publishes it without ever finding it there, in every interleaving.
   */
  lemma {:induction false} NoRace(
      lib: Library, layout: Layout, states: seq<System>, steps: seq<(nat, Action)>, i: nat)
    requires Behaviour(lib, layout, states, steps) && i < |states|
    ensures Inv(lib, layout, states[i])
    ensures forall p :: Busy(states[i], p) && states[i].processes[p].Staging? ==>
      var phase := states[i].processes[p];
      WellPhased(lib, layout, phase) && Targets(lib, layout, phase.request)[phase.next] !in states[i].views
  {
    if i > 0 {
      NoRace(lib, layout, states, steps, i - 1);
      var (p, a) := steps[i - 1];
      assert Taken(lib, layout, states, steps, i - 1);
      InvStep(lib, layout, states[i - 1], states[i], p, a);
    }
    forall p | Busy(states[i], p) ensures Sound(lib, layout, states[i], p) {
    }
  }

  /** The same entry, or none in either. */
  ghost predicate SameAt(views: Views, other: Views, path: Path) {
    (path in views <==> path in other) && (path in views ==> other[path] == views[path])
  }

  lemma {:induction false} OthersKeepAway(
      lib: Library, layout: Layout, s: System, s': System, p: nat, a: Action, q: nat, path: Path)
    requires Sound(lib, layout, s, p) && Sound(lib, layout, s, q) && q != p && Next(lib, layout, s, s', p, a)
    requires Busy(s, q) && path in Targets(lib, layout, s.processes[q].request)
    ensures SameAt(s.views, s'.views, path)
  {
    ViewsStep(lib, layout, s, s', p, a);
    if path in s'.views && path !in s.views {
      DisjointTargets(lib, layout, s, p, q, path);
    }
  }

  lemma {:induction false} OtherStep(
      lib: Library, layout: Layout, s: System, s': System, p: nat, a: Action, q: nat, request: Request, path: Path)
    requires Inv(lib, layout, s) && q != p && Next(lib, layout, s, s', p, a)
    requires Works(s, q, request) && CoordinateOf(lib, request).Ok? && path in Targets(lib, layout, request)
    ensures Works(s', q, request) && SameAt(s.views, s'.views, path)
  {
    assert Sound(lib, layout, s, p) && Sound(lib, layout, s, q);
    ViewsStep(lib, layout, s, s', p, a);
    OthersKeepAway(lib, layout, s, s', p, a, q, path);
  }

  /** Process `q` works on this request. */
  predicate Works(s: System, q: nat, request: Request) {
    Busy(s, q) && s.processes[q].request == request
  }

  /**
   A process under its lock is alone with its targets: between two of its own steps, whatever the others do, none of
   them appears or changes. This is what `alone` asks of the surroundings of a call.
   */
  lemma {:induction false} AloneUnderLock(
      lib: Library, layout: Layout, states: seq<System>, steps: seq<(nat, Action)>, i: nat, j: nat,
      q: nat, request: Request, path: Path)
    requires Behaviour(lib, layout, states, steps) && i <= j < |states|
    requires forall k :: i <= k < j ==> steps[k].0 != q
    requires Works(states[i], q, request) && CoordinateOf(lib, request).Ok? && path in Targets(lib, layout, request)
    ensures Works(states[j], q, request) && SameAt(states[i].views, states[j].views, path)
    decreases j - i
  {
    if i < j {
      AloneUnderLock(lib, layout, states, steps, i, j - 1, q, request, path);
      OtherStepAt(lib, layout, states, steps, j - 1, q, request, path);
    }
  }

  lemma {:induction false} OtherStepAt(
      lib: Library, layout: Layout, states: seq<System>, steps: seq<(nat, Action)>, k: nat,
      q: nat, request: Request, path: Path)
    requires Behaviour(lib, layout, states, steps) && k < |steps| && steps[k].0 != q
    requires Works(states[k], q, request) && CoordinateOf(lib, request).Ok? && path in Targets(lib, layout, request)
    ensures Works(states[k + 1], q, request) && SameAt(states[k].views, states[k + 1].views, path)
  {
    NoRace(lib, layout, states, steps, k);
    assert Taken(lib, layout, states, steps, k);
    OtherStep(lib, layout, states[k], states[k + 1], steps[k].0, steps[k].1, q, request, path);
  }
}
