/**
 The worker pool of `zed install`: a task queue guarded by a mutex and a condition
 variable, and the workers that drain it.  One action is one critical section of
 the queue, or one thing a worker does outside it.
 */
module InstallGraph {
  import opened Wrappers

  datatype Task = Task(sequence: nat, key: string)

  /** A worker between its steps; the last three no longer run. */
  datatype Worker =
    | Ready                 // about to lock the queue
    | Waiting               // in the wait set of the condition variable
    | Awakened              // notified, has not locked the queue again yet
    | Busy(task: Task)
    | Stopped               // `pop` answered None
    | Departed              // nobody listens to its results
    | Panicked
  {
    predicate Ended() { Stopped? || Departed? || Panicked? }
  }

  datatype Outcome = Sent | NobodyListens | Panic

  /** The pool, with what was accepted, handed out, thrown away, answered and lost so far. */
  datatype Pool = Pool(
    tasks: seq<Task>, closed: bool, workers: seq<Worker>,
    accepted: seq<Task>, delivered: seq<Task>, discarded: seq<Task>,
    sent: seq<Task>, lost: seq<Task>)

  datatype Action =
    | Spawn
    | Push(task: Task, woken: Option<nat>)
    | Poll(worker: nat)
    | Spurious(worker: nat)
    | Finish(worker: nat, outcome: Outcome)
    | Close
    | Cancel

  const EMPTY := Pool([], false, [], [], [], [], [], [])

  function WakeAll(workers: seq<Worker>): (woken: seq<Worker>)
    ensures |woken| == |workers|
    ensures forall i :: 0 <= i < |woken| ==> woken[i] == if workers[i] == Waiting then Awakened else workers[i]
  {
    seq(|workers|, i requires 0 <= i < |workers| => if workers[i] == Waiting then Awakened else workers[i])
  }

  /** `notify_one` wakes some waiting worker if there is one; only live workers act. */
  ghost predicate Enabled(s: Pool, action: Action) {
    match action
    case Spawn => true
    case Push(_, woken) =>
      if s.closed then woken.None?
      else if woken.Some? then woken.value < |s.workers| && s.workers[woken.value] == Waiting
      else Waiting !in s.workers
    case Poll(w) => w < |s.workers| && (s.workers[w] == Ready || s.workers[w] == Awakened)
    case Spurious(w) => w < |s.workers| && s.workers[w] == Waiting
    case Finish(w, _) => w < |s.workers| && s.workers[w].Busy?
    case Close => true
    case Cancel => true
  }

  function Next(s: Pool, action: Action): Pool
    requires Enabled(s, action)
  {
    match action
    case Spawn => s.(workers := s.workers + [Ready])
    case Push(task, woken) =>
      if s.closed then s
      else
        s.(tasks := s.tasks + [task], accepted := s.accepted + [task],
           workers := if woken.Some? then s.workers[woken.value := Awakened] else s.workers)
    case Poll(w) =>
      if s.tasks != [] then
        s.(tasks := s.tasks[1..], delivered := s.delivered + [s.tasks[0]], workers := s.workers[w := Busy(s.tasks[0])])
      else if s.closed then s.(workers := s.workers[w := Stopped])
      else s.(workers := s.workers[w := Waiting])
    case Spurious(w) => s.(workers := s.workers[w := Awakened])
    case Finish(w, outcome) =>
      var task := s.workers[w].task;
      match outcome {
        case Sent => s.(workers := s.workers[w := Ready], sent := s.sent + [task])
        case NobodyListens => s.(workers := s.workers[w := Departed], lost := s.lost + [task])
        case Panic => s.(workers := s.workers[w := Panicked], lost := s.lost + [task])
      }
    case Close => s.(closed := true, workers := WakeAll(s.workers))
    case Cancel => s.(tasks := [], discarded := s.discarded + s.tasks, closed := true, workers := WakeAll(s.workers))
  }

  /** `states` is a history that starts with no workers and an empty queue. */
  ghost predicate History(states: seq<Pool>, actions: seq<Action>) {
    && |states| == |actions| + 1 && states[0] == EMPTY
    && forall k :: 0 <= k < |actions| ==> Enabled(states[k], actions[k]) && states[k + 1] == Next(states[k], actions[k])
  }

  // ---------- Sums over workers ----------

  function Sum(workers: seq<Worker>, weight: Worker -> nat): nat {
    if workers == [] then 0 else Sum(workers[..|workers| - 1], weight) + weight(workers[|workers| - 1])
  }

  lemma SumUpdate(workers: seq<Worker>, w: nat, worker: Worker, weight: Worker -> nat)
    requires w < |workers|
    ensures Sum(workers[w := worker], weight) + weight(workers[w]) == Sum(workers, weight) + weight(worker)
  {
    var updated := workers[w := worker];
    if w == |workers| - 1 {
      assert updated[..|workers| - 1] == workers[..|workers| - 1];
    } else {
      assert updated[..|workers| - 1] == workers[..|workers| - 1][w := worker];
      SumUpdate(workers[..|workers| - 1], w, worker, weight);
    }
  }

  lemma SumPositive(workers: seq<Worker>, w: nat, weight: Worker -> nat)
    requires w < |workers|
    ensures Sum(workers, weight) >= weight(workers[w])
  {
  }

  lemma SumWakeAll(workers: seq<Worker>, weight: Worker -> nat)
    requires weight(Waiting) == weight(Awakened)
    ensures Sum(WakeAll(workers), weight) == Sum(workers, weight)
  {
    if workers != [] {
      assert WakeAll(workers)[..|workers| - 1] == WakeAll(workers[..|workers| - 1]);
      SumWakeAll(workers[..|workers| - 1], weight);
    }
  }

  const AWAKE: Worker -> nat := (worker: Worker) => if worker == Awakened then 1 else 0

  function Awake(s: Pool): nat { Sum(s.workers, AWAKE) }

  function Holding(task: Task): Worker -> nat {
    (worker: Worker) => if worker == Busy(task) then 1 else 0
  }

  /** How many workers are processing `task`. */
  function Holders(workers: seq<Worker>, task: Task): nat {
    Sum(workers, Holding(task))
  }

  function Times(tasks: seq<Task>, task: Task): nat {
    multiset(tasks)[task]
  }

  // ---------- The inductive invariant ----------

  /** No wake-up is lost: awakened workers outnumber the queued tasks while anyone waits. */
  ghost predicate Alert(s: Pool) {
    Waiting in s.workers ==> !s.closed && |s.tasks| <= Awake(s)
  }

  /** Accepted tasks were handed out in order, are queued in order, or were discarded. */
  ghost predicate Conserved(s: Pool) {
    && s.accepted == s.delivered + s.tasks + s.discarded
    && (s.discarded != [] ==> s.closed && s.tasks == [])
  }

  /** Every task handed out is answered, lost with its worker, or being processed. */
  ghost predicate Answered(s: Pool) {
    forall task :: AnsweredFor(s, task)
  }

  ghost predicate AnsweredFor(s: Pool, task: Task) {
    Times(s.delivered, task) == Times(s.sent, task) + Times(s.lost, task) + Holders(s.workers, task)
  }

  /** A worker that was told there is nothing left was told so rightly. */
  ghost predicate Drained(s: Pool) {
    Stopped in s.workers ==> s.closed && s.tasks == []
  }

  ghost predicate Inv(s: Pool) {
    Alert(s) && Conserved(s) && Answered(s) && Drained(s)
  }

  lemma {:induction false} AlertStep(s: Pool, action: Action)
    requires Inv(s) && Enabled(s, action)
    ensures Alert(Next(s, action))
  {
    match action
    case Spawn =>
      assert (s.workers + [Ready])[..|s.workers|] == s.workers;
    case Push(task, woken) =>
      AlertPush(s, task, woken);
    case Poll(w) =>
      AlertPoll(s, w);
    case Spurious(w) =>
      SumUpdate(s.workers, w, Awakened, AWAKE);
    case Finish(w, outcome) =>
      AlertFinish(s, w, outcome);
    case Close =>
    case Cancel =>
  }

  /** A task for which nobody waits, or one more that wakes somebody. */
  lemma {:induction false} AlertPush(s: Pool, task: Task, woken: Option<nat>)
    requires Alert(s) && Enabled(s, Push(task, woken))
    ensures Alert(Next(s, Push(task, woken)))
  {
    if woken.Some? {
      SumUpdate(s.workers, woken.value, Awakened, AWAKE);
    }
  }

  /** Who takes a task was awake for at most one; who waits has seen none. */
  lemma {:induction false} AlertPoll(s: Pool, w: nat)
    requires Alert(s) && Enabled(s, Poll(w))
    ensures Alert(Next(s, Poll(w)))
  {
    SumUpdate(s.workers, w, Next(s, Poll(w)).workers[w], AWAKE);
  }

  lemma {:induction false} AlertFinish(s: Pool, w: nat, outcome: Outcome)
    requires Alert(s) && Enabled(s, Finish(w, outcome))
    ensures Alert(Next(s, Finish(w, outcome)))
  {
    SumUpdate(s.workers, w, Next(s, Finish(w, outcome)).workers[w], AWAKE);
  }

  lemma HoldersUpdate(workers: seq<Worker>, w: nat, worker: Worker, task: Task)
    requires w < |workers|
    ensures Holders(workers[w := worker], task) + Holding(task)(workers[w])
         == Holders(workers, task) + Holding(task)(worker)
  {
    SumUpdate(workers, w, worker, Holding(task));
  }

  lemma TimesMore(tasks: seq<Task>, more: Task, task: Task)
    ensures Times(tasks + [more], task) == Times(tasks, task) + if more == task then 1 else 0
  {
  }

  lemma AnsweredPoll(s: Pool, w: nat, task: Task)
    requires AnsweredFor(s, task) && Enabled(s, Poll(w))
    ensures AnsweredFor(Next(s, Poll(w)), task)
  {
    HoldersUpdate(s.workers, w, Next(s, Poll(w)).workers[w], task);
    if s.tasks != [] {
      TimesMore(s.delivered, s.tasks[0], task);
    }
  }

  lemma AnsweredFinish(s: Pool, w: nat, outcome: Outcome, task: Task)
    requires AnsweredFor(s, task) && Enabled(s, Finish(w, outcome))
    ensures AnsweredFor(Next(s, Finish(w, outcome)), task)
  {
    HoldersUpdate(s.workers, w, Next(s, Finish(w, outcome)).workers[w], task);
    TimesMore(s.sent, s.workers[w].task, task);
    TimesMore(s.lost, s.workers[w].task, task);
  }

  lemma AnsweredStep(s: Pool, action: Action, task: Task)
    requires AnsweredFor(s, task) && Enabled(s, action)
    ensures AnsweredFor(Next(s, action), task)
  {
    match action
    case Spawn =>
      assert (s.workers + [Ready])[..|s.workers|] == s.workers;
    case Push(_, woken) =>
      if woken.Some? {
        HoldersUpdate(s.workers, woken.value, Awakened, task);
      }
    case Poll(w) =>
      AnsweredPoll(s, w, task);
    case Spurious(w) =>
      HoldersUpdate(s.workers, w, Awakened, task);
    case Finish(w, outcome) =>
      AnsweredFinish(s, w, outcome, task);
    case Close =>
      SumWakeAll(s.workers, Holding(task));
    case Cancel =>
      SumWakeAll(s.workers, Holding(task));
  }

  lemma ConservedStep(s: Pool, action: Action)
    requires Inv(s) && Enabled(s, action)
    ensures Conserved(Next(s, action))
  {
  }

  lemma DrainedStep(s: Pool, action: Action)
    requires Inv(s) && Enabled(s, action)
    ensures Drained(Next(s, action))
  {
  }

  lemma InvStep(s: Pool, action: Action)
    requires Inv(s) && Enabled(s, action)
    ensures Inv(Next(s, action))
  {
    AlertStep(s, action);
    forall task ensures AnsweredFor(Next(s, action), task) {
      AnsweredStep(s, action, task);
    }
    ConservedStep(s, action);
    DrainedStep(s, action);
  }

  lemma {:induction false} InvHolds(states: seq<Pool>, actions: seq<Action>, k: nat)
    requires History(states, actions) && k <= |actions|
    ensures Inv(states[k])
    decreases k
  {
    if k > 0 {
      InvHolds(states, actions, k - 1);
      InvStep(states[k - 1], actions[k - 1]);
    }
  }

  // ---------- What it means ----------

  /** While a worker waits the queue is open, and every queued task has a worker on its way: none is stranded. */
  lemma NoLostWakeUp(states: seq<Pool>, actions: seq<Action>, k: nat)
    requires History(states, actions) && k <= |actions|
    ensures Waiting in states[k].workers ==> !states[k].closed && |states[k].tasks| <= Awake(states[k])
    ensures
      Waiting in states[k].workers && states[k].tasks != [] ==> Awakened in states[k].workers
  {
    InvHolds(states, actions, k);
    if Awakened !in states[k].workers {
      SumZero(states[k].workers, AWAKE);
    }
  }

  lemma SumZero(workers: seq<Worker>, weight: Worker -> nat)
    requires forall w :: 0 <= w < |workers| ==> weight(workers[w]) == 0
    ensures Sum(workers, weight) == 0
  {
  }

  /** First in, first out: what was accepted is what was handed out, then what is queued, then what was discarded. */
  lemma FirstInFirstOut(states: seq<Pool>, actions: seq<Action>, k: nat)
    requires History(states, actions) && k <= |actions|
    ensures states[k].accepted == states[k].delivered + states[k].tasks + states[k].discarded
    ensures forall task :: AnsweredFor(states[k], task)
  {
    InvHolds(states, actions, k);
  }

  /** Each task goes to at most one worker. */
  lemma HandedOutOnce(states: seq<Pool>, actions: seq<Action>, k: nat, i: nat, j: nat)
    requires History(states, actions) && k <= |actions|
    requires forall p, q :: 0 <= p < q < |states[k].accepted| ==> states[k].accepted[p] != states[k].accepted[q]
    requires i < j < |states[k].delivered|
    ensures states[k].delivered[i] != states[k].delivered[j]
  {
    FirstInFirstOut(states, actions, k);
    assert states[k].delivered[i] == states[k].accepted[i] && states[k].delivered[j] == states[k].accepted[j];
  }

  /** `pop` answers None only when the queue is closed and, unless cancelled, every accepted task was handed out. */
  lemma NoneMeansDone(states: seq<Pool>, actions: seq<Action>, k: nat)
    requires History(states, actions) && k <= |actions| && Stopped in states[k].workers
    requires forall j :: 0 <= j < k ==> actions[j] != Cancel
    ensures states[k].closed && states[k].delivered == states[k].accepted
  {
    InvHolds(states, actions, k);
    NothingDiscarded(states, actions, k);
  }

  lemma {:induction false} NothingDiscarded(states: seq<Pool>, actions: seq<Action>, k: nat)
    requires History(states, actions) && k <= |actions|
    requires forall j :: 0 <= j < k ==> actions[j] != Cancel
    ensures states[k].discarded == []
    decreases k
  {
    if k > 0 {
      NothingDiscarded(states, actions, k - 1);
    }
  }

  // ---------- What the pool remembers ----------

  /** The tasks pushed before the pool was closed, in order. */
  function Submitted(actions: seq<Action>): seq<Task> {
    if actions == [] then []
    else
      var (before, last) := (actions[..|actions| - 1], actions[|actions| - 1]);
      Submitted(before)
      + if last.Push? && forall j :: 0 <= j < |before| ==> !IsClosing(before[j]) then [last.task] else []
  }

  /** The pool is closed once it was told so, and accepts exactly what comes before. */
  lemma {:induction false} AcceptedExactly(states: seq<Pool>, actions: seq<Action>, k: nat)
    requires History(states, actions) && k <= |actions|
    ensures states[k].accepted == Submitted(actions[..k])
    ensures states[k].closed <==> exists j :: 0 <= j < k && IsClosing(actions[j])
    decreases k
  {
    if k > 0 {
      AcceptedExactly(states, actions, k - 1);
      assert actions[..k][..k - 1] == actions[..k - 1];
    }
  }

  /** How many tasks were finished in this way. */
  function Finished(actions: seq<Action>, outcome: Outcome): nat {
    if actions == [] then 0
    else
      var last := actions[|actions| - 1];
      Finished(actions[..|actions| - 1], outcome) + if last.Finish? && last.outcome == outcome then 1 else 0
  }

  /** Every result counts once, and a worker has panicked exactly if its task did. */
  lemma {:induction false} ResultsExactly(states: seq<Pool>, actions: seq<Action>, k: nat)
    requires History(states, actions) && k <= |actions|
    ensures |states[k].sent| == Finished(actions[..k], Sent)
    ensures |states[k].lost| == Finished(actions[..k], NobodyListens) + Finished(actions[..k], Panic)
    ensures Panicked in states[k].workers <==> Finished(actions[..k], Panic) > 0
    decreases k
  {
    if k > 0 {
      ResultsExactly(states, actions, k - 1);
      assert actions[..k][..k - 1] == actions[..k - 1];
      PanicsStay(states[k - 1], actions[k - 1]);
    }
  }

  lemma {:induction false} PanicsStay(s: Pool, action: Action)
    requires Enabled(s, action)
    ensures Panicked in Next(s, action).workers <==>
      Panicked in s.workers || (action.Finish? && action.outcome == Panic)
  {
    var t := Next(s, action);
    if Panicked in s.workers {
      var w :| 0 <= w < |s.workers| && s.workers[w] == Panicked;
      assert t.workers[w] == Panicked;
    }
    if action.Finish? && action.outcome == Panic {
      assert t.workers[action.worker] == Panicked;
    }
  }

  // ---------- Shutting down ----------

  const EFFORT: Worker -> nat := (worker: Worker) => if worker.Ended() then 0 else if worker.Busy? then 2 else 1

  /** What remains to be done by the workers of a closed pool. */
  function Remaining(s: Pool): nat { 2 * |s.tasks| + Sum(s.workers, EFFORT) }

  predicate IsWorkerStep(action: Action) { action.Poll? || action.Finish? }

  function WorkerSteps(actions: seq<Action>): nat {
    if actions == [] then 0
    else WorkerSteps(actions[..|actions| - 1]) + if IsWorkerStep(actions[|actions| - 1]) then 1 else 0
  }

  /** Once closed, nothing but a new worker adds work, and every step of a worker removes some. */
  lemma ClosedStep(s: Pool, action: Action)
    requires s.closed && Waiting !in s.workers && Enabled(s, action) && action != Spawn
    ensures
      var t := Next(s, action);
      t.closed && Waiting !in t.workers && Remaining(t) + (if IsWorkerStep(action) then 1 else 0) <= Remaining(s)
  {
    var t := Next(s, action);
    match action
    case Push(_, _) =>
    case Poll(w) =>
      SumUpdate(s.workers, w, t.workers[w], EFFORT);
    case Finish(w, _) =>
      SumUpdate(s.workers, w, t.workers[w], EFFORT);
    case Close =>
      SumWakeAll(s.workers, EFFORT);
    case Cancel =>
      SumWakeAll(s.workers, EFFORT);
    case Spurious(w) =>
      assert false;
  }

  lemma CountOneMore(actions: seq<Action>, from: nat, k: nat)
    requires from < k <= |actions|
    ensures WorkerSteps(actions[from..k])
         == WorkerSteps(actions[from..k - 1]) + if IsWorkerStep(actions[k - 1]) then 1 else 0
  {
    assert actions[from..k][..k - 1 - from] == actions[from..k - 1];
  }

  predicate IsClosing(action: Action) { action == Close || action == Cancel }

  /** Closing closes for good: nobody waits any more, and nothing is accepted any more. */
  lemma {:induction false} ClosedForGood(states: seq<Pool>, actions: seq<Action>, j: nat, k: nat)
    requires History(states, actions) && j < k <= |actions| && IsClosing(actions[j])
    ensures states[k].closed && Waiting !in states[k].workers && states[k].accepted == states[j].accepted
    decreases k
  {
    InvHolds(states, actions, k);
    if k > j + 1 {
      ClosedForGood(states, actions, j, k - 1);
    }
  }

  lemma {:induction false} ClosedIsBounded(states: seq<Pool>, actions: seq<Action>, from: nat, k: nat)
    requires History(states, actions) && from <= k <= |actions| && states[from].closed
    requires forall j :: from <= j < k ==> actions[j] != Spawn
    ensures WorkerSteps(actions[from..k]) + Remaining(states[k]) <= Remaining(states[from])
    ensures states[k].closed && Waiting !in states[k].workers
    decreases k
  {
    if k == from {
      InvHolds(states, actions, from);
    } else {
      ClosedIsBounded(states, actions, from, k - 1);
      CountOneMore(actions, from, k);
      ClosedStep(states[k - 1], actions[k - 1]);
    }
  }

  /** After the pool is closed or cancelled, the workers take at most so many further steps, whatever else happens. */
  lemma {:induction false} ShutdownIsBounded(states: seq<Pool>, actions: seq<Action>, j: nat, k: nat)
    requires History(states, actions) && j < k <= |actions| && IsClosing(actions[j])
    requires forall i :: j < i < k ==> actions[i] != Spawn
    ensures WorkerSteps(actions[j + 1..k]) + Remaining(states[k]) <= 2 * (|states[j].tasks| + |states[j].workers|)
    ensures states[k].closed && Waiting !in states[k].workers
  {
    ClosedForGood(states, actions, j, j + 1);
    ClosedIsBounded(states, actions, j + 1, k);
    EffortIsBounded(states[j + 1].workers);
  }

  lemma EffortIsBounded(workers: seq<Worker>)
    ensures Sum(workers, EFFORT) <= 2 * |workers|
  {
  }

  /** A closed pool is never stuck: a worker that has not ended can take a step. */
  lemma ClosedPoolAdvances(states: seq<Pool>, actions: seq<Action>, j: nat, k: nat, w: nat)
    requires History(states, actions) && j < k <= |actions| && IsClosing(actions[j])
    requires w < |states[k].workers| && !states[k].workers[w].Ended()
    ensures Enabled(states[k], Poll(w)) || forall outcome :: Enabled(states[k], Finish(w, outcome))
    ensures Remaining(states[k]) > 0
  {
    ClosedForGood(states, actions, j, k);
    SumPositive(states[k].workers, w, EFFORT);
  }

  /**
   Once all workers have ended, every accepted task was answered, lost, discarded by cancelling or left in the queue,
   each exactly once.  None is left if a worker ended normally, and none is discarded without cancelling.
   */
  lemma ShutdownAccountsForAll(states: seq<Pool>, actions: seq<Action>, k: nat)
    requires History(states, actions) && k <= |actions|
    requires forall w :: 0 <= w < |states[k].workers| ==> states[k].workers[w].Ended()
    ensures multiset(states[k].accepted) == multiset(states[k].sent) + multiset(states[k].lost)
                                          + multiset(states[k].tasks) + multiset(states[k].discarded)
    ensures Stopped in states[k].workers ==> states[k].tasks == []
    ensures (forall j :: 0 <= j < k ==> actions[j] != Cancel) ==> states[k].discarded == []
  {
    var s := states[k];
    InvHolds(states, actions, k);
    if forall j :: 0 <= j < k ==> actions[j] != Cancel {
      NothingDiscarded(states, actions, k);
    }
    forall task ensures multiset(s.delivered)[task] == multiset(s.sent)[task] + multiset(s.lost)[task] {
      assert AnsweredFor(s, task);
      SumZero(s.workers, Holding(task));
    }
    assert multiset(s.delivered) == multiset(s.sent) + multiset(s.lost);
  }

  /** `shutdown` joins every worker and fails exactly when one panicked. */
  method Join(workers: seq<Worker>) returns (ok: bool)
    requires forall w :: 0 <= w < |workers| ==> workers[w].Ended()
    ensures ok <==> Panicked !in workers
  {
    var panicked := false;
    for i := 0 to |workers|
      invariant panicked <==> Panicked in workers[..i]
    {
      panicked := panicked || workers[i].Panicked?;
    }
    ok := !panicked;
  }

  // ---------- The queue itself ----------

  datatype Polled = Got(task: Task) | Nothing | MustWait

  /** The mutex-protected state and the wait set of its condition variable. */
  class TaskQueue {
    var tasks: seq<Task>
    var closed: bool
    var waiting: set<nat>

    /** This queue is the one in the middle of `pool`. */
    ghost predicate Serves(pool: Pool)
      reads this
    {
      && tasks == pool.tasks && closed == pool.closed
      && (forall w: nat :: w in waiting <==> w < |pool.workers| && pool.workers[w] == Waiting)
    }

    constructor ()
      ensures Serves(EMPTY)
    {
      tasks, closed, waiting := [], false, {};
    }

    method Push(task: Task, ghost pool: Pool) returns (accepted: bool, woken: Option<nat>)
      requires Serves(pool)
      modifies this
      ensures accepted == !old(closed) && closed == old(closed)
      ensures tasks == if accepted then old(tasks) + [task] else old(tasks)
      ensures woken.Some? <==> accepted && old(waiting) != {}
      ensures if woken.Some? then woken.value in old(waiting) && waiting == old(waiting) - {woken.value}
        else waiting == old(waiting)
      ensures Enabled(pool, Action.Push(task, woken)) && Serves(Next(pool, Action.Push(task, woken)))
    {
      woken := None;
      if closed {
        return false, woken;
      }
      tasks := tasks + [task];
      if waiting != {} {
        var w :| w in waiting;
        waiting := waiting - {w};
        woken := Some(w);
      } else {
        assert forall w: nat :: w < |pool.workers| ==> w !in waiting;
      }
      accepted := true;
    }

    /** One pass of `pop` through its loop, by a worker that does not wait. */
    method Poll(worker: nat, ghost pool: Pool) returns (r: Polled)
      requires Serves(pool) && Enabled(pool, Action.Poll(worker))
      modifies this
      ensures Serves(Next(pool, Action.Poll(worker)))
      ensures Next(pool, Action.Poll(worker)).workers[worker] ==
        match r { case Got(task) => Busy(task) case Nothing => Stopped case MustWait => Waiting }
      ensures closed == old(closed) && (r.Got? <==> old(tasks) != []) && (r.Nothing? <==> old(tasks) == [] && closed)
      ensures r.Got? ==> old(tasks) == [r.task] + tasks && waiting == old(waiting)
      ensures !r.Got? ==> tasks == [] && waiting == if r.MustWait? then old(waiting) + {worker} else old(waiting)
    {
      if tasks != [] {
        r := Got(tasks[0]);
        tasks := tasks[1..];
      } else if closed {
        r := Nothing;
      } else {
        r := MustWait;
        waiting := waiting + {worker};
      }
    }

    method Close(ghost pool: Pool)
      requires Serves(pool)
      modifies this
      ensures Serves(Next(pool, Action.Close))
      ensures closed && waiting == {} && tasks == old(tasks)
    {
      closed := true;
      waiting := {};
    }

    method Cancel(ghost pool: Pool)
      requires Serves(pool)
      modifies this
      ensures Serves(Next(pool, Action.Cancel))
      ensures closed && waiting == {} && tasks == []
    {
      tasks := [];
      closed := true;
      waiting := {};
    }
  }
}
