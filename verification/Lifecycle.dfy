/** Lifecycle hooks, which may run the program again and so more hooks. */
module Lifecycle {
  import opened Wrappers
  import opened Enumerations
  import opened Strings

  datatype Phase =
    | PreInstall | PostInstall | PreBuild | PostBuild | PreTest | PostTest
    | PrePack | PostPack | PrePublish | PostPublish | PreUninstall | PostUninstall

  function Name(phase: Phase): string {
    match phase
    case PreInstall => "pre-install"
    case PostInstall => "post-install"
    case PreBuild => "pre-build"
    case PostBuild => "post-build"
    case PreTest => "pre-test"
    case PostTest => "post-test"
    case PrePack => "pre-pack"
    case PostPack => "post-pack"
    case PrePublish => "pre-publish"
    case PostPublish => "post-publish"
    case PreUninstall => "pre-uninstall"
    case PostUninstall => "post-uninstall"
  }

  // ---------- The stack as text ----------

  /** What the text names, blanks around the items not counted. */
  function Items(text: string): seq<string> {
    Trimmed(Split(text, ','))
  }

  function Trimmed(items: seq<string>): (trimmed: seq<string>)
    ensures |trimmed| == |items|
  {
    if items == [] then [] else [Trim(items[0])] + Trimmed(items[1..])
  }

  function NonEmpty(items: seq<string>): nat {
    if items == [] then 0 else (if items[0] != "" then 1 else 0) + NonEmpty(items[1..])
  }

  function Extended(existing: string, phase: Phase): string {
    if Trim(existing) == "" then Name(phase) else existing + "," + Name(phase)
  }

  /** The depth handed to a hook. */
  function Depth(text: string): nat {
    NonEmpty(Items(text))
  }

  predicate Skips(existing: string, phase: Phase) {
    Name(phase) in Items(existing)
  }

  lemma {:induction false} SplitAppend(left: string, item: string)
    requires ',' !in item
    ensures Split(left + "," + item, ',') == Split(left, ',') + [item]
    decreases |left|
  {
    var (i, all) := (IndexOf(left, ','), left + "," + item);
    if i == |left| {
      SplitAt(left, ',', item);
      assert IndexOf(item, ',') == |item|;
    } else {
      var (head, tail) := (left[..i], left[i + 1..]);
      assert left == head + [','] + tail;
      assert all == head + [','] + (tail + "," + item);
      SplitAt(head, ',', tail + "," + item);
      SplitAt(head, ',', tail);
      SplitAppend(tail, item);
      assert [head] + (Split(tail, ',') + [item]) == [head] + Split(tail, ',') + [item];
    }
  }

  lemma {:induction false} TrimmedAppend(items: seq<string>, item: string)
    ensures Trimmed(items + [item]) == Trimmed(items) + [Trim(item)]
  {
    if items != [] {
      TrimmedAppend(items[1..], item);
      assert (items + [item])[1..] == items[1..] + [item];
    }
  }

  lemma {:induction false} NonEmptyAppend(items: seq<string>, item: string)
    ensures NonEmpty(items + [item]) == NonEmpty(items) + if item != "" then 1 else 0
  {
    if items != [] {
      NonEmptyAppend(items[1..], item);
      assert (items + [item])[1..] == items[1..] + [item];
    }
  }

  lemma NameIsItem(phase: Phase)
    ensures Name(phase) != "" && ',' !in Name(phase) && Trim(Name(phase)) == Name(phase)
  {
    NameIsTight(phase);
    TrimTight(Name(phase));
  }

  lemma NameIsTight(phase: Phase)
    ensures ',' !in Name(phase) && Tight(Name(phase))
  {
  }

  /** Joining and splitting agree: one phase more is one item more. */
  lemma ExtendedItems(existing: string, phase: Phase)
    ensures Trim(existing) == "" ==> Items(Extended(existing, phase)) == [Name(phase)]
    ensures Trim(existing) != "" ==> Items(Extended(existing, phase)) == Items(existing) + [Name(phase)]
    ensures Trim(existing) != "" ==> Depth(Extended(existing, phase)) == Depth(existing) + 1
  {
    NameIsItem(phase);
    assert IndexOf(Name(phase), ',') == |Name(phase)|;
    SplitAppend(existing, Name(phase));
    TrimmedAppend(Split(existing, ','), Name(phase));
    NonEmptyAppend(Items(existing), Name(phase));
  }

  // ---------- Stacks without repetition ----------

  function Names(phases: seq<Phase>): (names: seq<string>)
    ensures |names| == |phases|
  {
    if phases == [] then [] else Names(phases[..|phases| - 1]) + [Name(phases[|phases| - 1])]
  }

  /** The text of a stack built from nothing: these phases, each once. */
  ghost predicate Stack(text: string, phases: seq<Phase>) {
    && Distinct(phases)
    && if phases == [] then Trim(text) == "" else Trim(text) != "" && Items(text) == Names(phases)
  }

  lemma TrimEndKeeps(s: string)
    requires s != "" && !IsSpace(s[0])
    ensures TrimEnd(s) != ""
  {
  }

  lemma BlankItems(text: string)
    ensures Trim(text) == "" ==> Items(text) == [""]
  {
    if TrimStart(text) != "" {
      StartsDark(text);
      TrimEndKeeps(TrimStart(text));
    } else {
      BlankHasNoComma(text);
      assert IndexOf(text, ',') == |text|;
      assert Split(text, ',') == [text] && [text][1..] == [];
    }
  }

  lemma StartsDark(s: string)
    ensures TrimStart(s) != "" ==> !IsSpace(TrimStart(s)[0])
  {
  }

  lemma BlankHasNoComma(s: string)
    requires TrimStart(s) == ""
    ensures ',' !in s
  {
  }

  lemma NotBlank(text: string, phase: Phase)
    ensures Trim(Extended(text, phase)) != ""
  {
    BlankItems(Extended(text, phase));
    ExtendedItems(text, phase);
    NameIsItem(phase);
    var items := Items(Extended(text, phase));
    assert Trim(text) == "" || items == Items(text) + [Name(phase)];
    assert items[|items| - 1] == Name(phase);
  }

  lemma {:induction false} NamesContain(phases: seq<Phase>, phase: Phase)
    ensures Name(phase) in Names(phases) <==> phase in phases
  {
    if phases != [] {
      var (front, last) := (phases[..|phases| - 1], phases[|phases| - 1]);
      NamesContain(front, phase);
      assert phases == front + [last];
      assert Name(phase) == Name(last) ==> phase == last;
    }
  }

  lemma {:induction false} NamesAreNonEmpty(phases: seq<Phase>)
    ensures NonEmpty(Names(phases)) == |phases|
  {
    if phases != [] {
      var (front, last) := (phases[..|phases| - 1], phases[|phases| - 1]);
      NamesAreNonEmpty(front);
      NonEmptyAppend(Names(front), Name(last));
      NameIsItem(last);
    }
  }

  /** Entering a phase that is not on the stack gives a stack one longer. */
  lemma StackGrows(text: string, phases: seq<Phase>, phase: Phase)
    requires Stack(text, phases) && !Skips(text, phase)
    ensures Stack(Extended(text, phase), phases + [phase])
    ensures Depth(Extended(text, phase)) == |phases| + 1
  {
    ExtendedItems(text, phase);
    NotBlank(text, phase);
    NamesContain(phases, phase);
    NamesAreNonEmpty(phases + [phase]);
    assert (phases + [phase])[..|phases|] == phases;
    assert Names(phases + [phase]) == Names(phases) + [Name(phase)];
  }

  lemma {:induction false} AtMostTwelve(phases: seq<Phase>, all: set<Phase>)
    requires Distinct(phases) && forall i :: 0 <= i < |phases| ==> phases[i] in all
    ensures |phases| <= |all|
    decreases |phases|
  {
    if phases != [] {
      var (front, last) := (phases[..|phases| - 1], phases[|phases| - 1]);
      AtMostTwelve(front, all - {last});
    }
  }

  lemma StackIsShort(phases: seq<Phase>)
    requires Distinct(phases)
    ensures |phases| <= 12
  {
    var all := {PreInstall, PostInstall, PreBuild, PostBuild, PreTest, PostTest,
                PrePack, PostPack, PrePublish, PostPublish, PreUninstall, PostUninstall};
    forall i | 0 <= i < |phases| ensures phases[i] in all {
      assert phases[i].PreInstall? || phases[i] in all;
    }
    AtMostTwelve(phases, all);
  }

  // ---------- Running hooks ----------

  /** A hook: the phases its own `zed` commands enter, in order, and how it ends. */
  datatype Script = Script(nested: seq<Phase>, succeeds: bool)

  /** What resolving the hooks of a phase gives, and whether hooks are switched off. */
  datatype Project = Project(hooks: Phase -> Result<seq<Script>>, skip: bool)

  datatype Report = Report(phase: Phase, discovered: nat, executed: nat, skipped: bool)

  /** Hook `index` of a phase starts, at some depth and with the stack it hands on. */
  datatype Event = Started(phase: Phase, index: nat, depth: nat, stack: string)

  predicate Idle(project: Project, existing: string, phase: Phase) {
    project.skip || Skips(existing, phase)
  }

  predicate Passes(project: Project, existing: string, phase: Phase) {
    || Idle(project, existing, phase)
    || (project.hooks(phase).Ok? && forall i :: 0 <= i < |project.hooks(phase).value| ==>
          project.hooks(phase).value[i].succeeds)
  }

  /** How many hooks of the phase run. */
  function Run(project: Project, existing: string, phase: Phase): nat {
    if Idle(project, existing, phase) || project.hooks(phase).Err? then 0
    else UntilFailure(project.hooks(phase).value, 0)
  }

  /** How many hooks there are from `i` on, up to and with the first that fails. */
  function UntilFailure(hooks: seq<Script>, i: nat): nat
    requires i <= |hooks|
    decreases |hooks| - i
  {
    if i == |hooks| then 0 else if hooks[i].succeeds then 1 + UntilFailure(hooks, i + 1) else 1
  }

  // ---------- What runs ----------

  /** Everything that runs for a phase, in order. `phases` is the stack, each phase once. */
  ghost function PhaseTrace(project: Project, existing: string, phase: Phase, phases: seq<Phase>): seq<Event>
    requires Stack(existing, phases)
    decreases 12 - |phases|, 1, 0
  {
    if Idle(project, existing, phase) || project.hooks(phase).Err? then []
    else
      StackGrows(existing, phases, phase);
      StackIsShort(phases + [phase]);
      HooksTrace(project, Extended(existing, phase), project.hooks(phase).value, phase, phases + [phase], 0)
  }

  /** The hooks from `i` on: each with what it causes, until one fails. */
  ghost function HooksTrace(
    project: Project, stack: string, hooks: seq<Script>, phase: Phase, phases: seq<Phase>, i: nat): seq<Event>
    requires Stack(stack, phases) && 0 < |phases| <= 12 && i <= |hooks|
    decreases 12 - |phases|, 4, |hooks| - i
  {
    if i == |hooks| then []
    else
      HookTrace(project, stack, hooks[i], phase, phases, i)
      + if hooks[i].succeeds then HooksTrace(project, stack, hooks, phase, phases, i + 1) else []
  }

  /** The commands of one hook, each on the stack it was given. */
  ghost function NestedTrace(project: Project, stack: string, nested: seq<Phase>, phases: seq<Phase>): seq<Event>
    requires Stack(stack, phases) && |phases| <= 12
    decreases 12 - |phases|, 2, |nested|
  {
    if nested == [] then []
    else PhaseTrace(project, stack, nested[0], phases) + NestedTrace(project, stack, nested[1..], phases)
  }

  lemma {:induction false} Regroup<T>(t: seq<T>, own: seq<T>, nested: seq<T>, rest: seq<T>)
    ensures t + (own + nested + rest) == t + own + nested + rest
  {
  }

  /** The events of hook `i` and of what it causes. */
  ghost function HookTrace(
    project: Project, stack: string, hook: Script, phase: Phase, phases: seq<Phase>, i: nat): seq<Event>
    requires Stack(stack, phases) && 0 < |phases| <= 12
    decreases 12 - |phases|, 3, 0
  {
    [Started(phase, i, Depth(stack), stack)] + NestedTrace(project, stack, hook.nested, phases)
  }

  /**
   Runs the hooks of a phase.  The recursion ends because each level puts one more of the twelve phases
   on the stack.
   */
  method RunPhase(project: Project, existing: string, phase: Phase, ghost phases: seq<Phase>)
    returns (r: Result<Report>, trace: seq<Event>)
    requires Stack(existing, phases)
    ensures r.Ok? <==> Passes(project, existing, phase)
    ensures r.Ok? ==> r.value.phase == phase && r.value.skipped == Idle(project, existing, phase)
    ensures r.Ok? && !r.value.skipped ==>
      r.value.executed == r.value.discovered == |project.hooks(phase).value|
    ensures trace == PhaseTrace(project, existing, phase, phases)
    decreases 12 - |phases|, 1, 0
  {
    if project.skip || Skips(existing, phase) {
      return Ok(Report(phase, 0, 0, true)), [];
    }
    var resolved := project.hooks(phase);
    if resolved.Err? {
      return Err, [];
    }
    var hooks := resolved.value;
    StackGrows(existing, phases, phase);
    StackIsShort(phases + [phase]);
    var passed;
    passed, trace := RunHooks(project, Extended(existing, phase), hooks, phase, phases + [phase]);
    r := if passed then Ok(Report(phase, |hooks|, |hooks|, false)) else Err;
  }

  method RunHooks(project: Project, stack: string, hooks: seq<Script>, phase: Phase, ghost phases: seq<Phase>)
    returns (passed: bool, trace: seq<Event>)
    requires Stack(stack, phases) && 0 < |phases| <= 12
    ensures passed <==> forall i :: 0 <= i < |hooks| ==> hooks[i].succeeds
    ensures trace == HooksTrace(project, stack, hooks, phase, phases, 0)
    decreases 12 - |phases|, 4, 0
  {
    trace := [];
    for i := 0 to |hooks|
      invariant HooksTrace(project, stack, hooks, phase, phases, 0)
             == trace + HooksTrace(project, stack, hooks, phase, phases, i)
      invariant forall j :: 0 <= j < i ==> hooks[j].succeeds
    {
      HooksStep(project, stack, hooks, phase, phases, i, trace);
      var own := RunOne(project, stack, hooks[i], phase, i, phases);
      trace := trace + own;
      if !hooks[i].succeeds {
        return false, trace;
      }
    }
    passed := true;
  }

  lemma {:induction false} HooksStep(
      project: Project, stack: string, hooks: seq<Script>, phase: Phase, phases: seq<Phase>, i: nat, t: seq<Event>)
    requires Stack(stack, phases) && 0 < |phases| <= 12 && i < |hooks|
    ensures t + HooksTrace(project, stack, hooks, phase, phases, i)
         == t + HookTrace(project, stack, hooks[i], phase, phases, i)
            + if hooks[i].succeeds then HooksTrace(project, stack, hooks, phase, phases, i + 1) else []
    ensures !hooks[i].succeeds ==>
      t + HooksTrace(project, stack, hooks, phase, phases, i)
      == t + HookTrace(project, stack, hooks[i], phase, phases, i)
  {
    var own := HookTrace(project, stack, hooks[i], phase, phases, i);
    var rest := if hooks[i].succeeds then HooksTrace(project, stack, hooks, phase, phases, i + 1) else [];
    Regroup(t, own, [], rest);
    assert own + [] == own && t + own + [] == t + own;
  }

  method RunOne(project: Project, stack: string, hook: Script, phase: Phase, i: nat, ghost phases: seq<Phase>)
    returns (trace: seq<Event>)
    requires Stack(stack, phases) && 0 < |phases| <= 12
    ensures trace == HookTrace(project, stack, hook, phase, phases, i)
    decreases 12 - |phases|, 3, 0
  {
    var nested := RunNested(project, stack, hook.nested, phases);
    trace := [Started(phase, i, Depth(stack), stack)] + nested;
  }

  /** The commands of one hook; the hook's own status does not depend on theirs. */
  method RunNested(project: Project, stack: string, nested: seq<Phase>, ghost phases: seq<Phase>)
    returns (trace: seq<Event>)
    requires Stack(stack, phases) && |phases| <= 12
    ensures trace == NestedTrace(project, stack, nested, phases)
    decreases 12 - |phases|, 2, 0
  {
    trace := [];
    assert nested[0..] == nested;
    for i := 0 to |nested|
      invariant NestedTrace(project, stack, nested, phases) == trace + NestedTrace(project, stack, nested[i..], phases)
    {
      NestedStep(project, stack, nested, phases, i, trace);
      var r, inner := RunPhase(project, stack, nested[i], phases);
      trace := trace + inner;
    }
    assert nested[|nested|..] == [];
  }

  lemma {:induction false} NestedStep(
      project: Project, stack: string, nested: seq<Phase>, phases: seq<Phase>, i: nat, t: seq<Event>)
    requires Stack(stack, phases) && |phases| <= 12 && i < |nested|
    ensures t + NestedTrace(project, stack, nested[i..], phases)
         == t + PhaseTrace(project, stack, nested[i], phases) + NestedTrace(project, stack, nested[i + 1..], phases)
  {
    assert nested[i..][1..] == nested[i + 1..] && nested[i..][0] == nested[i];
    Regroup(t, PhaseTrace(project, stack, nested[i], phases), [], NestedTrace(project, stack, nested[i + 1..], phases));
    var inner := PhaseTrace(project, stack, nested[i], phases);
    assert inner + [] == inner && t + inner + [] == t + inner;
  }

  /** The operation runs exactly if the hooks before it pass, and the hooks after it only if it succeeds. */
  method Around(project: Project, existing: string, ghost phases: seq<Phase>, pre: Phase, post: Phase, operation: bool)
    returns (r: Result<()>, before: seq<Event>, ran: bool, after: seq<Event>)
    requires Stack(existing, phases)
    ensures r.Ok? <==> Passes(project, existing, pre) && operation && Passes(project, existing, post)
    ensures ran <==> Passes(project, existing, pre)
    ensures before == PhaseTrace(project, existing, pre, phases)
    ensures after == if ran && operation then PhaseTrace(project, existing, post, phases) else []
  {
    after, ran := [], false;
    var report;
    report, before := RunPhase(project, existing, pre, phases);
    if report.Err? {
      return Err, before, false, [];
    }
    ran := true;
    if !operation {
      return Err, before, true, [];
    }
    report, after := RunPhase(project, existing, post, phases);
    r := if report.Ok? then Ok(()) else Err;
  }

  // ---------- What this means ----------

  /** The events at one depth, in order. */
  function AtDepth(trace: seq<Event>, depth: nat): seq<Event> {
    if trace == [] then []
    else (if trace[0].depth == depth then [trace[0]] else []) + AtDepth(trace[1..], depth)
  }

  lemma {:induction false} AtDepthAppend(left: seq<Event>, right: seq<Event>, depth: nat)
    ensures AtDepth(left + right, depth) == AtDepth(left, depth) + AtDepth(right, depth)
  {
    if left == [] {
      assert left + right == right;
    } else {
      AtDepthAppend(left[1..], right, depth);
      assert (left + right)[1..] == left[1..] + right && (left + right)[0] == left[0];
      var own := if left[0].depth == depth then [left[0]] else [];
      assert own + (AtDepth(left[1..], depth) + AtDepth(right, depth))
          == own + AtDepth(left[1..], depth) + AtDepth(right, depth);
    }
  }

  lemma {:induction false} NoneAtDepth(trace: seq<Event>, depth: nat)
    requires forall e :: e in trace ==> e.depth != depth
    ensures AtDepth(trace, depth) == []
  {
    if trace != [] {
      assert trace[0] in trace;
      NoneAtDepth(trace[1..], depth);
    }
  }

  /** The stack an event hands on names the phases entered so far, each once, the event's own last. */
  ghost predicate OnStack(e: Event, phases: seq<Phase>) {
    exists more :: Entered(e, phases, more)
  }

  ghost predicate Entered(e: Event, phases: seq<Phase>, more: seq<Phase>) {
    && more != [] && more[|more| - 1] == e.phase
    && Stack(e.stack, phases + more) && e.depth == |phases| + |more| <= 12
  }

  /**
   Every nested invocation runs on a duplicate-free stack that extends the one it was started from, its
   depth is the length of that stack, and none is deeper than twelve.
   */
  lemma {:induction false} EveryStackIsSound(project: Project, existing: string, phase: Phase, phases: seq<Phase>)
    requires Stack(existing, phases)
    ensures forall e :: e in PhaseTrace(project, existing, phase, phases) ==> OnStack(e, phases)
    decreases 12 - |phases|, 1, 0
  {
    if !Idle(project, existing, phase) && project.hooks(phase).Ok? {
      var all := phases + [phase];
      StackGrows(existing, phases, phase);
      StackIsShort(all);
      HooksAreSound(project, Extended(existing, phase), project.hooks(phase).value, phase, phases, 0);
    }
  }

  lemma {:induction false} HooksAreSound(
      project: Project, stack: string, hooks: seq<Script>, phase: Phase, phases: seq<Phase>, i: nat)
    requires Stack(stack, phases + [phase]) && |phases| < 12 && i <= |hooks|
    requires Depth(stack) == |phases| + 1
    ensures forall e :: e in HooksTrace(project, stack, hooks, phase, phases + [phase], i) ==> OnStack(e, phases)
    decreases 11 - |phases|, 3, |hooks| - i
  {
    if i < |hooks| {
      var own := Started(phase, i, Depth(stack), stack);
      assert Entered(own, phases, [phase]);
      NestedIsSound(project, stack, hooks[i].nested, phases + [phase]);
      forall e | e in NestedTrace(project, stack, hooks[i].nested, phases + [phase]) ensures OnStack(e, phases) {
        StackBelow(e, phases, phase);
      }
      HooksAreSound(project, stack, hooks, phase, phases, i + 1);
    }
  }

  lemma {:induction false} EnteredSame(
      e: Event, phases: seq<Phase>, more: seq<Phase>, fewer: seq<Phase>, rest: seq<Phase>)
    requires Entered(e, phases, more) && phases + more == fewer + rest && |more| < |rest|
    requires rest[|rest| - 1] == more[|more| - 1]
    ensures Entered(e, fewer, rest)
  {
    assert |phases + more| == |fewer + rest|;
  }

  lemma {:induction false} StackBelow(e: Event, phases: seq<Phase>, phase: Phase)
    requires OnStack(e, phases + [phase])
    ensures OnStack(e, phases) && e.depth > |phases| + 1
  {
    var more :| Entered(e, phases + [phase], more);
    Regroup(phases, [phase], more, []);
    assert [phase] + more + [] == [phase] + more && phases + [phase] + more + [] == phases + [phase] + more;
    EnteredSame(e, phases + [phase], more, phases, [phase] + more);
  }

  lemma {:induction false} NestedIsSound(project: Project, stack: string, nested: seq<Phase>, phases: seq<Phase>)
    requires Stack(stack, phases) && |phases| <= 12
    ensures forall e :: e in NestedTrace(project, stack, nested, phases) ==> OnStack(e, phases)
    decreases 12 - |phases|, 2, |nested|
  {
    if nested != [] {
      EveryStackIsSound(project, stack, nested[0], phases);
      NestedIsSound(project, stack, nested[1..], phases);
    }
  }

  /** Hooks `i` and on, `n` of them, each once and in order. */
  function Starts(phase: Phase, stack: string, depth: nat, i: nat, n: nat): seq<Event> {
    seq(n, k requires 0 <= k < n => Started(phase, i + k, depth, stack))
  }

  lemma {:induction false} StartsMore(phase: Phase, stack: string, depth: nat, i: nat, n: nat)
    ensures Starts(phase, stack, depth, i, n + 1)
         == [Started(phase, i, depth, stack)] + Starts(phase, stack, depth, i + 1, n)
  {
  }

  /** Of the events of a hook, only its own start is at its depth. */
  lemma {:induction false} OneAtDepth(
      project: Project, stack: string, hook: Script, phase: Phase, phases: seq<Phase>, i: nat)
    requires Stack(stack, phases + [phase]) && |phases| < 12 && Depth(stack) == |phases| + 1
    ensures AtDepth(HookTrace(project, stack, hook, phase, phases + [phase], i), |phases| + 1)
         == [Started(phase, i, |phases| + 1, stack)]
  {
    var (own, depth) := ([Started(phase, i, |phases| + 1, stack)], |phases| + 1);
    var nested := NestedTrace(project, stack, hook.nested, phases + [phase]);
    NestedIsSound(project, stack, hook.nested, phases + [phase]);
    forall e | e in nested ensures e.depth != depth {
      StackBelow(e, phases, phase);
    }
    NoneAtDepth(nested, depth);
    AtDepthAppend(own, nested, depth);
    assert own[1..] == [] && AtDepth(own, depth) == own;
  }

  /** The hooks of the phase run in order, each once, up to the first that fails. */
  lemma {:induction false} HooksRunInOrder(project: Project, existing: string, phase: Phase, phases: seq<Phase>)
    requires Stack(existing, phases)
    ensures AtDepth(PhaseTrace(project, existing, phase, phases), |phases| + 1)
         == Starts(phase, Extended(existing, phase), |phases| + 1, 0, Run(project, existing, phase))
  {
    if !Idle(project, existing, phase) && project.hooks(phase).Ok? {
      StackGrows(existing, phases, phase);
      StackIsShort(phases + [phase]);
      HooksFrom(project, Extended(existing, phase), project.hooks(phase).value, phase, phases, 0);
    }
  }

  lemma {:induction false} HooksFrom(
      project: Project, stack: string, hooks: seq<Script>, phase: Phase, phases: seq<Phase>, i: nat)
    requires Stack(stack, phases + [phase]) && |phases| < 12 && i <= |hooks| && Depth(stack) == |phases| + 1
    ensures AtDepth(HooksTrace(project, stack, hooks, phase, phases + [phase], i), |phases| + 1)
         == Starts(phase, stack, |phases| + 1, i, UntilFailure(hooks, i))
    decreases |hooks| - i
  {
    if i < |hooks| {
      var depth := |phases| + 1;
      var own := HookTrace(project, stack, hooks[i], phase, phases + [phase], i);
      OneAtDepth(project, stack, hooks[i], phase, phases, i);
      if hooks[i].succeeds {
        HooksFrom(project, stack, hooks, phase, phases, i + 1);
        AtDepthAppend(own, HooksTrace(project, stack, hooks, phase, phases + [phase], i + 1), depth);
        StartsMore(phase, stack, depth, i, UntilFailure(hooks, i + 1));
      } else {
        assert own + [] == own;
        StartsMore(phase, stack, depth, i, 0);
      }
    }
  }

  /** What a hook causes comes between its own start and the next one. */
  lemma {:induction false} NestedInBetween(
      project: Project, stack: string, hooks: seq<Script>, phase: Phase, phases: seq<Phase>, i: nat, k: nat)
    returns (before: seq<Event>, after: seq<Event>)
    requires Stack(stack, phases + [phase]) && |phases| < 12 && Depth(stack) == |phases| + 1
    requires i <= k < |hooks| && forall j :: i <= j < k ==> hooks[j].succeeds
    ensures HooksTrace(project, stack, hooks, phase, phases + [phase], i)
         == before + HookTrace(project, stack, hooks[k], phase, phases + [phase], k) + after
    ensures AtDepth(before, |phases| + 1) == Starts(phase, stack, |phases| + 1, i, k - i)
    ensures after
         == if hooks[k].succeeds then HooksTrace(project, stack, hooks, phase, phases + [phase], k + 1) else []
    decreases k - i
  {
    if i == k {
      before := [];
      after := if hooks[k].succeeds then HooksTrace(project, stack, hooks, phase, phases + [phase], k + 1) else [];
      BetweenFirst(project, stack, hooks, phase, phases + [phase], k);
    } else {
      var middle;
      middle, after := NestedInBetween(project, stack, hooks, phase, phases, i + 1, k);
      before := HookTrace(project, stack, hooks[i], phase, phases + [phase], i) + middle;
      OneMoreBetween(project, stack, hooks, phase, phases, i, k, middle, after);
      OneMoreStart(project, stack, hooks[i], phase, phases, i, k - i - 1, middle);
    }
  }

  lemma {:induction false} BetweenFirst(
      project: Project, stack: string, hooks: seq<Script>, phase: Phase, phases: seq<Phase>, k: nat)
    requires Stack(stack, phases) && 0 < |phases| <= 12 && k < |hooks|
    ensures HooksTrace(project, stack, hooks, phase, phases, k)
         == [] + HookTrace(project, stack, hooks[k], phase, phases, k)
            + if hooks[k].succeeds then HooksTrace(project, stack, hooks, phase, phases, k + 1) else []
  {
    var own := HookTrace(project, stack, hooks[k], phase, phases, k);
    assert [] + own == own;
  }

  lemma {:induction false} OneMoreBetween(
      project: Project, stack: string, hooks: seq<Script>, phase: Phase, phases: seq<Phase>, i: nat, k: nat,
      middle: seq<Event>, after: seq<Event>)
    requires Stack(stack, phases + [phase]) && |phases| < 12 && i < k < |hooks| && hooks[i].succeeds
    requires HooksTrace(project, stack, hooks, phase, phases + [phase], i + 1)
          == middle + HookTrace(project, stack, hooks[k], phase, phases + [phase], k) + after
    ensures HooksTrace(project, stack, hooks, phase, phases + [phase], i)
         == HookTrace(project, stack, hooks[i], phase, phases + [phase], i) + middle
            + HookTrace(project, stack, hooks[k], phase, phases + [phase], k) + after
  {
    var own := HookTrace(project, stack, hooks[i], phase, phases + [phase], i);
    Regroup(own, middle, HookTrace(project, stack, hooks[k], phase, phases + [phase], k), after);
  }

  lemma {:induction false} OneMoreStart(
      project: Project, stack: string, hook: Script, phase: Phase, phases: seq<Phase>, i: nat, n: nat,
      middle: seq<Event>)
    requires Stack(stack, phases + [phase]) && |phases| < 12 && Depth(stack) == |phases| + 1
    requires AtDepth(middle, |phases| + 1) == Starts(phase, stack, |phases| + 1, i + 1, n)
    ensures AtDepth(HookTrace(project, stack, hook, phase, phases + [phase], i) + middle, |phases| + 1)
         == Starts(phase, stack, |phases| + 1, i, n + 1)
  {
    OneAtDepth(project, stack, hook, phase, phases, i);
    AtDepthAppend(HookTrace(project, stack, hook, phase, phases + [phase], i), middle, |phases| + 1);
    StartsMore(phase, stack, |phases| + 1, i, n);
  }

  // ---------- In terms of switches, texts and hooks ----------

  /** Hooks are passed over exactly if they are switched off or the phase is one of the items of the inherited text. */
  lemma {:induction false} IdleExactly(project: Project, existing: string, phase: Phase)
    ensures Idle(project, existing, phase) <==>
      project.skip || exists i :: 0 <= i < |Split(existing, ',')| && Trim(Split(existing, ',')[i]) == Name(phase)
  {
    var items := Split(existing, ',');
    TrimmedAre(items);
    if i :| 0 <= i < |items| && Trim(items[i]) == Name(phase) {
      assert Items(existing)[i] == Name(phase) && Skips(existing, phase);
      assert Trim(Split(existing, ',')[i]) == Name(phase);
    }
  }

  lemma {:induction false} TrimmedAre(items: seq<string>)
    ensures forall i :: 0 <= i < |items| ==> Trimmed(items)[i] == Trim(items[i])
  {
    if items != [] {
      TrimmedAre(items[1..]);
    }
  }

  /** Switched off, or inside itself, a phase starts nothing, and its operation goes on. */
  lemma {:induction false} IdleStartsNothing(project: Project, existing: string, phase: Phase, phases: seq<Phase>)
    requires Stack(existing, phases) && (project.skip || phase in phases)
    ensures PhaseTrace(project, existing, phase, phases) == [] && Passes(project, existing, phase)
    ensures Run(project, existing, phase) == 0
  {
    NamesContain(phases, phase);
    if !project.skip && phases != [] {
      assert Items(existing) == Names(phases);
    }
  }

  /** Otherwise its first hook starts first, with the phase at the end of the text it inherits. */
  lemma {:induction false} FirstStarts(project: Project, existing: string, phase: Phase, phases: seq<Phase>)
    requires Stack(existing, phases) && !project.skip && phase !in phases
    requires project.hooks(phase).Ok? && project.hooks(phase).value != []
    ensures PhaseTrace(project, existing, phase, phases) != []
    ensures PhaseTrace(project, existing, phase, phases)[0]
         == Started(phase, 0, |phases| + 1, if phases == [] then Name(phase) else existing + "," + Name(phase))
  {
    NotSkipped(existing, phase, phases);
    StackGrows(existing, phases, phase);
    StackIsShort(phases + [phase]);
    FirstOfHooks(project, Extended(existing, phase), project.hooks(phase).value, phase, phases + [phase]);
  }

  lemma {:induction false} NotSkipped(existing: string, phase: Phase, phases: seq<Phase>)
    requires Stack(existing, phases) && phase !in phases
    ensures !Skips(existing, phase)
    ensures Extended(existing, phase) == if phases == [] then Name(phase) else existing + "," + Name(phase)
  {
    NamesContain(phases, phase);
    if phases == [] {
      BlankItems(existing);
      NameIsItem(phase);
    }
  }

  lemma {:induction false} FirstOfHooks(
      project: Project, stack: string, hooks: seq<Script>, phase: Phase, phases: seq<Phase>)
    requires Stack(stack, phases) && 0 < |phases| <= 12 && hooks != []
    ensures HooksTrace(project, stack, hooks, phase, phases, 0) != []
    ensures HooksTrace(project, stack, hooks, phase, phases, 0)[0] == Started(phase, 0, Depth(stack), stack)
  {
    assert HookTrace(project, stack, hooks[0], phase, phases, 0)[0] == Started(phase, 0, Depth(stack), stack);
  }

  /** How many hooks run: all, or those up to and with the first that fails. */
  lemma {:induction false} RunExactly(project: Project, existing: string, phase: Phase, n: nat)
    requires !Idle(project, existing, phase) && project.hooks(phase).Ok? && n <= |project.hooks(phase).value|
    requires forall i :: 0 <= i < n ==> project.hooks(phase).value[i].succeeds
    ensures n == |project.hooks(phase).value| ==>
      Run(project, existing, phase) == n && Passes(project, existing, phase)
    ensures n < |project.hooks(phase).value| && !project.hooks(phase).value[n].succeeds ==>
      Run(project, existing, phase) == n + 1 && !Passes(project, existing, phase)
  {
    RunFrom(project.hooks(phase).value, 0, n);
  }

  lemma {:induction false} RunFrom(hooks: seq<Script>, i: nat, n: nat)
    requires i <= n <= |hooks| && forall j :: i <= j < n ==> hooks[j].succeeds
    ensures n == |hooks| ==> UntilFailure(hooks, i) == n - i
    ensures n < |hooks| && !hooks[n].succeeds ==> UntilFailure(hooks, i) == n + 1 - i
    decreases n - i
  {
    if i < n {
      RunFrom(hooks, i + 1, n);
    }
  }

  /** The names of the phases, as hooks are declared and as the stack spells them. */
  lemma PhaseNames()
    ensures Name(PreInstall) == "pre-install" && Name(PostInstall) == "post-install"
    ensures Name(PreBuild) == "pre-build" && Name(PostBuild) == "post-build"
    ensures Name(PreTest) == "pre-test" && Name(PostTest) == "post-test"
    ensures Name(PrePack) == "pre-pack" && Name(PostPack) == "post-pack"
    ensures Name(PrePublish) == "pre-publish" && Name(PostPublish) == "post-publish"
    ensures Name(PreUninstall) == "pre-uninstall" && Name(PostUninstall) == "post-uninstall"
  {
  }
}
