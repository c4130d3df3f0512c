/** The job scheduler: one controller thread passes over the job list, worker threads finish jobs at any time.

Jobs are numbered in the order they are added. A step of the controller looks at one job; the steps
of callers and workers interleave with them. The controller holds the lock during its two passes, so jobs are
added only between them. */
module JobController {
  import opened Basics

  datatype Phase = Sleeping | Starting(next: nat) | Reaping(next: nat)

  /** `list` is what the controller holds; `starts` and `removals` record what it did, in order. */
  datatype State = State(
    capacity: nat, added: nat, phase: Phase, list: seq<nat>, started: set<nat>, completed: set<nat>,
    threads: set<nat>, starts: seq<nat>, removals: seq<nat>)

  function Initial(capacity: nat): State { State(capacity, 0, Sleeping, [], {}, {}, {}, [], []) }

  datatype Step =
    | AddJob // a caller appends a job
    | WakeUp // the controller begins its start pass
    | Inspect // the controller looks at one job, or ends a pass
    | Complete(job: nat) // a running job marks itself completed
    | ThreadEnds(job: nat) // the pool gets the thread of a job back

  predicate Enabled(s: State, a: Step) {
    match a
    case AddJob => s.phase.Sleeping?
    case WakeUp => s.phase.Sleeping?
    case Inspect => !s.phase.Sleeping?
    case Complete(j) => j in s.threads
    case ThreadEnds(j) => j in s.threads
  }

  /** The pool's threads are the used ones and the available ones. */
  predicate CanStart(s: State, job: nat) {
    job !in s.started && |s.threads| < s.capacity - |s.threads|
  }

  function Remove(list: seq<nat>, i: nat): seq<nat>
    requires i < |list|
  {
    list[..i] + list[i + 1..]
  }

  function InspectNext(s: State): State {
    match s.phase
    case Sleeping => s
    case Starting(i) =>
      if i >= |s.list| then s.(phase := Reaping(0))
      else
        var job := s.list[i];
        if CanStart(s, job) then
          s.(phase := Starting(i + 1), started := s.started + {job}, threads := s.threads + {job}, starts := s.starts + [job])
        else s.(phase := Starting(i + 1))
    case Reaping(i) =>
      if i >= |s.list| then s.(phase := Sleeping)
      else
        var job := s.list[i];
        if job in s.completed then s.(list := Remove(s.list, i), removals := s.removals + [job])
        else s.(phase := Reaping(i + 1))
  }

  function Next(s: State, a: Step): State {
    match a
    case AddJob => s.(added := s.added + 1, list := s.list + [s.added])
    case WakeUp => s.(phase := Starting(0))
    case Inspect => InspectNext(s)
    case Complete(j) => s.(completed := s.completed + {j})
    case ThreadEnds(j) => s.(threads := s.threads - {j})
  }

  ghost predicate Possible(s: State, steps: seq<Step>)
    decreases |steps|
  {
    steps == [] || (Enabled(s, steps[0]) && Possible(Next(s, steps[0]), steps[1..]))
  }

  function Run(s: State, steps: seq<Step>): State
    decreases |steps|
  {
    if steps == [] then s else Run(Next(s, steps[0]), steps[1..])
  }

  // ---------------------------------------------------------------- invariant

  /** Every job is held or was removed, once. */
  ghost predicate NoneLost(s: State) {
    && (forall j :: j in multiset(s.list) + multiset(s.removals) <==> 0 <= j < s.added)
    && (forall j :: (multiset(s.list) + multiset(s.removals))[j] <= 1)
  }

  ghost predicate StartedOnce(s: State) {
    && (forall i, j :: 0 <= i < j < |s.starts| ==> s.starts[i] != s.starts[j])
    && (forall j :: j in s.starts <==> j in s.started)
  }

  ghost predicate Lifecycle(s: State) {
    && (forall j :: j in s.removals ==> j in s.completed)
    && (forall j :: j in s.completed ==> j in s.started)
    && (forall j :: j in s.threads ==> j in s.started)
    && (forall j :: j in s.started ==> j < s.added)
  }

  ghost predicate Bounded(s: State) { |s.threads| <= (s.capacity + 1) / 2 }

  ghost predicate Safe(s: State) { NoneLost(s) && StartedOnce(s) && Lifecycle(s) && Bounded(s) }

  lemma AddJobSafe(s: State)
    requires Safe(s)
    ensures Safe(Next(s, AddJob))
  {
    var after := Next(s, AddJob);
    assert multiset(after.list) == multiset(s.list) + multiset{s.added};
    assert s.added !in multiset(s.list) + multiset(s.removals);
    assert multiset(after.list) + multiset(after.removals) == multiset(s.list) + multiset(s.removals) + multiset{s.added};
  }

  lemma StartSafe(s: State)
    requires Safe(s) && s.phase.Starting?
    ensures Safe(InspectNext(s))
  {
    if s.phase.next < |s.list| && CanStart(s, s.list[s.phase.next]) {
      var job := s.list[s.phase.next];
      assert job in multiset(s.list) + multiset(s.removals);
      assert |s.threads + {job}| == |s.threads| + 1;
    }
  }

  lemma RemoveKeeps(list: seq<nat>, i: nat)
    requires i < |list|
    ensures multiset(Remove(list, i)) + multiset{list[i]} == multiset(list)
  {
    assert list == list[..i] + [list[i]] + list[i + 1..];
  }

  lemma ReapSafe(s: State)
    requires Safe(s) && s.phase.Reaping?
    ensures Safe(InspectNext(s))
  {
    var i := s.phase.next;
    if i < |s.list| && s.list[i] in s.completed {
      var after := InspectNext(s);
      RemoveKeeps(s.list, i);
      assert multiset(after.list) + multiset(after.removals) == multiset(s.list) + multiset(s.removals);
    }
  }

  lemma StepSafe(s: State, a: Step)
    requires Safe(s) && Enabled(s, a)
    ensures Safe(Next(s, a))
  {
    match a
    case AddJob => AddJobSafe(s);
    case Inspect => if s.phase.Starting? { StartSafe(s); } else { ReapSafe(s); }
    case ThreadEnds(j) => assert |s.threads - {j}| <= |s.threads|;
    case _ =>
  }

  /** For every interleaving: a job starts at most once, is removed only after it completed, is never lost,
      and at most half of the pool, rounded up, runs at a time. */
  lemma {:induction false} RunSafe(s: State, steps: seq<Step>)
    requires Safe(s) && Possible(s, steps)
    ensures Safe(Run(s, steps))
    decreases |steps|
  {
    if steps != [] {
      StepSafe(s, steps[0]);
      RunSafe(Next(s, steps[0]), steps[1..]);
    }
  }

  lemma SchedulerIsSafe(capacity: nat, steps: seq<Step>)
    requires Possible(Initial(capacity), steps)
    ensures Safe(Run(Initial(capacity), steps))
  {
    RunSafe(Initial(capacity), steps);
  }

  // ---------------------------------------------------------------- a pass that no worker interrupts

  /** The controller's own steps to the end of the pass it is in. */
  function FinishPass(s: State): State
    requires !s.phase.Sleeping? && s.phase.next <= |s.list|
    decreases |s.list| - s.phase.next
  {
    if s.phase.next == |s.list| then InspectNext(s) else FinishPass(InspectNext(s))
  }

  /** The jobs of a list that are in a set, and those that are not, in order. */
  function Among(list: seq<nat>, s: set<nat>): seq<nat> {
    if list == [] then [] else if list[0] in s then [list[0]] + Among(list[1..], s) else Among(list[1..], s)
  }

  function Outside(list: seq<nat>, s: set<nat>): seq<nat> {
    if list == [] then [] else if list[0] in s then Outside(list[1..], s) else [list[0]] + Outside(list[1..], s)
  }

  function FirstOf(list: seq<nat>, n: nat): seq<nat> { if |list| <= n then list else list[..n] }

  /** How many more jobs may run. */
  function Room(s: State): nat {
    var most := (s.capacity + 1) / 2;
    if |s.threads| < most then most - |s.threads| else 0
  }

  ghost predicate Distinct(list: seq<nat>) { forall i, j :: 0 <= i < j < |list| ==> list[i] != list[j] }

  lemma {:induction false} OutsideSame(list: seq<nat>, s: set<nat>, job: nat)
    requires job !in list
    ensures Outside(list, s + {job}) == Outside(list, s)
  {
    if list != [] {
      OutsideSame(list[1..], s, job);
    }
  }

  lemma CanStartIsRoom(s: State, job: nat)
    ensures CanStart(s, job) <==> job !in s.started && Room(s) > 0
  {
  }

  lemma StartOne(s: State)
    requires s.phase.Starting? && s.phase.next < |s.list| && CanStart(s, s.list[s.phase.next])
    requires forall j :: j in s.threads ==> j in s.started
    ensures Room(InspectNext(s)) == Room(s) - 1
  {
    var job := s.list[s.phase.next];
    assert |s.threads + {job}| == |s.threads| + 1;
  }

  lemma FirstOfMore(x: nat, xs: seq<nat>, n: nat)
    requires n > 0
    ensures FirstOf([x] + xs, n) == [x] + FirstOf(xs, n - 1)
  {
  }

  /** The waiting jobs from position `i` on that there is room for. */
  function Startable(s: State, i: nat): seq<nat>
    requires i <= |s.list|
  {
    FirstOf(Outside(s.list[i..], s.started), Room(s))
  }

  lemma StartableStep(s: State)
    requires s.phase.Starting? && s.phase.next < |s.list| && Distinct(s.list)
    requires forall j :: j in s.threads ==> j in s.started
    ensures var i, next := s.phase.next, InspectNext(s);
      Startable(s, i) == (if CanStart(s, s.list[i]) then [s.list[i]] else []) + Startable(next, i + 1)
  {
    var i, next := s.phase.next, InspectNext(s);
    var job, rest := s.list[i], s.list[i + 1..];
    assert s.list[i..] == [job] + rest;
    CanStartIsRoom(s, job);
    if CanStart(s, job) {
      StartOne(s);
      OutsideSame(rest, s.started, job);
      FirstOfMore(job, Outside(rest, s.started), Room(s));
    }
  }

  /** An uninterrupted start pass starts exactly the earliest waiting jobs there is room for. */
  lemma {:induction false} StartPass(s: State)
    requires s.phase.Starting? && s.phase.next <= |s.list| && Distinct(s.list)
    requires forall j :: j in s.threads ==> j in s.started
    ensures var t := FinishPass(s);
      && t.phase == Reaping(0) && t.list == s.list && t.removals == s.removals && t.completed == s.completed
      && t.starts == s.starts + Startable(s, s.phase.next)
    decreases |s.list| - s.phase.next
  {
    var i := s.phase.next;
    if i < |s.list| {
      StartableStep(s);
      StartPass(InspectNext(s));
      if CanStart(s, s.list[i]) {
        Regroup(s.starts, [s.list[i]], Startable(InspectNext(s), i + 1));
      }
    }
  }

  /** An uninterrupted reap pass removes exactly the completed jobs. */
  lemma {:induction false} ReapPass(s: State)
    requires s.phase.Reaping? && s.phase.next <= |s.list|
    ensures var t, i := FinishPass(s), s.phase.next;
      && t.phase == Sleeping && t.starts == s.starts && t.threads == s.threads
      && t.list == s.list[..i] + Outside(s.list[i..], s.completed)
      && t.removals == s.removals + Among(s.list[i..], s.completed)
    decreases |s.list| - s.phase.next
  {
    var i := s.phase.next;
    if i < |s.list| {
      var next, job, rest := InspectNext(s), s.list[i], s.list[i + 1..];
      assert s.list[i..] == [job] + rest;
      ReapPass(next);
      if job in s.completed {
        assert next.list[..i] == s.list[..i] && next.list[i..] == rest;
        Regroup(s.removals, [job], Among(rest, s.completed));
      } else {
        assert s.list[..i + 1] == s.list[..i] + [job];
        Regroup(s.list[..i], [job], Outside(rest, s.completed));
      }
    } else {
      assert s.list[..i] == s.list;
    }
  }
}
