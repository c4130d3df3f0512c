/** The jobs that push configurations to, upgrade or reboot all devices of a venue.

One thread submits a task per device, harvests finished tasks between submissions, joins the pool and harvests
the rest; the tasks finish at any time in between. Tasks are numbered by their device. A worker's end comes
in two steps: it marks its task done, then the pool gets its thread back. */
module VenueTasks {
  import opened Basics

  datatype Kind = ConfigUpdate | Upgrade | Reboot

  /** What a worker did; each but `NoRecord` is also the name of the counter it increments. */
  datatype Outcome =
    | NoRecord
    | Updated | NotUpdated | BadConfig
    | Upgraded | Pending | Skipped | NotConnected | NoFirmware
    | Rebooted | NotRebooted

  datatype Listing = Success | Warning | Error | SkippedList | NotConnectedList | NoFirmwareList | PendingList

  // ---------------------------------------------------------------- workers

  /** The configuration may fail to build, in which case nothing is pushed. */
  function ConfigWorker(found: bool, built: bool, pushed: bool): Outcome {
    if !found then NoRecord else if !built then BadConfig else if pushed then Updated else NotUpdated
  }

  function UpgradeWorker(found: bool, forbidden: bool, firmware: bool, accepted: bool, status: string): Outcome {
    if !found then NoRecord
    else if forbidden then Skipped
    else if !firmware then NoFirmware
    else if !accepted then NotConnected
    else if status == "pending" then Pending else Upgraded
  }

  function RebootWorker(found: bool, rebooted: bool): Outcome {
    if !found then NoRecord else if rebooted then Rebooted else NotRebooted
  }

  predicate OutcomeOf(kind: Kind, o: Outcome) {
    match kind
    case ConfigUpdate => o in {NoRecord, Updated, NotUpdated, BadConfig}
    case Upgrade => o in {NoRecord, Upgraded, Pending, Skipped, NotConnected, NoFirmware}
    case Reboot => o in {NoRecord, Rebooted, NotRebooted}
  }

  /** These are exactly the outcomes a worker can have. */
  lemma WorkerOutcomes(o: Outcome)
    ensures OutcomeOf(ConfigUpdate, o) <==> exists found, built, pushed :: o == ConfigWorker(found, built, pushed)
    ensures OutcomeOf(Upgrade, o) <==> exists found, forbidden, firmware, accepted, status ::
              o == UpgradeWorker(found, forbidden, firmware, accepted, status)
    ensures OutcomeOf(Reboot, o) <==> exists found, rebooted :: o == RebootWorker(found, rebooted)
  {
    assert ConfigWorker(false, true, true) == UpgradeWorker(false, true, true, true, "") == RebootWorker(false, true) == NoRecord;
    assert ConfigWorker(true, false, true) == BadConfig && ConfigWorker(true, true, true) == Updated
           && ConfigWorker(true, true, false) == NotUpdated;
    assert UpgradeWorker(true, true, true, true, "") == Skipped && UpgradeWorker(true, false, false, true, "") == NoFirmware
           && UpgradeWorker(true, false, true, false, "") == NotConnected && UpgradeWorker(true, false, true, true, "pending") == Pending
           && UpgradeWorker(true, false, true, true, "") == Upgraded;
    assert RebootWorker(true, true) == Rebooted && RebootWorker(true, false) == NotRebooted;
  }

  /** What each outcome says about the device. */
  lemma ConfigOutcomes(found: bool, built: bool, pushed: bool)
    ensures var o := ConfigWorker(found, built, pushed);
      && (o == Updated <==> found && built && pushed) && (o == NotUpdated <==> found && built && !pushed)
      && (o == BadConfig <==> found && !built) && (o == NoRecord <==> !found)
  {
  }

  lemma UpgradeOutcomes(found: bool, forbidden: bool, firmware: bool, accepted: bool, status: string)
    ensures var o := UpgradeWorker(found, forbidden, firmware, accepted, status);
      && (o == Skipped <==> found && forbidden) && (o == NoFirmware <==> found && !forbidden && !firmware)
      && (o == NotConnected <==> found && !forbidden && firmware && !accepted)
      && (o == Pending <==> found && !forbidden && firmware && accepted && status == "pending")
      && (o == Upgraded <==> found && !forbidden && firmware && accepted && status != "pending") && (o == NoRecord <==> !found)
  {
  }

  lemma RebootOutcomes(found: bool, rebooted: bool)
    ensures var o := RebootWorker(found, rebooted);
      (o == Rebooted <==> found && rebooted) && (o == NotRebooted <==> found && !rebooted) && (o == NoRecord <==> !found)
  {
  }

  /** The lists test the counters in order; what no test catches goes to the last list, or to none. */
  function ListOf(kind: Kind, o: Outcome): set<Listing> {
    match kind
    case ConfigUpdate => if o == Updated then {Success} else if o == NotUpdated then {Warning} else {Error}
    case Reboot => if o == Rebooted then {Success} else {Warning}
    case Upgrade =>
      if o == Upgraded then {Success} else if o == Skipped then {SkippedList} else if o == NotConnected then {NotConnectedList}
      else if o == NoFirmware then {NoFirmwareList} else if o == Pending then {PendingList} else {}
  }

  // ---------------------------------------------------------------- the machine

  datatype Phase = Submitting | Harvesting(next: nat) | Joining | LastHarvest(next: nat) | Finished

  /** `serials` has a serial number for each device; `harvested` records the tasks in harvest order. */
  datatype State = State(
    kind: Kind, serials: seq<string>, capacity: nat,
    phase: Phase, submitted: nat, jobs: seq<nat>, done: map<nat, Outcome>, threads: set<nat>,
    lists: map<Listing, seq<string>>, totals: map<Outcome, nat>, harvested: seq<nat>)

  function Initial(kind: Kind, serials: seq<string>, capacity: nat): State {
    State(kind, serials, capacity, Submitting, 0, [], map[], {},
          map[Success := [], Warning := [], Error := [], SkippedList := [], NotConnectedList := [], NoFirmwareList := [], PendingList := []],
          map[Updated := 0, NotUpdated := 0, BadConfig := 0, Upgraded := 0, Pending := 0, Skipped := 0, NotConnected := 0,
              NoFirmware := 0, Rebooted := 0, NotRebooted := 0],
          [])
  }

  datatype Step = Submit | Inspect | Join | Done(task: nat, outcome: Outcome) | ThreadEnds(task: nat)

  predicate Enabled(s: State, a: Step) {
    match a
    case Submit => s.phase.Submitting? && s.submitted < |s.serials| && |s.threads| < s.capacity
    case Inspect => s.phase.Harvesting? || s.phase.LastHarvest?
    case Join => (s.phase.Submitting? && s.submitted == |s.serials|) || (s.phase.Joining? && s.threads == {})
    case Done(i, o) => i in s.threads && i !in s.done && OutcomeOf(s.kind, o)
    case ThreadEnds(i) => i in s.threads && i in s.done
  }

  /** A task without a record never learnt its serial number. */
  function SerialOf(serials: seq<string>, i: nat, o: Outcome): string {
    if o == NoRecord || i >= |serials| then "" else serials[i]
  }

  function Listed(lists: map<Listing, seq<string>>, where': set<Listing>, serial: string): map<Listing, seq<string>> {
    map l | l in lists :: if l in where' then lists[l] + [serial] else lists[l]
  }

  function Counted(totals: map<Outcome, nat>, o: Outcome): map<Outcome, nat> {
    if o in totals then totals[o := totals[o] + 1] else totals
  }

  /** Takes over the result of a finished task and erases it from the list. */
  function Harvest(s: State, at: nat): State
    requires at < |s.jobs| && s.jobs[at] in s.done
  {
    var i := s.jobs[at];
    var o := s.done[i];
    s.(jobs := s.jobs[..at] + s.jobs[at + 1..], harvested := s.harvested + [i],
       lists := Listed(s.lists, ListOf(s.kind, o), SerialOf(s.serials, i, o)), totals := Counted(s.totals, o))
  }

  function Next(s: State, a: Step): State {
    match a
    case Submit =>
      s.(phase := Harvesting(0), submitted := s.submitted + 1, jobs := s.jobs + [s.submitted], threads := s.threads + {s.submitted})
    case Inspect => (
      match s.phase
      case Harvesting(n) =>
        if n >= |s.jobs| then s.(phase := Submitting)
        else if s.jobs[n] in s.done then Harvest(s, n) else s.(phase := Harvesting(n + 1))
      case LastHarvest(n) =>
        if n >= |s.jobs| then s.(phase := Finished)
        else if s.jobs[n] in s.done then Harvest(s, n) else s.(phase := LastHarvest(n + 1))
      case _ => s)
    case Join => s.(phase := if s.phase.Submitting? then Joining else LastHarvest(0))
    case Done(i, o) => s.(done := s.done[i := o])
    case ThreadEnds(i) => s.(threads := s.threads - {i})
  }

  ghost predicate Possible(s: State, steps: seq<Step>)
    decreases |steps|
  {
    steps == [] || (Enabled(s, steps[0]) && Possible(Next(s, steps[0]), steps[1..]))
  }

  function Run(s: State, steps: seq<Step>): State
    decreases |steps|
  {
    if steps == [] then s else Run(Next(s, steps[0]), steps[1..])
  }

  // ---------------------------------------------------------------- what the reports should be

  /** The serial numbers of the given tasks that belong on a list. */
  function Entries(kind: Kind, serials: seq<string>, done: map<nat, Outcome>, tasks: seq<nat>, l: Listing): seq<string> {
    if tasks == [] then []
    else
      var i := tasks[|tasks| - 1];
      Entries(kind, serials, done, tasks[..|tasks| - 1], l)
      + (if i in done && l in ListOf(kind, done[i]) then [SerialOf(serials, i, done[i])] else [])
  }

  function CountOf(done: map<nat, Outcome>, tasks: seq<nat>, o: Outcome): nat {
    if tasks == [] then 0
    else
      var i := tasks[|tasks| - 1];
      CountOf(done, tasks[..|tasks| - 1], o) + (if i in done && done[i] == o then 1 else 0)
  }

  // ---------------------------------------------------------------- invariant

  /** Each submitted task is waiting to be harvested or was harvested, once. */
  ghost predicate EachOnce(s: State) {
    multiset(s.jobs) + multiset(s.harvested) == Numbers(s.submitted) && s.submitted <= |s.serials|
  }

  /** The numbers below `n`, each once. */
  function Numbers(n: nat): (r: multiset<nat>)
    ensures |r| == n
  {
    if n == 0 then multiset{} else Numbers(n - 1) + multiset{(n - 1) as nat}
  }

  lemma {:induction false} NumbersAre(n: nat, i: nat)
    ensures Numbers(n)[i] == if i < n then 1 else 0
  {
    if n > 0 {
      NumbersAre(n - 1, i);
    }
  }

  ghost predicate Threads(s: State) {
    && (forall i :: i in s.harvested ==> i in s.done)
    && (forall i :: i in s.done ==> i < s.submitted && OutcomeOf(s.kind, s.done[i]))
    && (forall i :: 0 <= i < s.submitted && i !in s.done ==> i in s.threads)
    && (forall i :: i in s.threads ==> i < s.submitted)
  }

  ghost predicate Phases(s: State) {
    && (s.phase.Joining? || s.phase.LastHarvest? || s.phase.Finished? ==> s.submitted == |s.serials|)
    && (s.phase.LastHarvest? ==> s.phase.next == 0 && forall i :: i in s.jobs ==> i in s.done)
    && (s.phase.Harvesting? ==> s.phase.next <= |s.jobs|)
    && (s.phase.Finished? ==> s.jobs == [])
  }

  ghost predicate Reported(s: State) { ListsRight(s) && TotalsRight(s) }

  ghost predicate ListsRight(s: State) {
    && s.lists.Keys == {Success, Warning, Error, SkippedList, NotConnectedList, NoFirmwareList, PendingList}
    && (forall l :: l in s.lists ==> s.lists[l] == Entries(s.kind, s.serials, s.done, s.harvested, l))
  }

  ghost predicate TotalsRight(s: State) {
    && s.totals.Keys == {Updated, NotUpdated, BadConfig, Upgraded, Pending, Skipped, NotConnected, NoFirmware, Rebooted, NotRebooted}
    && (forall o :: o in s.totals ==> s.totals[o] == CountOf(s.done, s.harvested, o))
  }

  ghost predicate Sound(s: State) { EachOnce(s) && Threads(s) && Phases(s) && Reported(s) }

  /** Outcomes of other tasks do not matter for a report. */
  lemma {:induction false} EntriesSame(s: State, done: map<nat, Outcome>, tasks: seq<nat>, l: Listing, o: Outcome)
    requires forall i :: i in tasks ==> i in s.done && i in done && done[i] == s.done[i]
    ensures Entries(s.kind, s.serials, done, tasks, l) == Entries(s.kind, s.serials, s.done, tasks, l)
    ensures CountOf(done, tasks, o) == CountOf(s.done, tasks, o)
    decreases |tasks|
  {
    if tasks != [] {
      EntriesSame(s, done, tasks[..|tasks| - 1], l, o);
    }
  }

  lemma SubmitSound(s: State)
    requires Sound(s) && Enabled(s, Submit)
    ensures Sound(Next(s, Submit))
  {
    SubmitEachOnce(s);
    SubmitReported(s);
    SubmitThreads(s);
  }

  lemma SubmitThreads(s: State)
    requires Threads(s) && Phases(s) && Enabled(s, Submit)
    ensures Threads(Next(s, Submit)) && Phases(Next(s, Submit))
  {
  }

  lemma SubmitReported(s: State)
    requires Reported(s) && Enabled(s, Submit)
    ensures Reported(Next(s, Submit))
  {
  }

  lemma SubmitEachOnce(s: State)
    requires EachOnce(s) && Enabled(s, Submit)
    ensures EachOnce(Next(s, Submit))
  {
    var after := Next(s, Submit);
    assert multiset(after.jobs) + multiset(after.harvested) == multiset(s.jobs) + multiset(s.harvested) + multiset{s.submitted};
  }

  lemma DoneSound(s: State, i: nat, o: Outcome)
    requires Sound(s) && Enabled(s, Done(i, o))
    ensures Sound(Next(s, Done(i, o)))
  {
    var after := Next(s, Done(i, o));
    forall l | l in s.lists ensures after.lists[l] == Entries(s.kind, s.serials, after.done, s.harvested, l) {
      EntriesSame(s, after.done, s.harvested, l, o);
    }
    forall c | c in s.totals ensures after.totals[c] == CountOf(after.done, s.harvested, c) {
      EntriesSame(s, after.done, s.harvested, Success, c);
    }
  }

  lemma HarvestEachOnce(s: State, at: nat)
    requires EachOnce(s) && at < |s.jobs| && s.jobs[at] in s.done
    ensures EachOnce(Harvest(s, at))
    ensures forall i :: i in Harvest(s, at).jobs ==> i in s.jobs
  {
    var after := Harvest(s, at);
    assert s.jobs == s.jobs[..at] + [s.jobs[at]] + s.jobs[at + 1..];
    assert multiset(after.jobs) + multiset(after.harvested) == multiset(s.jobs) + multiset(s.harvested);
  }

  lemma HarvestReported(s: State, at: nat)
    requires Reported(s) && at < |s.jobs| && s.jobs[at] in s.done
    ensures Reported(Harvest(s, at))
  {
    HarvestLists(s, at);
    HarvestTotals(s, at);
  }

  lemma HarvestLists(s: State, at: nat)
    requires ListsRight(s) && at < |s.jobs| && s.jobs[at] in s.done
    ensures ListsRight(Harvest(s, at))
  {
    var after := Harvest(s, at);
    assert after.harvested[..|after.harvested| - 1] == s.harvested;
  }

  lemma HarvestTotals(s: State, at: nat)
    requires TotalsRight(s) && at < |s.jobs| && s.jobs[at] in s.done
    ensures TotalsRight(Harvest(s, at))
  {
    var after := Harvest(s, at);
    assert after.harvested[..|after.harvested| - 1] == s.harvested;
  }

  ghost predicate Harvests(s: State) {
    (s.phase.Harvesting? || s.phase.LastHarvest?) && s.phase.next < |s.jobs| && s.jobs[s.phase.next] in s.done
  }

  lemma InspectHarvests(s: State)
    requires Harvests(s)
    ensures Next(s, Inspect) == Harvest(s, s.phase.next)
  {
  }

  lemma InspectPasses(s: State)
    requires Phases(s) && Enabled(s, Inspect) && !Harvests(s)
    ensures var t := Next(s, Inspect); t == s.(phase := t.phase) && Phases(t)
  {
  }

  lemma OnlyPhase(s: State, t: State)
    requires Sound(s) && t == s.(phase := t.phase) && Phases(t)
    ensures Sound(t)
  {
    assert EachOnce(t) && Threads(t);
    assert ListsRight(t) && TotalsRight(t);
  }

  lemma InspectSound(s: State)
    requires Sound(s) && Enabled(s, Inspect)
    ensures Sound(Next(s, Inspect))
  {
    if Harvests(s) {
      InspectHarvests(s);
      HarvestSound(s, s.phase.next);
    } else {
      InspectPasses(s);
      OnlyPhase(s, Next(s, Inspect));
    }
  }

  lemma HarvestSound(s: State, at: nat)
    requires Sound(s) && at < |s.jobs| && s.jobs[at] in s.done && (s.phase.Harvesting? || s.phase.LastHarvest?) && s.phase.next == at
    ensures Sound(Harvest(s, at))
  {
    HarvestEachOnce(s, at);
    HarvestReported(s, at);
    var after := Harvest(s, at);
    assert Threads(after);
  }

  lemma JoinSound(s: State)
    requires Sound(s) && Enabled(s, Join)
    ensures Sound(Next(s, Join))
  {
    if s.phase.Joining? {
      forall i | i in s.jobs ensures i in s.done {
        assert i in multiset(s.jobs) + multiset(s.harvested);
        NumbersAre(s.submitted, i);
      }
    }
  }

  lemma StepSound(s: State, a: Step)
    requires Sound(s) && Enabled(s, a)
    ensures Sound(Next(s, a))
  {
    match a
    case Submit => SubmitSound(s);
    case Inspect => InspectSound(s);
    case Join => JoinSound(s);
    case Done(i, o) => DoneSound(s, i, o);
    case ThreadEnds(i) =>
  }

  lemma {:induction false} RunSound(s: State, steps: seq<Step>)
    requires Sound(s) && Possible(s, steps)
    ensures Sound(Run(s, steps))
    decreases |steps|
  {
    if steps != [] {
      StepSound(s, steps[0]);
      RunSound(Next(s, steps[0]), steps[1..]);
    }
  }

  lemma StepKeeps(s: State, a: Step)
    ensures Next(s, a).kind == s.kind && Next(s, a).serials == s.serials && Next(s, a).capacity == s.capacity
  {
  }

  lemma {:induction false} RunKeeps(s: State, steps: seq<Step>)
    ensures Run(s, steps).kind == s.kind && Run(s, steps).serials == s.serials
    decreases |steps|
  {
    if steps != [] {
      StepKeeps(s, steps[0]);
      RunKeeps(Next(s, steps[0]), steps[1..]);
    }
  }

  // ---------------------------------------------------------------- progress

  /** Unless the job has finished, some step is possible. */
  lemma NeverStuck(s: State)
    requires Sound(s) && s.capacity > 0 && !s.phase.Finished?
    ensures exists a :: Enabled(s, a)
  {
    if s.threads != {} {
      var i :| i in s.threads;
      if i in s.done {
        assert Enabled(s, ThreadEnds(i));
      } else {
        assert Enabled(s, Done(i, NoRecord));
      }
    } else {
      assert Enabled(s, Submit) || Enabled(s, Join) || Enabled(s, Inspect);
    }
  }

  /** What is left to do: submissions, tasks to finish and threads to end, then the phase, then the pass. */
  function Left(s: State): int { 3 * (|s.serials| - s.submitted) + (s.submitted - |s.done|) + |s.threads| }

  function Rank(p: Phase): nat {
    match p
    case Finished => 0
    case LastHarvest(_) => 1
    case Joining => 2
    case Submitting => 3
    case Harvesting(_) => 4
  }

  function Pass(s: State): int {
    match s.phase
    case Harvesting(n) => |s.jobs| - n
    case LastHarvest(n) => |s.jobs| - n
    case _ => 0
  }

  lemma {:induction false} BelowCount(s: set<nat>, n: nat)
    requires forall i :: i in s ==> i < n
    ensures |s| <= n
  {
    if n > 0 {
      BelowCount(s - {n - 1}, n - 1);
      assert s - {n - 1} == s || s == (s - {n - 1}) + {n - 1};
    } else {
      assert s == {};
    }
  }

  lemma LeftIsNatural(s: State)
    requires Sound(s)
    ensures Left(s) >= 0 && Pass(s) >= 0
  {
    BelowCount(s.done.Keys, s.submitted);
    assert |s.done| == |s.done.Keys|;
  }

  /** Every step brings the job nearer to its end. */
  lemma StepProgresses(s: State, a: Step)
    requires Sound(s) && Enabled(s, a)
    ensures Nearer(s, Next(s, a))
  {
    match a
    case Submit => SubmitProgresses(s);
    case ThreadEnds(i) => assert |s.threads - {i}| == |s.threads| - 1;
    case Done(i, o) => DoneProgresses(s, i, o);
    case Inspect => InspectProgresses(s);
    case Join =>
  }

  /** The three measures as one number: a pass takes at most one step more than there are devices. */
  function StepsLeft(s: State): int { Passes(s) * (|s.serials| + 1) + Pass(s) }

  /** What is left, counting the phases a step may still lead through. */
  function Passes(s: State): int { 5 * Left(s) + Rank(s.phase) }

  lemma PassIsShort(s: State)
    requires Sound(s)
    ensures 0 <= Pass(s) <= |s.serials|
  {
    assert |multiset(s.jobs) + multiset(s.harvested)| == |s.jobs| + |s.harvested|;
  }

  lemma Lower(passes: int, passes': int, pass: nat, pass': nat, width: nat)
    requires pass < width && pass' < width && (passes' < passes || (passes' == passes && pass' < pass))
    ensures passes' * width + pass' < passes * width + pass
  {
    if passes' < passes {
      TimesMonotone(passes' + 1, passes, width);
      assert (passes' + 1) * width == passes' * width + width;
    }
  }

  /** Nearer to the end, by the measures in order. */
  ghost predicate Nearer(s: State, t: State) {
    || Left(t) < Left(s)
    || (Left(t) == Left(s) && Rank(t.phase) < Rank(s.phase))
    || (Left(t) == Left(s) && Rank(t.phase) == Rank(s.phase) && Pass(t) < Pass(s))
  }

  lemma NearerIsShorter(s: State, t: State)
    requires Nearer(s, t) && t.serials == s.serials && 0 <= Pass(s) <= |s.serials| && 0 <= Pass(t) <= |s.serials|
    ensures StepsLeft(t) < StepsLeft(s)
  {
    Lower(Passes(s), Passes(t), Pass(s), Pass(t), |s.serials| + 1);
  }

  lemma StepShortens(s: State, a: Step)
    requires Sound(s) && Enabled(s, a)
    ensures StepsLeft(Next(s, a)) < StepsLeft(s)
  {
    var t := Next(s, a);
    StepSound(s, a);
    StepKeeps(s, a);
    PassIsShort(s);
    PassIsShort(t);
    StepProgresses(s, a);
    NearerIsShorter(s, t);
  }

  /** Every run ends: it takes no more than so many steps. */
  lemma {:induction false} RunIsBounded(s: State, steps: seq<Step>)
    requires Sound(s) && Possible(s, steps)
    ensures |steps| <= StepsLeft(s)
    decreases |steps|
  {
    LeftIsNatural(s);
    PassIsShort(s);
    if steps != [] {
      StepSound(s, steps[0]);
      StepShortens(s, steps[0]);
      RunIsBounded(Next(s, steps[0]), steps[1..]);
    } else {
      TimesMonotone(0, Passes(s), |s.serials| + 1);
    }
  }

  /** Every run can go on until the job has finished. */
  lemma {:induction false} RunCanFinish(s: State) returns (steps: seq<Step>)
    requires Sound(s) && s.capacity > 0
    ensures Possible(s, steps) && Run(s, steps).phase.Finished?
    decreases Left(s), Rank(s.phase), Pass(s)
  {
    if s.phase.Finished? {
      return [];
    }
    NeverStuck(s);
    var a :| Enabled(s, a);
    StepSound(s, a);
    StepProgresses(s, a);
    StepKeeps(s, a);
    LeftIsNatural(s);
    var rest := RunCanFinish(Next(s, a));
    steps := [a] + rest;
  }

  lemma SubmitProgresses(s: State)
    requires Threads(s) && Enabled(s, Submit)
    ensures Left(Next(s, Submit)) < Left(s)
  {
    assert s.submitted !in s.threads;
    assert |s.threads + {s.submitted}| == |s.threads| + 1;
  }

  lemma DoneProgresses(s: State, i: nat, o: Outcome)
    requires Enabled(s, Done(i, o))
    ensures Left(Next(s, Done(i, o))) < Left(s)
  {
    assert |s.done[i := o]| == |s.done| + 1;
  }

  lemma InspectProgresses(s: State)
    requires Enabled(s, Inspect)
    ensures var t := Next(s, Inspect);
      Left(t) == Left(s) && (Rank(t.phase) < Rank(s.phase) || (Rank(t.phase) == Rank(s.phase) && Pass(t) < Pass(s)))
  {
  }

  // ---------------------------------------------------------------- reports

  /** All tasks have the outcome of a worker of this kind. */
  ghost predicate Ended(kind: Kind, done: map<nat, Outcome>, tasks: seq<nat>) {
    forall i :: i in tasks ==> i in done && OutcomeOf(kind, done[i])
  }

  lemma {:induction false} ConfigEntriesAdd(serials: seq<string>, done: map<nat, Outcome>, tasks: seq<nat>)
    requires Ended(ConfigUpdate, done, tasks)
    ensures |Entries(ConfigUpdate, serials, done, tasks, Success)| == CountOf(done, tasks, Updated)
    ensures |Entries(ConfigUpdate, serials, done, tasks, Warning)| == CountOf(done, tasks, NotUpdated)
    ensures |Entries(ConfigUpdate, serials, done, tasks, Error)| == CountOf(done, tasks, BadConfig) + CountOf(done, tasks, NoRecord)
    ensures CountOf(done, tasks, Updated) + CountOf(done, tasks, NotUpdated) + CountOf(done, tasks, BadConfig)
            + CountOf(done, tasks, NoRecord) == |tasks|
    decreases |tasks|
  {
    if tasks != [] {
      ConfigEntriesAdd(serials, done, tasks[..|tasks| - 1]);
      assert tasks[|tasks| - 1] in tasks;
    }
  }

  lemma {:induction false} RebootEntriesAdd(serials: seq<string>, done: map<nat, Outcome>, tasks: seq<nat>)
    requires Ended(Reboot, done, tasks)
    ensures |Entries(Reboot, serials, done, tasks, Success)| == CountOf(done, tasks, Rebooted)
    ensures |Entries(Reboot, serials, done, tasks, Warning)| == CountOf(done, tasks, NotRebooted) + CountOf(done, tasks, NoRecord)
    ensures CountOf(done, tasks, Rebooted) + CountOf(done, tasks, NotRebooted) + CountOf(done, tasks, NoRecord) == |tasks|
    decreases |tasks|
  {
    if tasks != [] {
      RebootEntriesAdd(serials, done, tasks[..|tasks| - 1]);
      assert tasks[|tasks| - 1] in tasks;
    }
  }

  /** An upgrade list and the counter it goes with. */
  predicate Goes(l: Listing, o: Outcome) {
    (l, o) in {(Success, Upgraded), (SkippedList, Skipped), (NotConnectedList, NotConnected), (NoFirmwareList, NoFirmware), (PendingList, Pending)}
  }

  lemma {:induction false} UpgradeEntriesAdd(serials: seq<string>, done: map<nat, Outcome>, tasks: seq<nat>, l: Listing, o: Outcome)
    requires Ended(Upgrade, done, tasks) && Goes(l, o)
    ensures |Entries(Upgrade, serials, done, tasks, l)| == CountOf(done, tasks, o)
    decreases |tasks|
  {
    if tasks != [] {
      UpgradeEntriesAdd(serials, done, tasks[..|tasks| - 1], l, o);
      assert tasks[|tasks| - 1] in tasks;
    }
  }

  lemma {:induction false} UpgradeCountsAdd(done: map<nat, Outcome>, tasks: seq<nat>)
    requires Ended(Upgrade, done, tasks)
    ensures CountOf(done, tasks, Upgraded) + CountOf(done, tasks, Skipped) + CountOf(done, tasks, NotConnected)
            + CountOf(done, tasks, NoFirmware) + CountOf(done, tasks, Pending) + CountOf(done, tasks, NoRecord) == |tasks|
    decreases |tasks|
  {
    if tasks != [] {
      UpgradeCountsAdd(done, tasks[..|tasks| - 1]);
      assert tasks[|tasks| - 1] in tasks;
    }
  }

  // ---------------------------------------------------------------- finished runs

  /** A run from the start to the end. */
  ghost predicate Complete(kind: Kind, serials: seq<string>, capacity: nat, steps: seq<Step>) {
    Possible(Initial(kind, serials, capacity), steps) && Run(Initial(kind, serials, capacity), steps).phase.Finished?
  }

  function Final(kind: Kind, serials: seq<string>, capacity: nat, steps: seq<Step>): State {
    Run(Initial(kind, serials, capacity), steps)
  }

  lemma InitialSound(kind: Kind, serials: seq<string>, capacity: nat)
    ensures Sound(Initial(kind, serials, capacity))
  {
  }

  /** For every interleaving, when the job has finished every device has been harvested exactly once. */
  lemma HarvestedExactlyOnce(kind: Kind, serials: seq<string>, capacity: nat, steps: seq<Step>)
    requires Complete(kind, serials, capacity, steps)
    ensures var t := Final(kind, serials, capacity, steps);
      && multiset(t.harvested) == Numbers(|serials|) && |t.harvested| == |serials|
      && Sound(t) && t.kind == kind && t.serials == serials && Ended(kind, t.done, t.harvested)
  {
    var t := Final(kind, serials, capacity, steps);
    InitialSound(kind, serials, capacity);
    RunSound(Initial(kind, serials, capacity), steps);
    RunKeeps(Initial(kind, serials, capacity), steps);
    assert multiset(t.jobs) + multiset(t.harvested) == multiset(t.harvested);
    assert |multiset(t.harvested)| == |t.harvested|;
  }

  /** Every device is on exactly one list of a configuration update; a device without a record is on the error
      list but not among the bad configurations. */
  lemma ConfigUpdateReport(serials: seq<string>, capacity: nat, steps: seq<Step>)
    requires Complete(ConfigUpdate, serials, capacity, steps)
    ensures var t := Final(ConfigUpdate, serials, capacity, steps);
      && Reported(t)
      && |t.lists[Success]| == t.totals[Updated] && |t.lists[Warning]| == t.totals[NotUpdated]
      && |t.lists[Error]| == t.totals[BadConfig] + CountOf(t.done, t.harvested, NoRecord)
      && |t.lists[Success]| + |t.lists[Warning]| + |t.lists[Error]| == |serials|
  {
    HarvestedExactlyOnce(ConfigUpdate, serials, capacity, steps);
    var t := Final(ConfigUpdate, serials, capacity, steps);
    ConfigEntriesAdd(serials, t.done, t.harvested);
  }

  /** The same for a reboot: a device without a record counts as a warning, not as a failure. */
  lemma RebootReport(serials: seq<string>, capacity: nat, steps: seq<Step>)
    requires Complete(Reboot, serials, capacity, steps)
    ensures var t := Final(Reboot, serials, capacity, steps);
      && Reported(t)
      && |t.lists[Success]| == t.totals[Rebooted]
      && |t.lists[Warning]| == t.totals[NotRebooted] + CountOf(t.done, t.harvested, NoRecord)
      && |t.lists[Success]| + |t.lists[Warning]| == |serials|
  {
    HarvestedExactlyOnce(Reboot, serials, capacity, steps);
    var t := Final(Reboot, serials, capacity, steps);
    RebootEntriesAdd(serials, t.done, t.harvested);
  }

  /** An upgrade lists every device that has a record, and each total is the length of its list. */
  lemma UpgradeReport(serials: seq<string>, capacity: nat, steps: seq<Step>)
    requires Complete(Upgrade, serials, capacity, steps)
    ensures var t := Final(Upgrade, serials, capacity, steps);
      && Reported(t)
      && (forall l, o :: Goes(l, o) ==> l in t.lists && o in t.totals && |t.lists[l]| == t.totals[o])
      && t.totals[Upgraded] + t.totals[Skipped] + t.totals[NotConnected] + t.totals[NoFirmware] + t.totals[Pending]
         == |serials| - CountOf(t.done, t.harvested, NoRecord)
  {
    HarvestedExactlyOnce(Upgrade, serials, capacity, steps);
    var t := Final(Upgrade, serials, capacity, steps);
    forall l, o | Goes(l, o) ensures l in t.lists && o in t.totals && |t.lists[l]| == t.totals[o] {
      UpgradeEntriesAdd(serials, t.done, t.harvested, l, o);
    }
    UpgradeCountsAdd(t.done, t.harvested);
  }

  /** The list an outcome belongs on. */
  ghost predicate Belongs(kind: Kind, o: Outcome, l: Listing) {
    match kind
    case ConfigUpdate => (o == Updated && l == Success) || (o == NotUpdated && l == Warning) || ((o == BadConfig || o == NoRecord) && l == Error)
    case Reboot => (o == Rebooted && l == Success) || ((o == NotRebooted || o == NoRecord) && l == Warning)
    case Upgrade => Goes(l, o)
  }

  /** The entry of device `i`: its serial number, unless it has no record. */
  ghost predicate IsEntry(kind: Kind, serials: seq<string>, done: map<nat, Outcome>, l: Listing, x: string, i: nat) {
    && i < |serials| && i in done && Belongs(kind, done[i], l)
    && (if done[i] == NoRecord then x == "" else x == serials[i])
  }

  lemma ListOfBelongs(kind: Kind, o: Outcome, l: Listing)
    requires OutcomeOf(kind, o)
    ensures l in ListOf(kind, o) <==> Belongs(kind, o, l)
  {
  }

  lemma {:induction false} EntriesAre(kind: Kind, serials: seq<string>, done: map<nat, Outcome>, tasks: seq<nat>, l: Listing, x: string)
    requires forall i :: i in tasks ==> i < |serials| && i in done && OutcomeOf(kind, done[i])
    ensures x in Entries(kind, serials, done, tasks, l) <==> exists i :: i in tasks && IsEntry(kind, serials, done, l, x, i)
    decreases |tasks|
  {
    if tasks != [] {
      var front, last := tasks[..|tasks| - 1], tasks[|tasks| - 1];
      assert last in tasks && forall i :: i in tasks <==> i in front || i == last;
      EntriesAre(kind, serials, done, front, l, x);
      ListOfBelongs(kind, done[last], l);
      var own := if l in ListOf(kind, done[last]) then [SerialOf(serials, last, done[last])] else [];
      assert x in own <==> IsEntry(kind, serials, done, l, x, last);
      assert Entries(kind, serials, done, tasks, l) == Entries(kind, serials, done, front, l) + own;
    }
  }

  /** When the job has finished, a list names exactly the devices whose worker ended the way the list is for. */
  lemma ListsNameExactly(kind: Kind, serials: seq<string>, capacity: nat, steps: seq<Step>, l: Listing, x: string)
    requires Complete(kind, serials, capacity, steps)
    ensures var t := Final(kind, serials, capacity, steps);
      && l in t.lists && (forall i :: 0 <= i < |serials| ==> i in t.done)
      && (x in t.lists[l] <==> exists i :: IsEntry(kind, serials, t.done, l, x, i))
  {
    HarvestedExactlyOnce(kind, serials, capacity, steps);
    var t := Final(kind, serials, capacity, steps);
    forall i: nat ensures i in t.harvested <==> i < |serials| {
      NumbersAre(|serials|, i);
      assert i in multiset(t.harvested) <==> i in t.harvested;
    }
    EntriesAre(kind, serials, t.done, t.harvested, l, x);
  }

  // ---------------------------------------------------------------- the interleaving does not matter

  lemma {:induction false} EntriesAppend(kind: Kind, serials: seq<string>, done: map<nat, Outcome>, xs: seq<nat>, ys: seq<nat>, l: Listing)
    ensures Entries(kind, serials, done, xs + ys, l) == Entries(kind, serials, done, xs, l) + Entries(kind, serials, done, ys, l)
    decreases |ys|
  {
    if ys == [] {
      assert xs + ys == xs;
    } else {
      var front := ys[..|ys| - 1];
      assert (xs + ys)[..|xs + ys| - 1] == xs + front;
      EntriesAppend(kind, serials, done, xs, front, l);
    }
  }

  function RemoveAt(xs: seq<nat>, at: nat): (r: seq<nat>)
    requires at < |xs|
    ensures |r| == |xs| - 1
  {
    xs[..at] + xs[at + 1..]
  }

  lemma RemoveOne(xs: seq<nat>, at: nat)
    requires at < |xs|
    ensures multiset(RemoveAt(xs, at)) == multiset(xs) - multiset{xs[at]}
  {
    assert xs == xs[..at] + [xs[at]] + xs[at + 1..];
  }

  lemma PlaceOf(xs: seq<nat>, ys: seq<nat>) returns (at: nat)
    requires xs != [] && multiset(xs) == multiset(ys)
    ensures at < |ys| && ys[at] == xs[0] && multiset(RemoveAt(xs, 0)) == multiset(RemoveAt(ys, at))
  {
    assert xs[0] in multiset(ys);
    at :| 0 <= at < |ys| && ys[at] == xs[0];
    RemoveOne(xs, 0);
    RemoveOne(ys, at);
  }

  lemma EntriesWithout(kind: Kind, serials: seq<string>, done: map<nat, Outcome>, xs: seq<nat>, at: nat, l: Listing)
    requires at < |xs|
    ensures multiset(Entries(kind, serials, done, xs, l)) ==
              multiset(Entries(kind, serials, done, RemoveAt(xs, at), l)) + multiset(Entries(kind, serials, done, [xs[at]], l))
  {
    EntriesAppend(kind, serials, done, xs[..at], xs[at + 1..], l);
    EntriesAppend(kind, serials, done, xs[..at], [xs[at]], l);
    EntriesAppend(kind, serials, done, xs[..at] + [xs[at]], xs[at + 1..], l);
    assert xs == xs[..at] + [xs[at]] + xs[at + 1..];
  }

  /** A list has the same entries, up to order, whatever the order of harvesting. */
  lemma {:induction false} EntriesPermute(kind: Kind, serials: seq<string>, done: map<nat, Outcome>, xs: seq<nat>, ys: seq<nat>, l: Listing)
    requires multiset(xs) == multiset(ys)
    ensures multiset(Entries(kind, serials, done, xs, l)) == multiset(Entries(kind, serials, done, ys, l))
    decreases |xs|
  {
    if xs == [] {
      assert |multiset(ys)| == 0;
      assert ys == [];
    } else {
      var at := PlaceOf(xs, ys);
      EntriesPermute(kind, serials, done, RemoveAt(xs, 0), RemoveAt(ys, at), l);
      EntriesWithout(kind, serials, done, xs, 0, l);
      EntriesWithout(kind, serials, done, ys, at, l);
    }
  }

  /** Two runs in which the workers of each device did the same report the same, up to the order within lists. */
  lemma SameReports(kind: Kind, serials: seq<string>, capacity: nat, capacity': nat, steps: seq<Step>, steps': seq<Step>, l: Listing)
    requires Complete(kind, serials, capacity, steps) && Complete(kind, serials, capacity', steps')
    requires Final(kind, serials, capacity, steps).done == Final(kind, serials, capacity', steps').done
    ensures var t, t' := Final(kind, serials, capacity, steps), Final(kind, serials, capacity', steps');
      && l in t.lists && l in t'.lists && multiset(t.lists[l]) == multiset(t'.lists[l])
  {
    HarvestedExactlyOnce(kind, serials, capacity, steps);
    HarvestedExactlyOnce(kind, serials, capacity', steps');
    var t, t' := Final(kind, serials, capacity, steps), Final(kind, serials, capacity', steps');
    EntriesPermute(kind, serials, t.done, t.harvested, t'.harvested, l);
  }
}
