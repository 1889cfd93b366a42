/** The status that the whole process shares, and the background tasks that drive it. */
module BackfillProtocol {
  import opened Backfill

  /** Where a run's task is: between two updates of the status, or past the last one. A panic is late when it comes
      after the task recorded how it ended; otherwise its watcher gives it up. */
  datatype Phase = Spawned | AtItem(n: nat) | AfterOutcome(n: nat) | Recorded | Returned | Panicked | PanickedLate | GivenUp

  datatype Task = Task(total: nat, phase: Phase, imported: nat)

  /** Background tasks are numbered in the order they were started. */
  datatype World = World(status: Status, tasks: seq<Task>)

  /** One atomic update, by `start`, by a task, or by the watcher of a task that panicked. */
  datatype Step =
    | Start(now: nat, total: nat)
    | Begin(task: nat, now: nat)
    | NoItems(task: nat, now: nat)
    | ItemOutcome(task: nat, outcome: Outcome)
    | ItemDone(task: nat)
    | Finish(task: nat, now: nat)
    | Return(task: nat)
    | Panic(task: nat)
    | Watch(task: nat, now: nat, error: string)

  /** The task has recorded itself how the import ended. */
  predicate Ended(t: Task) {
    t.phase.Recorded? || t.phase.Returned? || t.phase.PanickedLate?
  }

  /** The import has still to record how it ended, itself or through its watcher. */
  predicate Live(t: Task) {
    !Ended(t) && !t.phase.GivenUp?
  }

  predicate At(w: World, task: nat, phase: Phase) {
    task < |w.tasks| && w.tasks[task].phase == phase
  }

  predicate Enabled(w: World, s: Step) {
    match s
    case Start(_, _) => true
    case Begin(t, _) => At(w, t, Spawned)
    case NoItems(t, _) => At(w, t, AtItem(0)) && w.tasks[t].total == 0
    case ItemOutcome(t, _) => t < |w.tasks| && w.tasks[t].phase.AtItem? && w.tasks[t].phase.n < w.tasks[t].total
    case ItemDone(t) => t < |w.tasks| && w.tasks[t].phase.AfterOutcome?
    case Finish(t, _) => t < |w.tasks| && w.tasks[t].phase == AtItem(w.tasks[t].total) && w.tasks[t].total > 0
    case Return(t) => At(w, t, Recorded)
    case Panic(t) => t < |w.tasks| && (Live(w.tasks[t]) || w.tasks[t].phase.Recorded?) && !w.tasks[t].phase.Panicked?
    case Watch(t, _, _) => At(w, t, Panicked) || At(w, t, PanickedLate)
  }

  function Put(w: World, task: nat, status: Status, phase: Phase): World
    requires task < |w.tasks|
  {
    World(status, w.tasks[task := w.tasks[task].(phase := phase)])
  }

  function After(w: World, s: Step): World
    requires Enabled(w, s)
  {
    match s
    case Start(now, total) =>
      if w.status.state == Running then w
      else World(Started(now, total), w.tasks + [Task(total, Spawned, 0)])
    case Begin(t, now) => Put(w, t, Started(now, w.tasks[t].total), AtItem(0))
    case NoItems(t, now) => Put(w, t, GaveUp(w.status, now, NO_ITEMS), Recorded)
    case ItemOutcome(t, o) =>
      var task := w.tasks[t];
      World(Count(w.status, o),
            w.tasks[t := task.(phase := AfterOutcome(task.phase.n), imported := task.imported + if o.Imported? then 1 else 0)])
    case ItemDone(t) => Put(w, t, CountDone(w.status), AtItem(w.tasks[t].phase.n + 1))
    case Finish(t, now) => Put(w, t, Finished(w.status, now), Recorded)
    case Return(t) => Put(w, t, w.status, Returned)
    case Panic(t) => Put(w, t, w.status, if w.tasks[t].phase.Recorded? then PanickedLate else Panicked)
    case Watch(t, now, error) =>
      Put(w, t, GaveUp(w.status, now, error), if w.tasks[t].phase.Panicked? then GivenUp else Returned)
  }

  const BEGINNING := World(IDLE, [])

  ghost predicate IsRun(steps: seq<Step>) {
    steps == [] || (IsRun(steps[..|steps| - 1]) && Enabled(Reached(steps[..|steps| - 1]), steps[|steps| - 1]))
  }

  ghost function Reached(steps: seq<Step>): World {
    if steps == [] then BEGINNING else
      var w, s := Reached(steps[..|steps| - 1]), steps[|steps| - 1];
      if Enabled(w, s) then After(w, s) else w
  }

  /** The watcher of a task that had already recorded how it ended overwrites the status of a live import, or of one
      that is done: its own, or a later one. */
  predicate Stray(w: World, s: Step) {
    s.Watch? && At(w, s.task, PanickedLate) && (w.status.state == Running || w.status.state == Done)
  }

  ghost predicate NeverStrays(steps: seq<Step>) {
    steps == [] || (NeverStrays(steps[..|steps| - 1]) && !Stray(Reached(steps[..|steps| - 1]), steps[|steps| - 1]))
  }

  /** The status tells exactly how far the import has come. */
  predicate Tells(s: Status, t: Task) {
    && s.state == Running && s.itemsTotal == t.total
    && match t.phase
       case AtItem(n) => n <= t.total && s.itemsDone == n && n == t.imported + s.itemsMissing + s.itemsFailed
       case AfterOutcome(n) => n < t.total && s.itemsDone == n && n + 1 == t.imported + s.itemsMissing + s.itemsFailed
       case Spawned => t.imported == 0
       case _ => true
  }

  /** At most the last task is live, and the status tells the state of the last import: running while it is live,
      done exactly when it had items and recorded its end. */
  ghost predicate Safe(w: World) {
    && (forall i | 0 <= i < |w.tasks| - 1 :: !Live(w.tasks[i]))
    && (w.status.state == Running <==> w.tasks != [] && Live(w.tasks[|w.tasks| - 1]))
    && (w.status.state == Running ==> Tells(w.status, w.tasks[|w.tasks| - 1]))
    && (w.status.state == Idle <==> w.tasks == [])
    && (w.status.state == Done <==>
          w.tasks != [] && w.tasks[|w.tasks| - 1].total > 0 && Ended(w.tasks[|w.tasks| - 1]))
    && (w.status.state == Done ==>
          && w.tasks != [] && w.status.itemsDone == w.status.itemsTotal == w.tasks[|w.tasks| - 1].total > 0
          && w.status.itemsTotal == w.tasks[|w.tasks| - 1].imported + w.status.itemsMissing + w.status.itemsFailed)
  }

  /** Of the steps a safe world allows, a stray write is the one that makes it unsafe. */
  lemma StepKeepsSafeIff(w: World, s: Step)
    requires Safe(w) && Enabled(w, s)
    ensures Safe(After(w, s)) <==> !Stray(w, s)
  {
    if !s.Start? {
      assert s.task < |w.tasks| && (s.task < |w.tasks| - 1 ==> !Live(w.tasks[s.task]));
    }
  }

  ghost predicate AlwaysSafe(steps: seq<Step>) {
    Safe(Reached(steps)) && (steps == [] || AlwaysSafe(steps[..|steps| - 1]))
  }

  /** A run stays safe if and only if no watcher strays: one live import at most, `Running` exactly while there is
      one, `Done` exactly when the last import went through its items, and then every item accounted for. A late
      panic does harm only through its watcher, and none where the last import failed anyway. */
  lemma {:induction false} RunsAreSafeIff(steps: seq<Step>)
    requires IsRun(steps)
    ensures AlwaysSafe(steps) <==> NeverStrays(steps)
  {
    if steps != [] {
      RunsAreSafeIff(steps[..|steps| - 1]);
      if AlwaysSafe(steps[..|steps| - 1]) {
        StepKeepsSafeIff(Reached(steps[..|steps| - 1]), steps[|steps| - 1]);
      }
    }
  }

  /** The next thing a live task, or its watcher, does. */
  function NextOf(w: World, task: nat, now: nat, o: Outcome): Step
    requires task < |w.tasks|
  {
    var t := w.tasks[task];
    match t.phase
    case Spawned => Begin(task, now)
    case AtItem(n) => if t.total == 0 then NoItems(task, now) else if n < t.total then ItemOutcome(task, o) else Finish(task, now)
    case AfterOutcome(_) => ItemDone(task)
    case Panicked => Watch(task, now, "")
    case _ => Return(task)
  }

  /** How many steps a live task and its watcher have left at most, a panic included. */
  function ToGo(t: Task): int {
    match t.phase
    case Spawned => 2 * t.total + 3
    case AtItem(n) => 2 * (t.total - n) + 2
    case AfterOutcome(n) => 2 * (t.total - n) + 1
    case Panicked => 1
    case _ => 0
  }

  /** `Running` never lasts: the live task can always take its next step, each brings it nearer its end, and a
      panicked one is a single step from `Failed`. */
  lemma RunningMakesProgress(w: World, now: nat, o: Outcome)
    requires Safe(w) && w.status.state == Running
    ensures var last := |w.tasks| - 1; var s := NextOf(w, last, now, o);
            && Enabled(w, s) && 0 <= ToGo(After(w, s).tasks[last]) < ToGo(w.tasks[last])
            && (ToGo(After(w, s).tasks[last]) == 0 <==> After(w, s).status.state != Running)
            && (w.tasks[last].phase.Panicked? ==> After(w, s).status.state == Failed)
  {
  }

  /** The step is this task's, or its watcher's. */
  predicate IsBy(s: Step, task: nat) {
    !s.Start? && s.task == task
  }

  function StepsBy(steps: seq<Step>, task: nat): nat {
    if steps == [] then 0 else StepsBy(steps[..|steps| - 1], task) + if IsBy(steps[|steps| - 1], task) then 1 else 0
  }

  /** While a run goes on, its own steps bring it nearer its end, and no other step touches it. */
  lemma OwnStepsCount(w: World, s: Step)
    requires Safe(w) && w.status.state == Running && Enabled(w, s) && !Stray(w, s)
    ensures var last := |w.tasks| - 1;
            && |After(w, s).tasks| == |w.tasks|
            && (if IsBy(s, last) then ToGo(After(w, s).tasks[last]) < ToGo(w.tasks[last])
                else After(w, s).tasks[last] == w.tasks[last])
  {
    if !s.Start? {
      assert s.task < |w.tasks| && (s.task < |w.tasks| - 1 ==> !Live(w.tasks[s.task]));
    }
  }

  /** `Running` ends: however the steps of others interleave, the live task and its watcher take fewer steps while it
      lasts than `ToGo` said when one first looked. */
  lemma {:induction false} RunningEnds(steps: seq<Step>, n: nat)
    requires IsRun(steps) && NeverStrays(steps) && n <= |steps|
    requires forall i | n <= i <= |steps| :: Reached(steps[..i]).status.state == Running
    ensures var before, after := Reached(steps[..n]), Reached(steps); var last := |before.tasks| - 1;
            && |after.tasks| == |before.tasks| && last >= 0
            && StepsBy(steps[n..], last) + ToGo(after.tasks[last]) <= ToGo(before.tasks[last])
            && StepsBy(steps[n..], last) < ToGo(before.tasks[last])
    decreases |steps|
  {
    hide Safe, After, Enabled, Stray;
    assert steps[..|steps|] == steps;
    RunIsSafe(steps);
    LiveHasToGo(Reached(steps));
    if n < |steps| {
      var front, s := steps[..|steps| - 1], steps[|steps| - 1];
      assert forall i | n <= i <= |front| :: front[..i] == steps[..i];
      RunningEnds(front, n);
      RunIsSafe(front);
      OwnStepsCount(Reached(front), s);
      assert steps[n..][..|steps| - n - 1] == front[n..];
    } else {
      assert steps[n..] == [];
    }
  }

  lemma {:induction false} RunIsSafe(steps: seq<Step>)
    requires IsRun(steps) && NeverStrays(steps)
    ensures Safe(Reached(steps))
  {
    RunsAreSafeIff(steps);
  }

  lemma LiveHasToGo(w: World)
    requires Safe(w) && w.status.state == Running
    ensures w.tasks != [] && ToGo(w.tasks[|w.tasks| - 1]) > 0
  {}

  /** `start` is refused exactly while a run is live; then it changes nothing. */
  lemma StartIsRefusedIff(w: World, now: nat, total: nat)
    requires Safe(w)
    ensures After(w, Start(now, total)) == w <==> exists t <- w.tasks :: Live(t)
  {
    if w.status.state == Running {
      assert w.tasks[|w.tasks| - 1] in w.tasks;
    } else {
      assert |After(w, Start(now, total)).tasks| == |w.tasks| + 1;
    }
  }

  // ---------- A run that nothing disturbs ----------

  /** The updates of one import over `items`, the first of this process. */
  lemma {:induction false} UpdatesOf(table: Table, items: seq<Item>, n: nat, startedAt: nat) returns (steps: seq<Step>)
    requires n <= |items|
    ensures IsRun(steps) && NeverStrays(steps)
    ensures Reached(steps) == World(Counted(table, items[..n], startedAt, |items|), [Task(|items|, AtItem(n), Imports(items[..n]))])
    decreases n
  {
    hide IsRun, NeverStrays, Reached;
    if n == 0 {
      steps := BeginAlone(startedAt, |items|);
    } else {
      steps := UpdatesOf(table, items, n - 1, startedAt);
      assert items[..n][..n - 1] == items[..n - 1];
      var before := TableAfter(table, items[..n - 1]);
      ItemOnlyAdds(before, items[n - 1]);
      steps := Extend(steps, ItemOutcome(0, OutcomeOf(before, items[n - 1])));
      steps := Extend(steps, ItemDone(0));
    }
  }

  lemma BeginAlone(startedAt: nat, total: nat) returns (steps: seq<Step>)
    ensures IsRun(steps) && NeverStrays(steps) && Reached(steps) == World(Started(startedAt, total), [Task(total, AtItem(0), 0)])
  {
    steps := [];
    assert IsRun(steps) && NeverStrays(steps) && Reached(steps) == BEGINNING;
    hide IsRun, NeverStrays, Reached;
    steps := Extend(steps, Start(startedAt, total));
    assert Reached(steps).tasks == [Task(total, Spawned, 0)];
    steps := Extend(steps, Begin(0, startedAt));
    assert Reached(steps).tasks == [Task(total, AtItem(0), 0)];
  }

  /** Left alone, the updates end in the very status that the importer computes. */
  lemma UndisturbedRun(table: Table, items: seq<Item>, startedAt: nat, finishedAt: nat) returns (steps: seq<Step>)
    ensures IsRun(steps) && NeverStrays(steps)
    ensures Reached(steps) == World(StatusAfter(table, items, startedAt, finishedAt), [Task(|items|, Recorded, Imports(items))])
  {
    hide IsRun, NeverStrays, Reached;
    steps := UpdatesOf(table, items, |items|, startedAt);
    assert items[..|items|] == items;
    if items == [] {
      steps := Extend(steps, NoItems(0, finishedAt));
    } else {
      steps := Extend(steps, Finish(0, finishedAt));
    }
  }

  // ---------- What a late panic does ----------

  /** An import over one item, which came in. */
  lemma OneItemIn() returns (steps: seq<Step>)
    ensures IsRun(steps) && NeverStrays(steps) && Reached(steps).tasks == [Task(1, AfterOutcome(0), 1)]
  {
    steps := [];
    assert IsRun(steps) && NeverStrays(steps) && Reached(steps) == BEGINNING;
    hide IsRun, NeverStrays, Reached;
    steps := Extend(steps, Start(0, 1));
    assert Reached(steps).tasks == [Task(1, Spawned, 0)];
    steps := Extend(steps, Begin(0, 1));
    assert Reached(steps).tasks == [Task(1, AtItem(0), 0)];
    steps := Extend(steps, ItemOutcome(0, Imported(1)));
  }

  /** It panics behind its last update. */
  lemma PanickedAtTheEnd() returns (steps: seq<Step>)
    ensures IsRun(steps) && NeverStrays(steps)
    ensures Reached(steps).status.state == Done && Reached(steps).tasks == [Task(1, PanickedLate, 1)]
  {
    hide IsRun, NeverStrays, Reached;
    steps := OneItemIn();
    steps := Extend(steps, ItemDone(0));
    assert Reached(steps).tasks == [Task(1, AtItem(1), 1)];
    steps := Extend(steps, Finish(0, 2));
    assert Reached(steps).status.state == Done && Reached(steps).tasks == [Task(1, Recorded, 1)];
    steps := Extend(steps, Panic(0));
  }

  /** What a stray write does to the import it comes from: it went through its items, and is shown as failed. */
  lemma LatePanicHidesDone() returns (steps: seq<Step>)
    ensures IsRun(steps) && !NeverStrays(steps)
    ensures var w := Reached(steps); w.status.state == Failed && w.tasks == [Task(1, Returned, 1)]
  {
    hide IsRun, NeverStrays, Reached;
    steps := PanickedAtTheEnd();
    steps := Extend(steps, Watch(0, 3, "panic"));
  }

  /** And to a later one: the watcher of the first import takes the second one's status from it, and a third starts
      beside the second. */
  lemma LatePanicBreaksSafety() returns (steps: seq<Step>)
    ensures IsRun(steps) && !NeverStrays(steps)
    ensures var w := Reached(steps); |w.tasks| == 3 && Live(w.tasks[1]) && Live(w.tasks[2])
  {
    hide IsRun, NeverStrays, Reached;
    steps := PanickedAtTheEnd();
    steps := Extend(steps, Start(3, 1));
    assert Reached(steps).status.state == Running;
    assert Reached(steps).tasks == [Task(1, PanickedLate, 1), Task(1, Spawned, 0)];
    steps := Extend(steps, Watch(0, 4, "panic"));
    assert Reached(steps).tasks == [Task(1, Returned, 1), Task(1, Spawned, 0)];
    steps := Extend(steps, Start(5, 1));
  }

  lemma Extend(steps: seq<Step>, s: Step) returns (more: seq<Step>)
    requires IsRun(steps) && Enabled(Reached(steps), s)
    ensures more == steps + [s] && IsRun(more) && Reached(more) == After(Reached(steps), s)
    ensures NeverStrays(more) <==> NeverStrays(steps) && !Stray(Reached(steps), s)
  {
    more := steps + [s];
    assert more[..|steps|] == steps;
  }
}
