/** Every run task takes its steps to the end, and nothing can keep one from it. */
module RunProgress {
  import opened Counting
  import opened RecentRuns
  import opened RunProtocol

  /** The steps a task still has before it: a slot, its record, its release, its removal. */
  function Left(t: Task): int {
    match t.phase
    case Waiting => 4
    case Executing => 3
    case Recorded => 2
    case Released => 1
  }

  ghost function Work(s: State): int {
    Sum(s.tasks, Left)
  }

  /** What a step does of that work; a task that dies while it waits has none left to do. */
  function Done(step: Step): int {
    match step
    case Acquire(_) => 1
    case Die(_) => 4
    case Record(_) => 1
    case Release(_) => 1
    case Remove(_) => 1
    case _ => 0
  }

  function TotalDone(steps: seq<Step>): int {
    if steps == [] then 0 else TotalDone(steps[..|steps| - 1]) + Done(steps[|steps| - 1])
  }

  lemma WorkStep(s: State, step: Step)
    requires Linked(s) && Enabled(s, step)
    ensures Work(Apply(s, step)) + Done(step) - Work(s) == 4 * (|Apply(s, step).starts| - |s.starts|)
  {
    hide Inserted, Last, Sum;
    match step
    case Add(run) => SumPut(s.tasks, s.next, Task(run, Waiting), Left);
    case Assign(run) => SumPut(s.tasks, s.next, Task(run, Waiting), Left);
    case Acquire(t) => SumPut(s.tasks, t, s.tasks[t].(phase := Executing), Left);
    case Die(t) => SumWithout(s.tasks, t, Left);
    case Record(t) => SumPut(s.tasks, t, s.tasks[t].(phase := Recorded), Left);
    case Release(t) => SumPut(s.tasks, t, s.tasks[t].(phase := Released), Left);
    case Remove(t) => SumWithout(s.tasks, t, Left);
    case _ =>
  }

  /** In every run the work done and the work left are four steps for each start. */
  lemma {:induction false} WorkIsConserved(steps: seq<Step>)
    requires Legal(steps)
    ensures TotalDone(steps) + Work(Play(steps)) == 4 * |Play(steps).starts|
    decreases |steps|
  {
    hide Enabled, Apply, Linked, Done;
    if steps == [] {
      assert Sum<TaskId, Task>(map[], Left) == 0;
    } else {
      hide Work;
      var n := |steps| - 1;
      WorkIsConserved(steps[..n]);
      RunKeepsOwned(steps[..n]);
      WorkStep(Play(steps[..n]), steps[n]);
    }
  }

  predicate OfTask(step: Step, t: TaskId) {
    step in {Acquire(t), Die(t), Record(t), Release(t), Remove(t)}
  }

  /** While a task lives, some task can take a step: no run gets stuck. */
  lemma SomeTaskCanMove(s: State) returns (step: Step, t: TaskId)
    requires Reachable(s) && s.tasks != map[]
    ensures Enabled(s, step) && OfTask(step, t) && t in s.tasks
  {
    SlotsAreConserved(s);
    if u :| u in s.tasks && s.tasks[u].phase != Waiting {
      t := u;
      step := match s.tasks[u].phase
        case Executing => Record(u)
        case Recorded => Release(u)
        case _ => Remove(u);
    } else {
      t :| t in s.tasks;
      assert Having(s.tasks, HoldsSlot) == {};
      step := Acquire(t);
    }
  }

  /** From every reachable state the tasks can run to their ends, and then every slot is free. */
  lemma {:induction false} TasksCanFinish(s: State) returns (after: State)
    requires Reachable(s)
    ensures Reachable(after) && after.tasks == map[] && after.free == 4
    ensures after.starts == s.starts && after.stopped == s.stopped && after.pending == s.pending && after.down == s.down
    decreases Work(s)
  {
    SumAtLeastSize(s.tasks, Left);
    if s.tasks == map[] {
      SlotsAreConserved(s);
      after := s;
    } else {
      var step, t := SomeTaskCanMove(s);
      ReachesNext(s, step);
      OnlyItsTask(s, step, t);
      LinkedIfReachable(s);
      WorkStep(s, step);
      SumAtLeastSize(Apply(s, step).tasks, Left);
      after := TasksCanFinish(Apply(s, step));
    }
  }

  lemma LinkedIfReachable(s: State)
    requires Reachable(s)
    ensures Linked(s)
  {
    var steps :| Legal(steps) && Play(steps) == s;
    RunKeepsOwned(steps);
  }

  /** A task's step leaves the other tasks, the assignment under way and the history of starts alone. */
  lemma OnlyItsTask(s: State, step: Step, t: TaskId)
    requires Enabled(s, step) && OfTask(step, t)
    ensures var s' := Apply(s, step);
            && s'.tasks - {t} == s.tasks - {t}
            && s'.starts == s.starts && s'.stopped == s.stopped && s'.pending == s.pending && s'.down == s.down
            && s'.cancelled == s.cancelled && s'.overlooked == s.overlooked
            && (s'.recorded != s.recorded ==> step.Record?) && (s'.running != s.running ==> step.Remove?)
  {
    hide Inserted;
  }
}
