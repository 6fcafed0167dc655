/**
 Run assignment in the agent (src/Networker.Agent/AgentWorker.cs): the receive
 loop handles assignments and cancellations one at a time, while the run tasks
 it has started take their steps on the thread pool in any interleaving.
 */
module RunProtocol {
  import opened Counting
  import opened RecentRuns

  const SLOTS := 4
  const REMEMBERED := 128

  type TaskId = nat

  datatype Phase =
    | Waiting    // for a slot
    | Executing
    | Recorded   // in `finally`: the run is remembered
    | Released   // in `finally`: the slot is given back

  datatype Task = Task(run: RunId, phase: Phase)

  datatype Pending = Nothing | Checked(run: RunId, len: nat)

  /** A run that was started when `len` finishes had been recorded. */
  datatype Start = Start(run: RunId, len: nat)

  /**
   `running` is the in-flight dictionary, `recorded` the effective insertions
   into the memory of finished runs, of which the last 128 are still known,
   `tasks` the live run tasks, `pending` an assignment whose first check has
   passed, `down` that the connection's token has fired. The rest is history:
   every run started, every id that a cancellation took out of the dictionary,
   and every id started although it was remembered at that moment.
   */
  datatype State = State(
    running: map<RunId, TaskId>, stopped: set<TaskId>, free: int, recorded: seq<RunId>,
    tasks: map<TaskId, Task>, next: TaskId, pending: Pending, down: bool,
    starts: seq<Start>, cancelled: set<RunId>, overlooked: set<RunId>)

  const START := State(map[], {}, SLOTS, [], map[], 0, Nothing, false, [], {}, {})

  datatype Step =
    | Check(run: RunId)     // assign_run: not among the recently finished?
    | Add(run: RunId)       // assign_run: not in flight? then start a task
    | Assign(run: RunId)    // both, with nothing in between
    | Cancel(run: RunId)    // cancel_run, or one turn of CancelAllRuns
    | Disconnect            // the connection's token fires, at any time; every run's is linked to it
    | Reconnect
    | Acquire(task: TaskId)
    | Die(task: TaskId)     // the token fires while the task waits for a slot
    | Record(task: TaskId)  // `finally`, three operations
    | Release(task: TaskId)
    | Remove(task: TaskId)

  predicate At(s: State, t: TaskId, p: Phase) {
    t in s.tasks && s.tasks[t].phase == p
  }

  predicate Known(s: State, run: RunId) {
    run in Last(s.recorded, REMEMBERED)
  }

  predicate Enabled(s: State, step: Step) {
    match step
    case Check(_) => s.pending == Nothing
    case Add(run) => s.pending.Checked? && s.pending.run == run
    case Assign(_) => s.pending == Nothing
    case Cancel(_) => s.pending == Nothing
    case Disconnect => true
    case Reconnect => s.pending == Nothing
    case Acquire(t) => At(s, t, Waiting) && s.free > 0
    case Die(t) => At(s, t, Waiting) && t in s.stopped
    case Record(t) => At(s, t, Executing)
    case Release(t) => At(s, t, Recorded)
    case Remove(t) => At(s, t, Released)
  }

  function Checks(s: State, run: RunId): State {
    if Known(s, run) then s else s.(pending := Checked(run, |s.recorded|))
  }

  function Adds(s: State, run: RunId): State {
    if run in s.running then s.(pending := Nothing)
    else s.(pending := Nothing, running := s.running[run := s.next], next := s.next + 1,
            tasks := s.tasks[s.next := Task(run, Waiting)],
            stopped := if s.down then s.stopped + {s.next} else s.stopped,
            starts := s.starts + [Start(run, |s.recorded|)],
            overlooked := if Known(s, run) then s.overlooked + {run} else s.overlooked)
  }

  function Moved(s: State, t: TaskId, p: Phase): State
    requires t in s.tasks
  {
    s.(tasks := s.tasks[t := s.tasks[t].(phase := p)])
  }

  function Apply(s: State, step: Step): State
    requires Enabled(s, step)
  {
    match step
    case Check(run) => Checks(s, run)
    case Add(run) => Adds(s, run)
    case Assign(run) => if Known(s, run) then s else Adds(s, run)
    case Cancel(run) =>
      if run !in s.running then s
      else s.(running := s.running - {run}, stopped := s.stopped + {s.running[run]}, cancelled := s.cancelled + {run})
    case Disconnect => s.(stopped := s.stopped + s.tasks.Keys, down := true)
    case Reconnect => s.(down := false)
    case Acquire(t) => Moved(s, t, Executing).(free := s.free - 1)
    case Die(t) => s.(tasks := s.tasks - {t})
    case Record(t) => Moved(s, t, Recorded).(recorded := Inserted(REMEMBERED, s.recorded, s.tasks[t].run))
    case Release(t) => Moved(s, t, Released).(free := s.free + 1)
    case Remove(t) => s.(tasks := s.tasks - {t}, running := s.running - {s.tasks[t].run})
  }

  // ---------- Runs ----------

  predicate Legal(steps: seq<Step>)
    decreases |steps|, 0
  {
    steps == [] ||
    var n := |steps| - 1;
    Legal(steps[..n]) && Enabled(Play(steps[..n]), steps[n])
  }

  function Play(steps: seq<Step>): State
    requires Legal(steps)
    decreases |steps|, 1
  {
    if steps == [] then START
    else Apply(Play(steps[..|steps| - 1]), steps[|steps| - 1])
  }

  /** Nothing comes between the two checks of any assignment. */
  predicate Atomic(steps: seq<Step>) {
    forall step | step in steps :: !step.Check? && !step.Add?
  }

  ghost predicate Reachable(s: State) {
    exists steps: seq<Step> :: Legal(steps) && Play(steps) == s
  }

  ghost predicate AtomicallyReachable(s: State) {
    exists steps: seq<Step> :: Legal(steps) && Atomic(steps) && Play(steps) == s
  }

  lemma ReachesNext(s: State, step: Step)
    requires Enabled(s, step)
    ensures Reachable(s) ==> Reachable(Apply(s, step))
    ensures AtomicallyReachable(s) && !step.Check? && !step.Add? ==> AtomicallyReachable(Apply(s, step))
  {
    hide Apply, Enabled;
    if steps: seq<Step> :| Legal(steps) && Play(steps) == s {
      Extends(steps, step);
    }
    if steps: seq<Step> :| Legal(steps) && Atomic(steps) && Play(steps) == s {
      Extends(steps, step);
    }
  }

  lemma Extends(steps: seq<Step>, step: Step)
    requires Legal(steps) && Enabled(Play(steps), step)
    ensures Legal(steps + [step]) && Play(steps + [step]) == Apply(Play(steps), step)
  {
    assert (steps + [step])[..|steps|] == steps;
  }

  // ---------- Slots ----------

  predicate HoldsSlot(t: Task) {
    t.phase == Executing || t.phase == Recorded
  }

  ghost predicate SlotsBalance(s: State) {
    && s.free + Count(s.tasks, HoldsSlot) == SLOTS
    && s.free >= 0
  }

  ghost predicate Linked(s: State) {
    && (forall t | t in s.tasks :: t < s.next)
    && (forall run | run in s.running :: s.running[run] < s.next)
    && (forall run | run in s.running && s.running[run] in s.tasks :: s.tasks[s.running[run]].run == run)
  }

  lemma LinkedStep(s: State, step: Step)
    requires Linked(s) && Enabled(s, step)
    ensures Linked(Apply(s, step))
  {
    hide Inserted, Last;
  }

  lemma SlotsStep(s: State, step: Step)
    requires SlotsBalance(s) && Linked(s) && Enabled(s, step)
    ensures SlotsBalance(Apply(s, step))
  {
    hide Inserted, Last, Count;
    match step
    case Add(run) => CountPut(s.tasks, s.next, Task(run, Waiting), HoldsSlot);
    case Assign(run) => CountPut(s.tasks, s.next, Task(run, Waiting), HoldsSlot);
    case Acquire(t) => CountPut(s.tasks, t, s.tasks[t].(phase := Executing), HoldsSlot);
    case Die(t) => CountDrop(s.tasks, t, HoldsSlot);
    case Record(t) => CountPut(s.tasks, t, s.tasks[t].(phase := Recorded), HoldsSlot);
    case Release(t) => CountPut(s.tasks, t, s.tasks[t].(phase := Released), HoldsSlot);
    case Remove(t) => CountDrop(s.tasks, t, HoldsSlot);
    case _ =>
  }

  lemma {:induction false} RunKeepsSlots(steps: seq<Step>)
    requires Legal(steps)
    ensures SlotsBalance(Play(steps)) && Linked(Play(steps))
    decreases |steps|
  {
    hide SlotsBalance, Linked, Enabled, Apply;
    if steps == [] {
      StartBalances();
    } else {
      var n := |steps| - 1;
      RunKeepsSlots(steps[..n]);
      LinkedStep(Play(steps[..n]), steps[n]);
      SlotsStep(Play(steps[..n]), steps[n]);
    }
  }

  lemma StartBalances()
    ensures SlotsBalance(START) && Linked(START)
  {
    CountNone<TaskId, Task>(HoldsSlot);
  }

  /**
   In every run, cancelled or not, free slots plus the tasks holding one is
   always four: each acquired slot is given back exactly once, and all four are
   free again when no task is left.
   */
  lemma SlotsAreConserved(s: State)
    requires Reachable(s)
    ensures s.free + Count(s.tasks, HoldsSlot) == 4
    ensures 0 <= s.free <= 4
    ensures s.tasks == map[] ==> s.free == 4
  {
    var steps :| Legal(steps) && Play(steps) == s;
    RunKeepsSlots(steps);
    CountNone<TaskId, Task>(HoldsSlot);
  }

  /**
   The receive loop handles one message at a time: an assignment under way is
   finished before the next message, and only the connection's token comes between.
   */
  lemma MessagesAreSequential(s: State, run: RunId)
    ensures Enabled(s, Disconnect)
    ensures Enabled(s, Add(run)) <==> s.pending.Checked? && s.pending.run == run
    ensures forall step :: step in {Check(run), Assign(run), Cancel(run), Reconnect} ==> (Enabled(s, step) <==> s.pending == Nothing)
    ensures Enabled(s, Add(run)) ==> Apply(s, Add(run)).pending == Nothing
    ensures Enabled(s, Assign(run)) ==> Apply(s, Assign(run)).pending == Nothing
    ensures Enabled(s, Check(run)) ==> (Apply(s, Check(run)).pending.Checked? <==> !Known(s, run))
  {
    hide Last;
  }

  // ---------- One live task per run ----------

  /** As long as its id was never cancelled, a live task owns the id's entry. */
  ghost predicate Owned(s: State) {
    forall t | t in s.tasks && s.tasks[t].run !in s.cancelled ::
      s.tasks[t].run in s.running && s.running[s.tasks[t].run] == t
  }

  lemma OwnedStep(s: State, step: Step)
    requires Owned(s) && Linked(s) && Enabled(s, step)
    ensures Owned(Apply(s, step))
  {
    hide Inserted, Last;
  }

  lemma {:induction false} RunKeepsOwned(steps: seq<Step>)
    requires Legal(steps)
    ensures Owned(Play(steps)) && Linked(Play(steps))
    decreases |steps|
  {
    hide Owned, Linked, Enabled, Apply;
    if steps == [] {
      StartIsOwned();
    } else {
      var n := |steps| - 1;
      RunKeepsOwned(steps[..n]);
      LinkedStep(Play(steps[..n]), steps[n]);
      OwnedStep(Play(steps[..n]), steps[n]);
    }
  }

  lemma StartIsOwned()
    ensures Owned(START) && Linked(START)
  {
  }

  /** Two tasks of one run are never alive together unless a cancellation hit that run. */
  lemma OneLiveTaskPerRun(s: State, t: TaskId, u: TaskId)
    requires Reachable(s) && t in s.tasks && u in s.tasks
    requires s.tasks[t].run == s.tasks[u].run && s.tasks[t].run !in s.cancelled
    ensures t == u
  {
    var steps :| Legal(steps) && Play(steps) == s;
    RunKeepsOwned(steps);
  }

  // ---------- No entry outlives its task ----------

  ghost predicate NoneStale(s: State) {
    && (forall run | run in s.running :: s.running[run] in s.tasks || s.running[run] in s.stopped)
    && (forall t | t in s.stopped :: t < s.next)
  }

  lemma NoneStaleStep(s: State, step: Step)
    requires NoneStale(s) && Linked(s) && Enabled(s, step)
    ensures NoneStale(Apply(s, step))
  {
    hide Inserted, Last;
  }

  lemma {:induction false} RunKeepsEntries(steps: seq<Step>)
    requires Legal(steps)
    ensures NoneStale(Play(steps)) && Linked(Play(steps))
    decreases |steps|
  {
    hide NoneStale, Linked, Enabled, Apply;
    if steps == [] {
      NothingStaleAtStart();
    } else {
      var n := |steps| - 1;
      RunKeepsEntries(steps[..n]);
      LinkedStep(Play(steps[..n]), steps[n]);
      NoneStaleStep(Play(steps[..n]), steps[n]);
    }
  }

  lemma NothingStaleAtStart()
    ensures NoneStale(START) && Linked(START)
  {
  }

  /**
   An in-flight entry belongs to a live task of that run, or to one whose token
   fired: no finished run keeps its id blocked, and an id that is neither in
   flight nor remembered is started by the next assignment.
   */
  lemma EntriesAreLive(s: State, run: RunId)
    requires Reachable(s) && s.pending == Nothing
    ensures run in s.running ==>
      (s.running[run] in s.tasks && s.tasks[s.running[run]].run == run) || s.running[run] in s.stopped
    ensures Apply(s, Assign(run)).starts != s.starts <==> run !in s.running && !Known(s, run)
  {
    hide Last;
    var steps :| Legal(steps) && Play(steps) == s;
    RunKeepsEntries(steps);
  }

  // ---------- Starts of one run are far apart ----------

  ghost predicate RecordedSince(recorded: seq<RunId>, run: RunId, len: nat) {
    exists p :: len <= p < |recorded| && recorded[p] == run
  }

  /** In flight, not yet in `finally`, not remembered. */
  predicate Unfinished(s: State, run: RunId) {
    && run in s.running
    && (s.running[run] in s.tasks ==> s.tasks[s.running[run]].phase in {Waiting, Executing})
    && !Known(s, run)
  }

  /** A cancellation hit the run, or it was once started while remembered. */
  predicate Excused(s: State, run: RunId) {
    run in s.cancelled || run in s.overlooked
  }

  ghost predicate StartSettled(s: State, a: Start) {
    Excused(s, a.run) || Unfinished(s, a.run) || RecordedSince(s.recorded, a.run, a.len)
  }

  ghost predicate StartsSettled(s: State) {
    forall a | a in s.starts :: StartSettled(s, a)
  }

  ghost predicate FarApart(s: State) {
    forall i, j :: 0 <= i < j < |s.starts| && s.starts[i].run == s.starts[j].run && !Excused(s, s.starts[i].run)
      ==> s.starts[i].len + REMEMBERED < s.starts[j].len
  }

  lemma StillRecorded(recorded: seq<RunId>, more: RunId, run: RunId, len: nat)
    requires RecordedSince(recorded, run, len)
    ensures RecordedSince(Inserted(REMEMBERED, recorded, more), run, len)
  {
    var p :| len <= p < |recorded| && recorded[p] == run;
    assert Inserted(REMEMBERED, recorded, more)[p] == run;
  }

  lemma RecordingAnother(s: State, t: TaskId, run: RunId)
    requires Enabled(s, Record(t)) && Unfinished(s, run) && Linked(s)
    requires s.tasks[t].run != run
    ensures Unfinished(Apply(s, Record(t)), run)
  {
    OthersStayForgotten(REMEMBERED, s.recorded, run, s.tasks[t].run);
  }

  lemma RecordingItself(s: State, t: TaskId, len: nat)
    requires Enabled(s, Record(t)) && !Known(s, s.tasks[t].run) && len <= |s.recorded|
    ensures RecordedSince(Apply(s, Record(t)).recorded, s.tasks[t].run, len)
  {
    assert Apply(s, Record(t)).recorded[|s.recorded|] == s.tasks[t].run;
  }

  ghost predicate Settled(s: State) {
    && StartsSettled(s)
    && (forall a | a in s.starts :: a.len <= |s.recorded|)
  }

  lemma SettledOnRecord(s: State, t: TaskId, a: Start)
    requires Settled(s) && Owned(s) && Linked(s) && Enabled(s, Record(t)) && a in s.starts
    ensures StartSettled(Apply(s, Record(t)), a)
  {
    var run := s.tasks[t].run;
    if !Excused(s, a.run) {
      if RecordedSince(s.recorded, a.run, a.len) {
        StillRecorded(s.recorded, run, a.run, a.len);
      } else if a.run == run {
        RecordingItself(s, t, a.len);
      } else {
        RecordingAnother(s, t, a.run);
      }
    }
  }

  lemma SettledStep(s: State, step: Step)
    requires Settled(s) && Owned(s) && Linked(s) && Enabled(s, step)
    ensures Settled(Apply(s, step))
  {
    hide Last, RecordedSince;
    var s' := Apply(s, step);
    forall a | a in s'.starts
      ensures StartSettled(s', a)
    {
      if step.Record? {
        SettledOnRecord(s, step.task, a);
      } else if a !in s.starts {
        assert Known(s, a.run) || Unfinished(s', a.run);
      } else {
        assert StartSettled(s, a);
      }
    }
  }

  lemma FarApartStep(s: State, step: Step)
    requires FarApart(s) && Settled(s) && Enabled(s, step)
    ensures FarApart(Apply(s, step))
  {
    hide Last, RecordedSince, Unfinished, Inserted, StartSettled;
    var s' := Apply(s, step);
    if s'.starts != s.starts {
      var n := |s.starts|;
      forall i | 0 <= i < n && s.starts[i].run == step.run && !Excused(s', step.run)
        ensures s.starts[i].len + REMEMBERED < |s.recorded|
      {
        NotKnownForLong(s, s.starts[i]);
      }
    }
  }

  /** An id that is neither in flight nor remembered was recorded more than 128 finishes ago. */
  lemma NotKnownForLong(s: State, a: Start)
    requires StartsSettled(s) && a in s.starts && !Excused(s, a.run)
    requires a.run !in s.running && !Known(s, a.run)
    ensures a.len + REMEMBERED < |s.recorded|
  {
    assert StartSettled(s, a);
    var p :| a.len <= p < |s.recorded| && s.recorded[p] == a.run;
    RememberedIffRecent(s.recorded, REMEMBERED, a.run);
  }

  lemma {:induction false} RunKeepsApart(steps: seq<Step>)
    requires Legal(steps)
    ensures Settled(Play(steps)) && FarApart(Play(steps))
    decreases |steps|
  {
    hide Settled, FarApart, Owned, Linked, Enabled, Apply;
    if steps == [] {
      StartIsSettled();
    } else {
      var n := |steps| - 1;
      RunKeepsApart(steps[..n]);
      RunKeepsOwned(steps[..n]);
      SettledStep(Play(steps[..n]), steps[n]);
      FarApartStep(Play(steps[..n]), steps[n]);
    }
  }

  lemma StartIsSettled()
    ensures Settled(START) && FarApart(START)
  {
  }

  /**
   At most once, in every run: two starts of a run that no cancellation hit and no
   assignment overlooked are more than 128 recorded finishes apart, so the second
   cannot happen while the first is in flight or among the last 128 finishes.
   */
  lemma StartsAreFarApart(s: State, i: nat, j: nat)
    requires Reachable(s) && i < j < |s.starts|
    requires s.starts[i].run == s.starts[j].run && !Excused(s, s.starts[i].run)
    ensures s.starts[i].len + 128 < s.starts[j].len
  {
    var steps :| Legal(steps) && Play(steps) == s;
    RunKeepsApart(steps);
  }

  lemma {:induction false} AtomicRunOverlooksNothing(steps: seq<Step>)
    requires Legal(steps) && Atomic(steps)
    ensures Play(steps).overlooked == {}
    decreases |steps|
  {
    hide Last;
    if steps != [] {
      AtomicRunOverlooksNothing(steps[..|steps| - 1]);
      assert steps[|steps| - 1] in steps;
    }
  }

  /** With each assignment handled in one go nothing is overlooked, and only cancellations excuse. */
  lemma AtomicAssignmentsOverlookNothing(s: State)
    requires AtomicallyReachable(s)
    ensures Reachable(s) && s.overlooked == {}
  {
    var steps :| Legal(steps) && Atomic(steps) && Play(steps) == s;
    AtomicRunOverlooksNothing(steps);
  }

  // ---------- What a check that is not atomic with its Add still guarantees ----------

  ghost predicate CheckHeld(s: State) {
    s.pending.Checked? ==>
      && s.pending.len <= |s.recorded|
      && s.pending.run !in Last(s.recorded[..s.pending.len], REMEMBERED)
  }

  lemma CheckHeldStep(s: State, step: Step)
    requires CheckHeld(s) && Enabled(s, step)
    ensures CheckHeld(Apply(s, step))
  {
    hide Last;
    if step.Check? {
      assert s.recorded[..|s.recorded|] == s.recorded;
    } else if step.Record? && s.pending.Checked? {
      assert Apply(s, step).recorded[..s.pending.len] == s.recorded[..s.pending.len];
    }
  }

  lemma {:induction false} RunKeepsCheck(steps: seq<Step>)
    requires Legal(steps)
    ensures CheckHeld(Play(steps))
    decreases |steps|
  {
    hide CheckHeld, Enabled, Apply;
    if steps == [] {
      NothingPendingAtStart();
    } else {
      var n := |steps| - 1;
      RunKeepsCheck(steps[..n]);
      CheckHeldStep(Play(steps[..n]), steps[n]);
    }
  }

  lemma NothingPendingAtStart()
    ensures CheckHeld(START)
  {
  }

  /**
   In every run, atomic or not: the only recorded finishes of its own id that an
   assignment can overlook are those more than 128 finishes old at its check and
   those recorded after it.
   */
  lemma OnlyLaterFinishesAreMissed(s: State, p: nat)
    requires Reachable(s) && s.pending.Checked?
    requires p < |s.recorded| && s.recorded[p] == s.pending.run
    ensures p + 128 < s.pending.len || s.pending.len <= p
  {
    var steps :| Legal(steps) && Play(steps) == s;
    RunKeepsCheck(steps);
    if p < s.pending.len {
      var seen := s.recorded[..s.pending.len];
      assert seen[p] == s.pending.run;
      RememberedIffRecent(seen, REMEMBERED, s.pending.run);
    }
  }

  /**
   Exactly when a pending assignment would start a run that is remembered: a
   finish of that run was recorded since its check and is among the last 128.
   */
  lemma OverlooksIff(s: State)
    requires Reachable(s) && s.pending.Checked?
    ensures Known(s, s.pending.run) <==>
      exists p :: s.pending.len <= p < |s.recorded| && |s.recorded| - 128 <= p && s.recorded[p] == s.pending.run
  {
    var run := s.pending.run;
    var steps :| Legal(steps) && Play(steps) == s;
    RunKeepsCheck(steps);
    hide Last;
    RememberedIffRecent(s.recorded, REMEMBERED, run);
    if Known(s, run) {
      var p: int :| 0 <= p < |s.recorded| && |s.recorded| - REMEMBERED <= p && s.recorded[p] == run;
      OnlyLaterFinishesAreMissed(s, p);
      assert s.pending.len <= p;
    } else if p: int :| s.pending.len <= p < |s.recorded| && |s.recorded| - REMEMBERED <= p && s.recorded[p] == run {
      assert false;
    }
  }

  // ---------- Where atomicity and the cancellation clause are needed ----------

  /** A task runs through its `finally`, whatever is pending. */
  lemma FinishesWhilePending(s: State, t: TaskId) returns (after: State)
    requires Reachable(s) && At(s, t, Executing) && !Known(s, s.tasks[t].run)
    ensures Reachable(after) && s.tasks[t].run !in after.running
    ensures after.recorded == s.recorded + [s.tasks[t].run] && after.pending == s.pending
    ensures after.starts == s.starts && after.cancelled == s.cancelled && after.overlooked == s.overlooked
  {
    hide Last;
    var s1 := Apply(s, Record(t));
    var s2 := Apply(s1, Release(t));
    after := Apply(s2, Remove(t));
    ReachesNext(s, Record(t));
    ReachesNext(s1, Release(t));
    ReachesNext(s2, Remove(t));
  }

  /**
   Check and Add are two operations. Whenever a run executes that is not
   remembered, an assignment of it whose check comes first and whose Add comes
   after the task's `finally` starts it again, one finish later at most.
   */
  lemma FinishBetweenChecksRestarts(s: State, t: TaskId) returns (after: State)
    requires Reachable(s) && At(s, t, Executing) && s.pending == Nothing && !Known(s, s.tasks[t].run)
    ensures Reachable(after)
    ensures after.starts == s.starts + [Start(s.tasks[t].run, |s.recorded| + 1)]
    ensures after.cancelled == s.cancelled && after.overlooked == s.overlooked + {s.tasks[t].run}
  {
    hide Last;
    var run := s.tasks[t].run;
    var checked := Apply(s, Check(run));
    ReachesNext(s, Check(run));
    var finished := FinishesWhilePending(checked, t);
    AddedIsRemembered(REMEMBERED, s.recorded, run);
    after := Apply(finished, Add(run));
    ReachesNext(finished, Add(run));
  }

  /**
   A cancellation frees the id before the task's `finally` has run. Whenever a
   run is in flight and not remembered, a cancellation followed by an assignment
   of the same id leaves two live tasks of one run, atomic handling or not.
   */
  lemma CancelThenAssignDuplicates(s: State, t: TaskId) returns (after: State)
    requires AtomicallyReachable(s) && s.pending == Nothing
    requires t in s.tasks && s.tasks[t].run in s.running && !Known(s, s.tasks[t].run)
    ensures AtomicallyReachable(after)
    ensures t in after.tasks && after.tasks[t] == s.tasks[t]
    ensures s.next != t && s.next in after.tasks && after.tasks[s.next] == Task(s.tasks[t].run, Waiting)
  {
    hide Last;
    var run := s.tasks[t].run;
    var s1 := Apply(s, Cancel(run));
    after := Apply(s1, Assign(run));
    ReachesNext(s, Cancel(run));
    ReachesNext(s1, Assign(run));
    FreshTask(s, t);
  }

  lemma FreshTask(s: State, t: TaskId)
    requires AtomicallyReachable(s) && t in s.tasks
    ensures t != s.next
  {
    var steps :| Legal(steps) && Atomic(steps) && Play(steps) == s;
    RunKeepsOwned(steps);
  }

  /** Such states exist: one assignment and a free slot are enough. */
  lemma SomeRunExecutes(run: RunId) returns (s: State)
    ensures Reachable(s) && AtomicallyReachable(s) && s.pending == Nothing
    ensures At(s, 0, Executing) && s.tasks[0].run == run && run in s.running && !Known(s, run)
    ensures s.starts == [Start(run, 0)] && s.cancelled == {} && s.overlooked == {}
  {
    assert Legal([]) && Atomic([]) && Play([]) == START;
    var s1 := Apply(START, Assign(run));
    s := Apply(s1, Acquire(0));
    ReachesNext(START, Assign(run));
    ReachesNext(s1, Acquire(0));
  }
}
