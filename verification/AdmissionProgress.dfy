/** Requests of the admission machine are let in exactly when there is room, and always reach their end. */
module AdmissionProgress {
  import opened ByteBudget
  import opened Counting
  import opened Admission

  // ---------- Who is let in ----------

  lemma GatesOf(c: Config, s: State)
    requires Usable(c) && Reachable(c, s)
    ensures Gates(c, s)
  {
    var now, steps :| Legal(c, Start(now), steps) && Play(c, Start(now), steps) == s;
    BoundsAreRoomy(c);
    RunKeeps(c, now, steps, c.uploadCap, MostUsed(c));
  }

  /**
   A request passes the first gate exactly if fewer than maxConcurrent are active
   as it arrives, and the second exactly if fewer than maxTransfers are counted.
   */
  lemma LetInIff(c: Config, s: State, id: Id)
    requires Usable(c) && Reachable(c, s)
    ensures Enabled(c, s, Arrive(id)) ==>
              (At(Apply(c, s, Arrive(id)), id, Inside) <==> |s.active| < c.maxConcurrent)
              && (At(Apply(c, s, Arrive(id)), id, OverGate) <==> |s.active| >= c.maxConcurrent)
    ensures Enabled(c, s, Acquire(id)) ==>
              (At(Apply(c, s, Acquire(id)), id, Transferring) <==> Count(s.active, CountedTransfer) < c.maxTransfers)
              && (At(Apply(c, s, Acquire(id)), id, OverTransfer) <==> Count(s.active, CountedTransfer) >= c.maxTransfers)
  {
    GatesOf(c, s);
    hide Count, Reachable;
  }

  // ---------- No request is stuck ----------

  /** An upper bound on the operations a request still has before it. */
  function Left(p: Phase): int {
    match p
    case OverGate => 1
    case Inside => 5
    case OverTransfer => 2
    case Transferring => 4
    case Draining => 3
    case Done => 2
    case Leaving => 1
  }

  ghost function Work(s: State): int {
    Sum(s.active, Left)
  }

  lemma WorkStep(c: Config, s: State, step: Step)
    requires Enabled(c, s, step) && !step.Arrive?
    ensures Work(Apply(c, s, step)) < Work(s)
  {
    hide Sum, Taken, Accepts;
    SumWithout(s.active, step.id, Left);
    if !step.UndoArrive? && !step.Leave? {
      var p := Apply(c, s, step).active[step.id];
      SumPut(s.active, step.id, p, Left);
      assert Apply(c, s, step).active == s.active[step.id := p];
    } else {
      assert Apply(c, s, step).active == s.active - {step.id};
    }
  }

  /** An operation that an active request can do. */
  function NextStep(s: State, id: Id): Step
    requires id in s.active
  {
    match s.active[id]
    case OverGate => UndoArrive(id)
    case Inside => Acquire(id)
    case OverTransfer => UndoAcquire(id)
    case Transferring => TakeDownload(id, 0, 0)
    case Draining => Charge(id, 0)
    case Done => ReleaseTransfer(id)
    case Leaving => Leave(id)
  }

  lemma NextIsEnabled(c: Config, s: State, id: Id)
    requires Usable(c) && id in s.active
    ensures Enabled(c, s, NextStep(s, id)) && !NextStep(s, id).Arrive?
  {
  }

  /**
   Every operation but an arrival brings its request nearer to its end, and every
   active request has one it can do: from any reachable state all can leave, and
   both gates are then empty.
   */
  lemma {:induction false} AllCanLeave(c: Config, s: State) returns (after: State)
    requires Usable(c) && Reachable(c, s)
    ensures Reachable(c, after) && after.active == map[] && after.inflight == 0 && after.transfers == 0
    decreases Work(s)
  {
    SumAtLeastSize(s.active, Left);
    if s.active == map[] {
      ConcurrencyLimits(c, s);
      after := s;
    } else {
      var id :| id in s.active;
      var step := NextStep(s, id);
      NextIsEnabled(c, s, id);
      WorkStep(c, s, step);
      ReachesNext(c, s, step);
      hide Apply, Enabled, Reachable;
      SumAtLeastSize(Apply(c, s, step).active, Left);
      after := AllCanLeave(c, Apply(c, s, step));
    }
  }

  /** An operation leaves all other requests alone, and only the budget's own operations touch the budget. */
  lemma OnlyItsRequest(c: Config, s: State, step: Step)
    requires Enabled(c, s, step)
    ensures Apply(c, s, step).active - {step.id} == s.active - {step.id}
    ensures Apply(c, s, step).budget != s.budget ==> step.TakeDownload? || step.TakeUpload? || step.Charge?
  {
    hide Taken, Accepts;
  }

  /** An upload drains exactly if the budget accepts it, and what it has drained is charged in full. */
  lemma BudgetDecides(c: Config, s: State, id: Id, now: int, n: int)
    requires Usable(c) && At(s, id, Transferring)
    ensures At(Apply(c, s, TakeUpload(id, now)), id, Draining) <==> Accepts(c.bytes, c.window, s.budget, now)
    ensures 0 <= n <= c.uploadCap && Accepts(c.bytes, c.window, s.budget, now) ==>
              var t := Apply(c, s, TakeUpload(id, now));
              Enabled(c, t, Charge(id, n)) && Apply(c, t, Charge(id, n)).budget.used == t.budget.used + n
  {
  }
}
