/** What the state of the run protocol says about how it was reached. */
module RunHistory {
  import opened Counting
  import opened RecentRuns
  import opened RunProtocol

  // ---------- What a step can do ----------

  /** Task `t` is started for `run`. */
  predicate Begins(s: State, step: Step, t: TaskId, run: RunId) {
    && t == s.next && run !in s.running
    && (step == Add(run) || (step == Assign(run) && !Known(s, run)))
  }

  /** `run` is cancelled while task `t` is in flight for it. */
  predicate Hits(s: State, step: Step, t: TaskId, run: RunId) {
    step == Cancel(run) && run in s.running && s.running[run] == t
  }

  /** The token of task `t` fires. */
  predicate Fires(s: State, step: Step, t: TaskId) {
    match step
    case Cancel(run) => Hits(s, step, t, run)
    case Disconnect => t in s.tasks
    case Add(run) => s.down && Begins(s, step, t, run)
    case Assign(run) => s.down && Begins(s, step, t, run)
    case _ => false
  }

  /** The id `run` is taken out of the in-flight table: by a cancellation, or by a task of that run at its end. */
  predicate Frees(s: State, step: Step, run: RunId) {
    match step
    case Cancel(r) => r == run
    case Remove(t) => t in s.tasks && s.tasks[t].run == run
    case _ => false
  }

  /** Task `t` ends. */
  predicate Ends(step: Step, t: TaskId) {
    step == Die(t) || step == Remove(t)
  }

  // ---------- Looking back at a run ----------

  lemma {:induction false} LegalPrefix(steps: seq<Step>, i: nat)
    requires Legal(steps) && i <= |steps|
    ensures Legal(steps[..i])
    decreases |steps|
  {
    hide Enabled, Apply;
    if i < |steps| {
      LegalPrefix(steps[..|steps| - 1], i);
      assert steps[..|steps| - 1][..i] == steps[..i];
    } else {
      assert steps[..i] == steps;
    }
  }

  /** The state before the i-th step. */
  function Before(steps: seq<Step>, i: nat): State
    requires Legal(steps) && i <= |steps|
  {
    LegalPrefix(steps, i);
    Play(steps[..i])
  }

  predicate BeginsAt(steps: seq<Step>, i: nat, t: TaskId, run: RunId)
    requires Legal(steps)
  {
    i < |steps| && Begins(Before(steps, i), steps[i], t, run)
  }

  predicate FiresAt(steps: seq<Step>, i: nat, t: TaskId)
    requires Legal(steps)
  {
    i < |steps| && Fires(Before(steps, i), steps[i], t)
  }

  predicate FreesAt(steps: seq<Step>, i: nat, run: RunId)
    requires Legal(steps)
  {
    i < |steps| && Frees(Before(steps, i), steps[i], run)
  }

  lemma SamePast(steps: seq<Step>, i: nat)
    requires Legal(steps) && i < |steps|
    ensures var prior := steps[..|steps| - 1];
            && Legal(prior) && Before(prior, i) == Before(steps, i)
            && (i < |prior| ==> prior[i] == steps[i])
  {
    hide Enabled, Apply;
    assert steps[..|steps| - 1][..i] == steps[..i];
  }

  lemma LastStep(steps: seq<Step>)
    requires Legal(steps) && steps != []
    ensures var n := |steps| - 1;
            && Legal(steps[..n]) && Enabled(Before(steps, n), steps[n])
            && Before(steps, n) == Play(steps[..n]) && Play(steps) == Apply(Before(steps, n), steps[n])
  {
    hide Enabled, Apply;
  }

  // ---------- Tokens ----------

  lemma FiresNow(s: State, step: Step, t: TaskId)
    requires Enabled(s, step)
    ensures t in Apply(s, step).stopped <==> t in s.stopped || Fires(s, step, t)
  {
    hide Inserted, Last;
  }

  ghost predicate EverFired(steps: seq<Step>, t: TaskId)
    requires Legal(steps)
  {
    exists i: nat :: FiresAt(steps, i, t)
  }

  lemma FiredByTheLast(steps: seq<Step>, t: TaskId)
    requires Legal(steps) && steps != []
    ensures var n := |steps| - 1;
            Legal(steps[..n]) && (EverFired(steps, t) <==> EverFired(steps[..n], t) || Fires(Before(steps, n), steps[n], t))
  {
    hide Fires, Play, Legal, Before, Enabled, Apply;
    var n := |steps| - 1;
    LastStep(steps);
    if i: nat :| FiresAt(steps, i, t) {
      SamePast(steps, i);
      assert i < n ==> FiresAt(steps[..n], i, t);
    }
    if i: nat :| FiresAt(steps[..n], i, t) {
      SamePast(steps, i);
      assert FiresAt(steps, i, t);
    }
    if Fires(Before(steps, n), steps[n], t) {
      assert FiresAt(steps, n, t);
    }
  }

  /**
   The token of a task has fired exactly if a cancellation hit the run it was in
   flight for, the connection was lost while it lived, or it was started while
   the connection was lost.
   */
  lemma {:induction false} TokenFiredIff(steps: seq<Step>, t: TaskId)
    requires Legal(steps)
    ensures t in Play(steps).stopped <==> exists i: nat :: FiresAt(steps, i, t)
    decreases |steps|
  {
    hide Fires, FiresAt, Legal, Before, Enabled, Apply;
    if steps != [] {
      hide Play;
      var n := |steps| - 1;
      LastStep(steps);
      FiresNow(Before(steps, n), steps[n], t);
      FiredByTheLast(steps, t);
      TokenFiredIff(steps[..n], t);
    } else {
      NothingFired(t);
    }
  }

  lemma NothingFired(t: TaskId)
    ensures t !in Play([]).stopped && forall i: nat :: !FiresAt([], i, t)
  {
  }

  // ---------- Entries ----------

  /** The i-th step starts `t` for `run`, and nothing has freed the id since. */
  predicate InFlightSince(steps: seq<Step>, i: nat, t: TaskId, run: RunId)
    requires Legal(steps)
  {
    BeginsAt(steps, i, t, run) && forall k :: i < k < |steps| ==> !FreesAt(steps, k, run)
  }

  lemma EntryNow(s: State, step: Step, t: TaskId, run: RunId)
    requires Enabled(s, step)
    ensures var after := Apply(s, step).running;
            run in after && after[run] == t <==>
              Begins(s, step, t, run) || (run in s.running && s.running[run] == t && !Frees(s, step, run))
  {
    hide Inserted, Last;
  }

  ghost predicate EverInFlight(steps: seq<Step>, t: TaskId, run: RunId)
    requires Legal(steps)
  {
    exists i: nat :: InFlightSince(steps, i, t, run)
  }

  lemma FreesEarlier(steps: seq<Step>, k: nat, run: RunId)
    requires Legal(steps) && k < |steps|
    ensures Legal(steps[..|steps| - 1])
    ensures FreesAt(steps, k, run) <==>
            if k < |steps| - 1 then FreesAt(steps[..|steps| - 1], k, run) else Frees(Before(steps, k), steps[k], run)
  {
    hide Frees, Play, Legal, Before, Enabled, Apply;
    SamePast(steps, k);
  }

  lemma BeginsEarlier(steps: seq<Step>, i: nat, t: TaskId, run: RunId)
    requires Legal(steps) && i < |steps|
    ensures Legal(steps[..|steps| - 1])
    ensures BeginsAt(steps, i, t, run) <==>
            if i < |steps| - 1 then BeginsAt(steps[..|steps| - 1], i, t, run) else Begins(Before(steps, i), steps[i], t, run)
  {
    hide Begins, Play, Legal, Before, Enabled, Apply;
    SamePast(steps, i);
  }

  lemma InFlightByTheLast(steps: seq<Step>, t: TaskId, run: RunId)
    requires Legal(steps) && steps != []
    ensures var n := |steps| - 1;
            var s, step := Before(steps, n), steps[n];
            && Legal(steps[..n])
            && (EverInFlight(steps, t, run) <==> Begins(s, step, t, run) || (EverInFlight(steps[..n], t, run) && !Frees(s, step, run)))
  {
    hide Frees, Begins, Play, Legal, Before, Enabled, Apply, FreesAt, BeginsAt;
    var n := |steps| - 1;
    forall k: nat | k <= n
      ensures Legal(steps[..n])
      ensures FreesAt(steps, k, run) <==>
              if k < n then FreesAt(steps[..n], k, run) else Frees(Before(steps, n), steps[n], run)
    {
      FreesEarlier(steps, k, run);
    }
    BeginsEarlier(steps, n, t, run);
    if EverInFlight(steps, t, run) {
      var i: nat :| InFlightSince(steps, i, t, run);
      BeginsWithin(steps, i, t, run);
      BeginsEarlier(steps, i, t, run);
      if i < n {
        assert !FreesAt(steps, n, run);
        assert InFlightSince(steps[..n], i, t, run);
      }
    }
    if EverInFlight(steps[..n], t, run) && !Frees(Before(steps, n), steps[n], run) {
      var i: nat :| InFlightSince(steps[..n], i, t, run);
      BeginsWithin(steps[..n], i, t, run);
      BeginsEarlier(steps, i, t, run);
      assert InFlightSince(steps, i, t, run);
    }
    if Begins(Before(steps, n), steps[n], t, run) {
      assert InFlightSince(steps, n, t, run);
    }
  }

  lemma BeginsWithin(steps: seq<Step>, i: nat, t: TaskId, run: RunId)
    requires Legal(steps) && BeginsAt(steps, i, t, run)
    ensures i < |steps|
  {
  }

  /** A run is in flight for a task exactly if the task was started for it and nothing has freed the id since. */
  lemma {:induction false} EntryIff(steps: seq<Step>, t: TaskId, run: RunId)
    requires Legal(steps)
    ensures run in Play(steps).running && Play(steps).running[run] == t <==>
            exists i: nat :: InFlightSince(steps, i, t, run)
    decreases |steps|
  {
    hide Frees, Begins, InFlightSince, Legal, Before, Enabled, Apply;
    if steps != [] {
      hide Play;
      var n := |steps| - 1;
      LastStep(steps);
      EntryNow(Before(steps, n), steps[n], t, run);
      InFlightByTheLast(steps, t, run);
      EntryIff(steps[..n], t, run);
    } else {
      NothingInFlight(t, run);
    }
  }

  lemma NothingInFlight(t: TaskId, run: RunId)
    ensures run !in Play([]).running && forall i: nat :: !InFlightSince([], i, t, run)
  {
  }

  // ---------- Tasks ----------

  /** The i-th step starts `t` for `run`, and it has not ended since. */
  predicate AliveSince(steps: seq<Step>, i: nat, t: TaskId, run: RunId)
    requires Legal(steps)
  {
    BeginsAt(steps, i, t, run) && forall k :: i < k < |steps| ==> !Ends(steps[k], t)
  }

  lemma TaskNow(s: State, step: Step, t: TaskId, run: RunId)
    requires Enabled(s, step) && Linked(s)
    ensures var after := Apply(s, step).tasks;
            t in after && after[t].run == run <==>
              Begins(s, step, t, run) || (t in s.tasks && s.tasks[t].run == run && !Ends(step, t))
  {
    hide Inserted, Last;
  }

  ghost predicate EverAlive(steps: seq<Step>, t: TaskId, run: RunId)
    requires Legal(steps)
  {
    exists i: nat :: AliveSince(steps, i, t, run)
  }

  lemma AliveByTheLast(steps: seq<Step>, t: TaskId, run: RunId)
    requires Legal(steps) && steps != []
    ensures var n := |steps| - 1;
            var s, step := Before(steps, n), steps[n];
            && Legal(steps[..n])
            && (EverAlive(steps, t, run) <==> Begins(s, step, t, run) || (EverAlive(steps[..n], t, run) && !Ends(step, t)))
  {
    hide Ends, Begins, Play, Legal, Before, Enabled, Apply, BeginsAt;
    var n := |steps| - 1;
    BeginsEarlier(steps, n, t, run);
    if EverAlive(steps, t, run) {
      var i: nat :| AliveSince(steps, i, t, run);
      BeginsWithin(steps, i, t, run);
      BeginsEarlier(steps, i, t, run);
      if i < n {
        assert !Ends(steps[n], t);
        assert AliveSince(steps[..n], i, t, run);
      }
    }
    if EverAlive(steps[..n], t, run) && !Ends(steps[n], t) {
      var i: nat :| AliveSince(steps[..n], i, t, run);
      BeginsWithin(steps[..n], i, t, run);
      BeginsEarlier(steps, i, t, run);
      assert AliveSince(steps, i, t, run);
    }
    if Begins(Before(steps, n), steps[n], t, run) {
      assert AliveSince(steps, n, t, run);
    }
  }

  /** A task of a run is alive exactly if it was started for it and has not ended since. */
  lemma {:induction false} AliveIff(steps: seq<Step>, t: TaskId, run: RunId)
    requires Legal(steps)
    ensures t in Play(steps).tasks && Play(steps).tasks[t].run == run <==> exists i: nat :: AliveSince(steps, i, t, run)
    decreases |steps|
  {
    hide Ends, Begins, AliveSince, Legal, Before, Enabled, Apply, Linked;
    if steps != [] {
      hide Play;
      var n := |steps| - 1;
      LastStep(steps);
      RunKeepsOwned(steps[..n]);
      TaskNow(Before(steps, n), steps[n], t, run);
      AliveByTheLast(steps, t, run);
      AliveIff(steps[..n], t, run);
    } else {
      NothingAlive(t, run);
    }
  }

  lemma NothingAlive(t: TaskId, run: RunId)
    ensures t !in Play([]).tasks && forall i: nat :: !AliveSince([], i, t, run)
  {
  }

  // ---------- Cancellations ----------

  predicate HitsAt(steps: seq<Step>, i: nat, run: RunId)
    requires Legal(steps)
  {
    i < |steps| && steps[i] == Cancel(run) && run in Before(steps, i).running
  }

  lemma CancelledNow(s: State, step: Step, run: RunId)
    requires Enabled(s, step)
    ensures run in Apply(s, step).cancelled <==> run in s.cancelled || (step == Cancel(run) && run in s.running)
  {
  }

  ghost predicate EverHit(steps: seq<Step>, run: RunId)
    requires Legal(steps)
  {
    exists i: nat :: HitsAt(steps, i, run)
  }

  lemma HitByTheLast(steps: seq<Step>, run: RunId)
    requires Legal(steps) && steps != []
    ensures var n := |steps| - 1;
            && Legal(steps[..n])
            && (EverHit(steps, run) <==> EverHit(steps[..n], run) || (steps[n] == Cancel(run) && run in Before(steps, n).running))
  {
    hide Play, Legal, Before, Enabled, Apply;
    var n := |steps| - 1;
    SamePast(steps, n);
    if EverHit(steps, run) {
      var i: nat :| HitsAt(steps, i, run);
      SamePast(steps, i);
      assert i < n ==> HitsAt(steps[..n], i, run);
    }
    if EverHit(steps[..n], run) {
      var i: nat :| HitsAt(steps[..n], i, run);
      SamePast(steps, i);
      assert HitsAt(steps, i, run);
    }
    if steps[n] == Cancel(run) && run in Before(steps, n).running {
      assert HitsAt(steps, n, run);
    }
  }

  /** The excuse of `StartsAreFarApart`: an id counts as cancelled exactly if a cancellation found it in flight. */
  lemma {:induction false} CancelledIff(steps: seq<Step>, run: RunId)
    requires Legal(steps)
    ensures run in Play(steps).cancelled <==> exists i: nat :: HitsAt(steps, i, run)
    decreases |steps|
  {
    if steps != [] {
      hide Play, Legal, Before, Enabled, Apply, HitsAt;
      var n := |steps| - 1;
      LastStep(steps);
      CancelledNow(Before(steps, n), steps[n], run);
      HitByTheLast(steps, run);
      CancelledIff(steps[..n], run);
    }
  }

  // ---------- Starts ----------

  /** The i-th step starts a run that is remembered at that moment. */
  predicate OverlooksAt(steps: seq<Step>, i: nat, run: RunId)
    requires Legal(steps)
  {
    i < |steps| && Begins(Before(steps, i), steps[i], Before(steps, i).next, run) && Known(Before(steps, i), run)
  }

  lemma OverlookedNow(s: State, step: Step, run: RunId)
    requires Enabled(s, step)
    ensures run in Apply(s, step).overlooked <==> run in s.overlooked || (Begins(s, step, s.next, run) && Known(s, run))
  {
    hide Last;
  }

  ghost predicate EverOverlooked(steps: seq<Step>, run: RunId)
    requires Legal(steps)
  {
    exists i: nat :: OverlooksAt(steps, i, run)
  }

  lemma OverlookedByTheLast(steps: seq<Step>, run: RunId)
    requires Legal(steps) && steps != []
    ensures var n := |steps| - 1;
            var s := Before(steps, n);
            && Legal(steps[..n])
            && (EverOverlooked(steps, run) <==> EverOverlooked(steps[..n], run) || (Begins(s, steps[n], s.next, run) && Known(s, run)))
  {
    hide Play, Legal, Before, Enabled, Apply, Begins, Known;
    var n := |steps| - 1;
    SamePast(steps, n);
    if EverOverlooked(steps, run) {
      var i: nat :| OverlooksAt(steps, i, run);
      SamePast(steps, i);
      assert i < n ==> OverlooksAt(steps[..n], i, run);
    }
    if EverOverlooked(steps[..n], run) {
      var i: nat :| OverlooksAt(steps[..n], i, run);
      SamePast(steps, i);
      assert OverlooksAt(steps, i, run);
    }
    if Begins(Before(steps, n), steps[n], Before(steps, n).next, run) && Known(Before(steps, n), run) {
      assert OverlooksAt(steps, n, run);
    }
  }

  /** The other excuse: an id counts as overlooked exactly if it was started while remembered. */
  lemma {:induction false} OverlookedIff(steps: seq<Step>, run: RunId)
    requires Legal(steps)
    ensures run in Play(steps).overlooked <==> exists i: nat :: OverlooksAt(steps, i, run)
    decreases |steps|
  {
    if steps != [] {
      hide Play, Legal, Before, Enabled, Apply, Begins, Known, OverlooksAt;
      var n := |steps| - 1;
      LastStep(steps);
      OverlookedNow(Before(steps, n), steps[n], run);
      OverlookedByTheLast(steps, run);
      OverlookedIff(steps[..n], run);
    }
  }

  /** Task and start number `t` belong together: an entry of the table or a task is that of a start of its run. */
  ghost predicate Numbered(s: State) {
    && |s.starts| == s.next
    && (forall run | run in s.running :: s.running[run] < s.next && s.starts[s.running[run]].run == run)
    && (forall t | t in s.tasks :: t < s.next && s.starts[t].run == s.tasks[t].run)
  }

  /** The token of a task of every cancelled run has fired. */
  ghost predicate Fired(s: State) {
    forall run | run in s.cancelled :: FiredFor(s, run)
  }

  ghost predicate FiredFor(s: State, run: RunId) {
    exists t :: t in s.stopped && t < |s.starts| && s.starts[t].run == run
  }

  lemma NumberedStep(s: State, step: Step)
    requires Numbered(s) && Enabled(s, step)
    ensures Numbered(Apply(s, step))
  {
    hide Inserted, Last;
  }

  lemma FiredStep(s: State, step: Step)
    requires Fired(s) && Numbered(s) && Enabled(s, step)
    ensures Fired(Apply(s, step))
  {
    hide Apply, Enabled;
    var s' := Apply(s, step);
    StartsGrow(s, step);
    forall run | run in s'.cancelled
      ensures FiredFor(s', run)
    {
      CancelledNow(s, step, run);
      if run in s.cancelled {
        var t :| t in s.stopped && t < |s.starts| && s.starts[t].run == run;
        assert t in s'.stopped && s'.starts[t].run == run;
      } else {
        FiresNow(s, step, s.running[run]);
        assert s'.starts[s.running[run]].run == run;
      }
    }
  }

  lemma {:induction false} RunKeepsNumbers(steps: seq<Step>)
    requires Legal(steps)
    ensures Numbered(Play(steps)) && Fired(Play(steps))
    decreases |steps|
  {
    if steps != [] {
      hide Numbered, Fired, Enabled, Apply;
      RunKeepsNumbers(steps[..|steps| - 1]);
      NumberedStep(Play(steps[..|steps| - 1]), steps[|steps| - 1]);
      FiredStep(Play(steps[..|steps| - 1]), steps[|steps| - 1]);
    }
  }

  /**
   In every reachable state one task was started per start, and of every
   cancelled run the token of a task started for it has fired.
   */
  lemma CancellationsFire(s: State, run: RunId)
    requires Reachable(s)
    ensures |s.starts| == s.next
    ensures run in s.cancelled ==> exists t :: t in s.stopped && t < |s.starts| && s.starts[t].run == run
  {
    var steps :| Legal(steps) && Play(steps) == s;
    RunKeepsNumbers(steps);
  }

  /** The i-th step loses the connection, and none has been made since. */
  predicate LostSince(steps: seq<Step>, i: nat) {
    i < |steps| && steps[i] == Disconnect && forall k :: i < k < |steps| ==> steps[k] != Reconnect
  }

  lemma DownNow(s: State, step: Step)
    requires Enabled(s, step)
    ensures Apply(s, step).down <==> step == Disconnect || (s.down && step != Reconnect)
  {
    hide Inserted, Last;
  }

  lemma LostByTheLast(steps: seq<Step>)
    requires steps != []
    ensures var n := |steps| - 1;
            (exists i: nat :: LostSince(steps, i)) <==>
            steps[n] == Disconnect || ((exists i: nat :: LostSince(steps[..n], i)) && steps[n] != Reconnect)
  {
    var n := |steps| - 1;
    if i: nat :| LostSince(steps, i) && i < n {
      assert LostSince(steps[..n], i);
    }
    if i: nat :| LostSince(steps[..n], i) && steps[n] != Reconnect {
      assert LostSince(steps, i);
    }
    if steps[n] == Disconnect {
      assert LostSince(steps, n);
    }
  }

  /** The connection is down exactly if it was lost and has not been made since. */
  lemma {:induction false} DownIff(steps: seq<Step>)
    requires Legal(steps)
    ensures Play(steps).down <==> exists i: nat :: LostSince(steps, i)
    decreases |steps|
  {
    if steps != [] {
      hide Play, Legal, Before, Enabled, Apply, LostSince;
      var n := |steps| - 1;
      LastStep(steps);
      DownNow(Before(steps, n), steps[n]);
      DownIff(steps[..n]);
      LostByTheLast(steps);
    }
  }

  /** Without a lost connection only tasks of cancelled runs are stopped. */
  lemma OnlyCancelledTasksStop(steps: seq<Step>, t: TaskId)
    requires Legal(steps) && Disconnect !in steps && t in Play(steps).stopped
    ensures t < |Play(steps).starts| && Play(steps).starts[t].run in Play(steps).cancelled
    decreases |steps|
  {
    var n := |steps| - 1;
    hide Inserted, Last, Numbered;
    LastStep(steps);
    DownIff(steps[..n]);
    RunKeepsNumbers(steps[..n]);
    var s := Before(steps, n);
    if t in s.stopped {
      OnlyCancelledTasksStop(steps[..n], t);
      StartsGrow(s, steps[n]);
    } else {
      FiresNow(s, steps[n], t);
      assert Numbered(s) && steps[n].Cancel? by { assert steps[n] in steps; }
      StoppedByCancel(s, steps[n], t);
    }
  }

  lemma StartsGrow(s: State, step: Step)
    requires Enabled(s, step)
    ensures s.starts <= Apply(s, step).starts && s.cancelled <= Apply(s, step).cancelled && s.stopped <= Apply(s, step).stopped
  {
  }

  lemma StoppedByCancel(s: State, step: Step, t: TaskId)
    requires Numbered(s) && Enabled(s, step) && step.Cancel? && Fires(s, step, t)
    ensures t < |Apply(s, step).starts| && Apply(s, step).starts[t].run in Apply(s, step).cancelled
  {
  }
}
