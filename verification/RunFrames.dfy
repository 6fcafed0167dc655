/** What the frames of one assigned run promise the control plane, for every script. */
module RunFrames {
  import opened Counting
  import opened ArtifactBuilder
  import opened Options
  import InvocationDeadline
  import opened RunExecutor

  // ---------- Reading a log ----------

  datatype Kind = IsStart | IsProgress | IsFinish | IsError

  predicate OfKind(f: Frame, k: Kind) {
    match k
    case IsStart => f.RunStarted?
    case IsProgress => f.Progress?
    case IsFinish => f.Finished?
    case IsError => f.Error?
  }

  function Frames(log: seq<Frame>, k: Kind): nat {
    if log == [] then 0 else Frames(log[..|log| - 1], k) + One(OfKind(log[|log| - 1], k))
  }

  function AttemptsIn(log: seq<Frame>): seq<Attempt> {
    if log == [] then []
    else
      AttemptsIn(log[..|log| - 1]) + if log[|log| - 1].Relayed? then [log[|log| - 1].attempt] else []
  }

  /** Every progress frame states the totals of the attempts relayed before it, on top of `ok` and `failed`. */
  predicate Truthful(log: seq<Frame>, ok: nat, failed: nat) {
    log == [] ||
    var before, f := log[..|log| - 1], log[|log| - 1];
    && Truthful(before, ok, failed)
    && (f.Progress? ==>
          && f.okSoFar == ok + HowMany(AttemptsIn(before), true)
          && f.failedSoFar == failed + HowMany(AttemptsIn(before), false))
  }

  lemma Snoc<T>(xs: seq<T>, ys: seq<T>)
    requires ys != []
    ensures (xs + ys)[..|xs + ys| - 1] == xs + ys[..|ys| - 1] && (xs + ys)[|xs + ys| - 1] == ys[|ys| - 1]
  {
  }

  lemma {:induction false} FramesOfConcat(xs: seq<Frame>, ys: seq<Frame>, k: Kind)
    ensures Frames(xs + ys, k) == Frames(xs, k) + Frames(ys, k)
  {
    if ys == [] {
      assert xs + ys == xs;
    } else {
      Snoc(xs, ys);
      FramesOfConcat(xs, ys[..|ys| - 1], k);
    }
  }

  lemma {:induction false} AttemptsOfConcat(xs: seq<Frame>, ys: seq<Frame>)
    ensures AttemptsIn(xs + ys) == AttemptsIn(xs) + AttemptsIn(ys)
  {
    if ys == [] {
      assert xs + ys == xs;
    } else {
      Snoc(xs, ys);
      AttemptsOfConcat(xs, ys[..|ys| - 1]);
    }
  }

  lemma {:induction false} TruthfulConcat(xs: seq<Frame>, ys: seq<Frame>, ok: nat, failed: nat)
    requires Truthful(xs, ok, failed)
    requires Truthful(ys, ok + HowMany(AttemptsIn(xs), true), failed + HowMany(AttemptsIn(xs), false))
    ensures Truthful(xs + ys, ok, failed)
  {
    if ys == [] {
      assert xs + ys == xs;
    } else {
      var before := ys[..|ys| - 1];
      Snoc(xs, ys);
      TruthfulConcat(xs, before, ok, failed);
      AttemptsOfConcat(xs, before);
      HowManyOfConcat(AttemptsIn(xs), AttemptsIn(before), true);
      HowManyOfConcat(AttemptsIn(xs), AttemptsIn(before), false);
    }
  }

  // ---------- What a stretch of frames reports ----------

  /** Every ten of an outcome cost one progress frame. */
  function Tens(ok: nat, failed: nat): nat {
    ok / 10 + failed / 10
  }

  /** `log` relays exactly `xs`, reports progress truthfully and once per ten, and holds no first or last frame. */
  ghost predicate Reports(log: seq<Frame>, xs: seq<Attempt>, ok: nat, failed: nat) {
    && AttemptsIn(log) == xs
    && Truthful(log, ok, failed)
    && Frames(log, IsProgress) == Tens(ok + HowMany(xs, true), failed + HowMany(xs, false)) - Tens(ok, failed)
    && Frames(log, IsStart) == 0
    && Frames(log, IsFinish) == 0
  }

  lemma ReportsConcat(log: seq<Frame>, xs: seq<Attempt>, more: seq<Frame>, ys: seq<Attempt>, ok: nat, failed: nat)
    requires Reports(log, xs, ok, failed)
    requires Reports(more, ys, ok + HowMany(xs, true), failed + HowMany(xs, false))
    ensures Reports(log + more, xs + ys, ok, failed)
  {
    hide Frames, AttemptsIn, Truthful, Tens, HowMany;
    AttemptsOfConcat(log, more);
    TruthfulConcat(log, more, ok, failed);
    FramesOfConcat(log, more, IsProgress);
    FramesOfConcat(log, more, IsStart);
    FramesOfConcat(log, more, IsFinish);
    HowManyOfConcat(xs, ys, true);
    HowManyOfConcat(xs, ys, false);
  }

  lemma NothingReports(ok: nat, failed: nat)
    ensures Reports([], [], ok, failed)
  {
  }

  lemma SingleFrame(f: Frame, ok: nat, failed: nat)
    ensures forall k :: Frames([f], k) == One(OfKind(f, k))
    ensures AttemptsIn([f]) == if f.Relayed? then [f.attempt] else []
    ensures Truthful([f], ok, failed) <==> (f.Progress? ==> f.okSoFar == ok && f.failedSoFar == failed)
  {
    assert [f][..0] == [];
  }

  lemma SingleAttempt(a: Attempt)
    ensures HowMany([a], true) == One(a.ok) && HowMany([a], false) == One(!a.ok)
  {
    assert [a][..0] == [];
  }

  /** A tenth success or failure completes a ten. */
  lemma BurstReports(ok: nat, failed: nat, a: Attempt)
    ensures Reports(Burst(ok + One(a.ok), failed + One(!a.ok), a), [a], ok, failed)
  {
    hide Frames, AttemptsIn, Truthful, HowMany;
    var ok', failed' := ok + One(a.ok), failed + One(!a.ok);
    var f := Progress(ok', failed');
    SingleAttempt(a);
    SingleFrame(Relayed(a), ok, failed);
    SingleFrame(f, ok', failed');
    if (if a.ok then ok' else failed') % 10 == 0 {
      assert Burst(ok', failed', a) == [Relayed(a)] + [f];
      AttemptsOfConcat([Relayed(a)], [f]);
      TruthfulConcat([Relayed(a)], [f], ok, failed);
      FramesOfConcat([Relayed(a)], [f], IsProgress);
      FramesOfConcat([Relayed(a)], [f], IsStart);
      FramesOfConcat([Relayed(a)], [f], IsFinish);
    } else {
      assert Burst(ok', failed', a) == [Relayed(a)];
    }
  }

  lemma RelayOfLast(ok: nat, failed: nat, before: seq<Attempt>, a: Attempt)
    ensures Relay(ok, failed, before + [a])
         == Relay(ok, failed, before)
          + Burst(ok + HowMany(before, true) + One(a.ok), failed + HowMany(before, false) + One(!a.ok), a)
  {
    assert (before + [a])[..|before|] == before;
  }

  lemma RelayReportsNext(ok: nat, failed: nat, before: seq<Attempt>, a: Attempt)
    requires Reports(Relay(ok, failed, before), before, ok, failed)
    ensures Reports(Relay(ok, failed, before + [a]), before + [a], ok, failed)
  {
    hide Reports, Relay, Burst, HowMany, One;
    var ok', failed' := ok + HowMany(before, true), failed + HowMany(before, false);
    BurstReports(ok', failed', a);
    ReportsConcat(Relay(ok, failed, before), before, Burst(ok' + One(a.ok), failed' + One(!a.ok), a), [a], ok, failed);
    RelayOfLast(ok, failed, before, a);
  }

  lemma {:induction false} RelayReports(ok: nat, failed: nat, xs: seq<Attempt>)
    ensures Reports(Relay(ok, failed, xs), xs, ok, failed)
    decreases |xs|
  {
    hide Reports;
    if xs == [] {
      NothingReports(ok, failed);
    } else {
      RelayReports(ok, failed, xs[..|xs| - 1]);
      RelayReportsNext(ok, failed, xs[..|xs| - 1], xs[|xs| - 1]);
      assert xs[..|xs| - 1] + [xs[|xs| - 1]] == xs;
    }
  }

  lemma ExplanationReports(e: Ending, ok: nat, failed: nat)
    ensures Reports(Explanation(e), [], ok, failed)
  {
  }

  lemma {:induction false} BodyReports(runs: seq<Invocation>, ok: nat, failed: nat, envelope: Option<Envelope>)
    ensures var t := Body(runs, ok, failed, envelope); Reports(t.frames, t.attempts, ok, failed)
    decreases runs
  {
    hide Reports, Relay, Explanation, Attempts, EndingOf, Latest, HowMany;
    if runs == [] {
      NothingReports(ok, failed);
    } else {
      var xs, e := Attempts(runs[0].script), EndingOf(runs[0].script);
      var ok', failed' := ok + HowMany(xs, true), failed + HowMany(xs, false);
      RelayReports(ok, failed, xs);
      ExplanationReports(e, ok', failed');
      ReportsConcat(Relay(ok, failed, xs), xs, Explanation(e), [], ok, failed);
      assert xs + [] == xs;
      if e == Ended(Completed) {
        var rest := Body(runs[1..], ok', failed', Latest(runs[0].script, envelope));
        BodyReports(runs[1..], ok', failed', Latest(runs[0].script, envelope));
        ReportsConcat(Relay(ok, failed, xs) + Explanation(e), xs, rest.frames, rest.attempts, ok, failed);
      }
    }
  }

  // ---------- The log of a run task ----------

  /** A task that enters the executor says so first. */
  function Opening(j: Job): seq<Frame> {
    if j.tokenDisposed then [] else [RunStarted]
  }

  /** What runs between the first frame and the last: nothing, for a job that is refused. */
  function Middle(j: Job): Totals {
    if !j.tokenDisposed && Runnable(j) then Outcome(j) else Totals(Crashed, [], [], [], None)
  }

  function Closing(j: Job): seq<Frame> {
    if Middle(j).ending == Crashed then REFUSAL else Terminal(j, Middle(j))
  }

  lemma TaskLogParts(j: Job)
    ensures TaskLog(j) == Opening(j) + Middle(j).frames + Closing(j)
  {
    hide Body, Runnable;
  }

  lemma MiddleReports(j: Job)
    ensures Reports(Middle(j).frames, Middle(j).attempts, 0, 0)
  {
    hide Reports, Body;
    if !j.tokenDisposed && Runnable(j) && InvocationDeadline.Deadline(j.load).Some? {
      BodyReports(Planned(j), 0, 0, None);
    } else {
      NothingReports(0, 0);
    }
  }

  /** Frames that say how a log with totals `ok` and `failed` begins and ends. */
  lemma EdgeFrames(j: Job, ok: nat, failed: nat)
    requires ok == HowMany(Middle(j).attempts, true) && failed == HowMany(Middle(j).attempts, false)
    ensures AttemptsIn(Opening(j)) == [] && Truthful(Opening(j), 0, 0)
    ensures forall k :: Frames(Opening(j), k) == One(k == IsStart && !j.tokenDisposed)
    ensures AttemptsIn(Closing(j)) == [] && Truthful(Closing(j), ok, failed)
    ensures Frames(Closing(j), IsStart) == 0 && Frames(Closing(j), IsFinish) == 1
    ensures Frames(Closing(j), IsProgress) == One(Middle(j).ending == Ended(Completed))
    ensures |Closing(j)| > 0 && Closing(j)[|Closing(j)| - 1].Finished?
  {
    hide Middle, HowMany;
    SingleFrame(RunStarted, 0, 0);
    var c := Closing(j);
    var last := c[|c| - 1];
    SingleFrame(last, ok, failed);
    if |c| == 2 {
      assert c == [c[0]] + [last];
      SingleFrame(c[0], ok, failed);
      PairOfFrames(c[0], last, ok, failed);
    } else {
      assert c == [last];
    }
  }

  lemma PairOfFrames(f: Frame, g: Frame, ok: nat, failed: nat)
    requires !f.Relayed? && !g.Relayed? && Truthful([f], ok, failed) && Truthful([g], ok, failed)
    ensures AttemptsIn([f] + [g]) == [] && Truthful([f] + [g], ok, failed)
    ensures forall k :: Frames([f] + [g], k) == One(OfKind(f, k)) + One(OfKind(g, k))
  {
    hide Truthful;
    SingleFrame(f, ok, failed);
    SingleFrame(g, ok, failed);
    assert HowMany([], true) == 0 && HowMany([], false) == 0;
    TruthfulConcat([f], [g], ok, failed);
    AttemptsOfConcat([f], [g]);
    forall k ensures Frames([f] + [g], k) == One(OfKind(f, k)) + One(OfKind(g, k)) {
      FramesOfConcat([f], [g], k);
    }
  }

  lemma TaskLogFrames(j: Job, k: Kind)
    ensures Frames(TaskLog(j), k) == One(k == IsStart && !j.tokenDisposed) + Frames(Middle(j).frames, k) + Frames(Closing(j), k)
  {
    hide Frames, Opening, Middle, Closing, TaskLog;
    TaskLogParts(j);
    EdgeFrames(j, HowMany(Middle(j).attempts, true), HowMany(Middle(j).attempts, false));
    FramesOfConcat(Opening(j), Middle(j).frames, k);
    FramesOfConcat(Opening(j) + Middle(j).frames, Closing(j), k);
  }

  lemma TaskLogAttempts(j: Job)
    ensures AttemptsIn(TaskLog(j)) == Middle(j).attempts
  {
    hide AttemptsIn, Opening, Middle, Closing, TaskLog, HowMany;
    TaskLogParts(j);
    MiddleReports(j);
    EdgeFrames(j, HowMany(Middle(j).attempts, true), HowMany(Middle(j).attempts, false));
    AttemptsOfConcat(Opening(j), Middle(j).frames);
    AttemptsOfConcat(Opening(j) + Middle(j).frames, Closing(j));
  }

  function LastOf(log: seq<Frame>): Frame
    requires log != []
  {
    log[|log| - 1]
  }

  // ---------- Main results ----------

  /**
   Whatever the config, the testers and the exceptions do, a run task offers one
   run_finished, last. It offers one run_started, first, exactly if it entered
   the executor; a token disposed under it leaves an error and the run_finished.
   */
  lemma ExactlyOneTerminal(j: Job)
    ensures var log := TaskLog(j);
            && log != [] && LastOf(log).Finished? && Frames(log, IsFinish) == 1
            && Frames(log, IsStart) == One(!j.tokenDisposed)
            && (!j.tokenDisposed ==> log[0] == RunStarted)
            && (j.tokenDisposed ==> log == REFUSAL)
  {
    TaskLogParts(j);
    hide Frames, Middle, Closing;
    MiddleReports(j);
    EdgeFrames(j, HowMany(Middle(j).attempts, true), HowMany(Middle(j).attempts, false));
    TaskLogFrames(j, IsStart);
    TaskLogFrames(j, IsFinish);
    hide TaskLog;
  }

  lemma LastIsClosing(j: Job)
    ensures TaskLog(j) != [] && Closing(j) != [] && LastOf(TaskLog(j)) == LastOf(Closing(j))
  {
    hide Opening, Middle, Closing, TaskLog, Frames, Truthful, AttemptsIn;
    TaskLogParts(j);
    EdgeFrames(j, HowMany(Middle(j).attempts, true), HowMany(Middle(j).attempts, false));
  }

  /**
   Conservation: totals in the terminal frame are the attempt frames offered
   before it, by outcome, over all invocations. A completed run always has them.
   */
  lemma TotalsAreTheRelayedAttempts(j: Job)
    ensures TaskLog(j) != []
    ensures var f := LastOf(TaskLog(j));
            && f.Finished?
            && (f.ok.Some? <==> f.failed.Some?)
            && (f.status == Completed ==> f.ok.Some?)
            && (f.ok.Some? ==>
                  && f.ok.value == HowMany(AttemptsIn(TaskLog(j)), true)
                  && f.failed.value == HowMany(AttemptsIn(TaskLog(j)), false))
  {
    hide Middle, TaskLog, AttemptsIn, HowMany;
    LastIsClosing(j);
    TaskLogAttempts(j);
  }

  lemma TruthfulThrice(a: seq<Frame>, b: seq<Frame>, c: seq<Frame>, xs: seq<Attempt>)
    requires Truthful(a, 0, 0) && AttemptsIn(a) == []
    requires Truthful(b, 0, 0) && AttemptsIn(b) == xs
    requires Truthful(c, HowMany(xs, true), HowMany(xs, false))
    ensures Truthful(a + b + c, 0, 0)
  {
    NothingCounted();
    hide Truthful, AttemptsIn, HowMany;
    TruthfulConcat(a, b, 0, 0);
    AttemptsOfConcat(a, b);
    assert [] + xs == xs;
    TruthfulConcat(a + b, c, 0, 0);
  }

  /** Every progress frame states exactly the attempts relayed before it. */
  lemma ProgressIsTruthful(j: Job)
    ensures Truthful(TaskLog(j), 0, 0)
  {
    hide Truthful, Opening, Middle, Closing, TaskLog, AttemptsIn, HowMany;
    var xs := Middle(j).attempts;
    TaskLogParts(j);
    MiddleReports(j);
    EdgeFrames(j, HowMany(xs, true), HowMany(xs, false));
    TruthfulThrice(Opening(j), Middle(j).frames, Closing(j), xs);
  }

  /**
   A completed run reports progress once per ten successes, once per ten failures
   and once at the end. That is the documented "every 10 attempts and a final
   one" if and only if the two remainders together stay below ten.
   */
  lemma ProgressFrameCount(j: Job)
    requires Middle(j).ending == Ended(Completed)
    ensures var ok, failed := HowMany(AttemptsIn(TaskLog(j)), true), HowMany(AttemptsIn(TaskLog(j)), false);
            && Frames(TaskLog(j), IsProgress) == ok / 10 + failed / 10 + 1
            && (Frames(TaskLog(j), IsProgress) == (ok + failed) / 10 + 1 <==> ok % 10 + failed % 10 < 10)
  {
    hide Opening, Middle, Closing, TaskLog, AttemptsIn, HowMany, Frames;
    TaskLogAttempts(j);
    MiddleReports(j);
    EdgeFrames(j, HowMany(Middle(j).attempts, true), HowMany(Middle(j).attempts, false));
    TaskLogFrames(j, IsProgress);
  }

  /** What a completed invocation delivers: its streamed attempts, or if there are none those of its output. */
  function Delivered(s: Script): seq<Attempt> {
    if Read(s.lines, 0).attempts != [] || s.output.Unparseable? then Read(s.lines, 0).attempts
    else Flatten(s.output.attempts)
  }

  function AllDelivered(runs: seq<Invocation>): seq<Attempt> {
    if runs == [] then [] else Delivered(runs[0].script) + AllDelivered(runs[1..])
  }

  lemma CompletedDelivers(s: Script)
    requires EndingOf(s) == Ended(Completed)
    ensures Attempts(s) == Delivered(s)
  {
    hide Read, Flatten, UpToNonObject;
  }

  lemma {:induction false} BodyDelivers(runs: seq<Invocation>, ok: nat, failed: nat, envelope: Option<Envelope>)
    requires Body(runs, ok, failed, envelope).ending == Ended(Completed)
    ensures Body(runs, ok, failed, envelope).attempts == AllDelivered(runs)
    decreases |runs|
  {
    hide Attempts, EndingOf, Delivered, HowMany, Relay, Explanation, Entries, Latest;
    if runs != [] {
      var xs := Attempts(runs[0].script);
      CompletedDelivers(runs[0].script);
      BodyDelivers(runs[1..], ok + HowMany(xs, true), failed + HowMany(xs, false), Latest(runs[0].script, envelope));
    }
  }

  /** Streamed or re-emitted, never both, never neither: a completed run relays each delivered attempt once, in order. */
  lemma CompletedRelaysEverything(j: Job)
    requires Middle(j).ending == Ended(Completed)
    ensures AttemptsIn(TaskLog(j)) == AllDelivered(Planned(j))
  {
    hide TaskLog, AttemptsIn, Body, AllDelivered;
    TaskLogAttempts(j);
    BodyDelivers(Planned(j), 0, 0, None);
  }

  // ---------- The artifact ----------

  lemma {:induction false} ReadYieldsObjects(lines: seq<Line>, bytes: nat)
    ensures AllObjects(Read(lines, bytes).attempts)
    decreases |lines|
  {
    if lines != [] {
      ReadYieldsObjects(lines[1..], bytes);
      ReadYieldsObjects(lines[1..], bytes + lines[0].length + 1);
    }
  }

  lemma {:induction false} UpToNonObjectYieldsObjects(xs: seq<Attempt>)
    ensures AllObjects(UpToNonObject(xs))
  {
    if xs != [] {
      UpToNonObjectYieldsObjects(xs[1..]);
    }
  }

  lemma AttemptsAreObjects(s: Script)
    ensures AllObjects(Attempts(s))
  {
    hide Read, Flatten, UpToNonObject;
    ReadYieldsObjects(s.lines, 0);
    if s.output.Parsed? {
      UpToNonObjectYieldsObjects(Flatten(s.output.attempts));
    }
  }

  lemma {:induction false} OutcomesOfConcat(es: seq<Entry>, fs: seq<Entry>, ok: bool)
    ensures Outcomes(es + fs, ok, None) == Outcomes(es, ok, None) + Outcomes(fs, ok, None)
    decreases |fs|
  {
    if fs == [] {
      assert es + fs == es;
    } else {
      Snoc(es, fs);
      OutcomesOfConcat(es, fs[..|fs| - 1], ok);
    }
  }

  lemma EntriesOfLast(workload: Option<CaseId>, xs: seq<Attempt>, ok: bool)
    requires xs != [] && xs[|xs| - 1].isObject
    ensures var before, a := xs[..|xs| - 1], xs[|xs| - 1];
            && Entries(workload, xs) == Entries(workload, before) + [Entry(CaseOf(workload, a), a)]
            && HowMany(xs, ok) == HowMany(before, ok) + One(a.ok == ok)
  {
  }

  lemma OutcomeOfSingle(e: Entry, ok: bool)
    ensures Outcomes([e], ok, None) == One(e.attempt.ok == ok)
  {
    assert [e][..0] == [];
  }

  /** The builder records every relayed attempt, under one case. */
  lemma {:induction false} EntriesKeepOutcomes(workload: Option<CaseId>, xs: seq<Attempt>, ok: bool)
    requires AllObjects(xs)
    ensures Outcomes(Entries(workload, xs), ok, None) == HowMany(xs, ok)
    decreases |xs|
  {
    if xs == [] {
      NothingRecorded(ok);
    } else {
      hide Outcomes, Entries, HowMany;
      var before, a := xs[..|xs| - 1], xs[|xs| - 1];
      assert a in xs;
      EntriesKeepOutcomes(workload, before, ok);
      EntriesOfLast(workload, xs, ok);
      OutcomeOfSingle(Entry(CaseOf(workload, a), a), ok);
      OutcomesOfConcat(Entries(workload, before), [Entry(CaseOf(workload, a), a)], ok);
    }
  }

  lemma {:induction false} BodyRecordsOutcomes(runs: seq<Invocation>, ok: nat, failed: nat, envelope: Option<Envelope>, o: bool)
    ensures var t := Body(runs, ok, failed, envelope); Outcomes(t.entries, o, None) == HowMany(t.attempts, o)
    decreases |runs|
  {
    hide Attempts, EndingOf, HowMany, Relay, Explanation, Latest, Outcomes, Entries;
    if runs == [] {
      NothingRecorded(o);
    } else {
      var xs := Attempts(runs[0].script);
      var ok', failed', env := ok + HowMany(xs, true), failed + HowMany(xs, false), Latest(runs[0].script, envelope);
      var rest := Body(runs[1..], ok', failed', env);
      AttemptsAreObjects(runs[0].script);
      EntriesKeepOutcomes(runs[0].workload, xs, o);
      BodyRecordsOutcomes(runs[1..], ok', failed', env, o);
      OutcomesOfConcat(Entries(runs[0].workload, xs), rest.entries, o);
      HowManyOfConcat(xs, rest.attempts, o);
    }
  }

  lemma NothingRecorded(o: bool)
    ensures Outcomes([], o, None) == 0 && HowMany([], o) == 0
  {
  }

  /**
   A run has an artifact exactly when it is a completed benchmark, and then the
   successes and failures of its cases add up to the totals in the same frame.
   */
  lemma ArtifactAddsUp(j: Job)
    ensures TaskLog(j) != [] && LastOf(TaskLog(j)).Finished?
    ensures var f := LastOf(TaskLog(j));
            && (f.artifact.Some? <==> f.status == Completed && j.isBenchmark)
            && (f.artifact.Some? ==>
                  && f.ok == Some(Sum(f.artifact.value, (c: Case) => c.successes))
                  && f.failed == Some(Sum(f.artifact.value, (c: Case) => c.failures)))
  {
    hide Body, TaskLog, Tally, HowMany, Outcomes, Runnable;
    LastIsClosing(j);
    var t := Middle(j);
    MiddleRecords(j, true);
    MiddleRecords(j, false);
    CasesAddUp(t.entries);
  }

  lemma MiddleRecords(j: Job, o: bool)
    ensures Outcomes(Middle(j).entries, o, None) == HowMany(Middle(j).attempts, o)
  {
    hide Outcomes, HowMany, Body;
    if !j.tokenDisposed && Runnable(j) && InvocationDeadline.Deadline(j.load).Some? {
      BodyRecordsOutcomes(Planned(j), 0, 0, None, o);
    } else {
      NothingRecorded(o);
    }
  }
}
