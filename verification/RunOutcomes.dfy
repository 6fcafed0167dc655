/** What the last frames of an assigned run say, told from the job and its scripts alone. */
module RunOutcomes {
  import opened Counting
  import opened ArtifactBuilder
  import opened Options
  import InvocationDeadline
  import opened RunExecutor
  import opened RunFrames

  // ---------- When a run begins ----------

  /** Nothing is wrong with the config or the machine. */
  predicate Accepted(j: Job) {
    && j.wellFormed && j.hasTarget && j.testerFound
    && (j.apibench ==> j.workloads.Some?)
    && (j.plainModes.Some? || (j.apibench && j.workloads.value != []))
  }

  predicate Starts(j: Job) {
    !j.tokenDisposed && Accepted(j) && InvocationDeadline.Deadline(j.load).Some?
  }

  lemma RunnableIff(j: Job)
    ensures Runnable(j) <==> Accepted(j)
  {
  }

  lemma StartedRuns(j: Job)
    ensures Starts(j) ==> Runnable(j) && Middle(j) == Body(Planned(j), 0, 0, None)
    ensures !Starts(j) ==> Middle(j) == Totals(Crashed, [], [], [], None)
  {
    hide Body, Runnable, InvocationDeadline.Deadline, Accepted;
    RunnableIff(j);
  }

  // ---------- The status ----------

  predicate AllComplete(j: Job)
    requires Accepted(j)
  {
    Reaches(Planned(j), |Planned(j)|)
  }

  /**
   The status law. A run is cancelled exactly if it starts and some invocation is
   cancelled after others completed, completed exactly if it starts and all
   invocations complete, and failed in every other case.
   */
  lemma StatusIff(j: Job)
    ensures TaskLog(j) != [] && LastOf(TaskLog(j)).Finished?
    ensures var status := LastOf(TaskLog(j)).status;
            && (status == Cancelled <==> Starts(j) && SomeCancels(Planned(j)))
            && (status == Completed <==> Starts(j) && AllComplete(j))
            && (status == Failed <==> !(Starts(j) && (SomeCancels(Planned(j)) || AllComplete(j))))
  {
    LastIsClosing(j);
    StartedRuns(j);
    hide TaskLog, Middle, Body, SomeCancels, SomeThrows, Reaches, InvocationDeadline.Deadline, HowMany, Tally;
    if Starts(j) {
      BodyEndsIff(Planned(j), 0, 0, None);
    }
  }

  /** A job that does not start leaves an error and a bare run_finished, and nothing is run for it. */
  lemma RefusalIsBare(j: Job)
    requires !Starts(j)
    ensures var refusal := [Error, Finished(Failed, None, None, None, None)];
            TaskLog(j) == if j.tokenDisposed then refusal else [RunStarted] + refusal
  {
    RunnableIff(j);
    hide Body, Runnable, InvocationDeadline.Deadline;
    if !j.tokenDisposed && Accepted(j) {
      NothingAfterCrash(j);
    }
  }

  /** The totals are reported exactly by a run that starts and neither throws nor is cancelled. */
  lemma TotalsReportedIff(j: Job)
    ensures TaskLog(j) != [] && LastOf(TaskLog(j)).Finished?
    ensures LastOf(TaskLog(j)).ok.Some? <==> Starts(j) && !SomeThrows(Planned(j)) && !SomeCancels(Planned(j))
  {
    LastIsClosing(j);
    StartedRuns(j);
    hide TaskLog, Middle, Body, SomeCancels, SomeThrows, Reaches, InvocationDeadline.Deadline, HowMany, Tally;
    if Starts(j) {
      BodyEndsIff(Planned(j), 0, 0, None);
    }
  }

  // ---------- Errors ----------

  lemma {:induction false} RelayHasNoError(ok: nat, failed: nat, xs: seq<Attempt>)
    ensures Frames(Relay(ok, failed, xs), IsError) == 0
    decreases |xs|
  {
    if xs != [] {
      hide HowMany, Burst, Frames;
      var ok', failed' := ok + HowMany(xs, true), failed + HowMany(xs, false);
      RelayHasNoError(ok, failed, xs[..|xs| - 1]);
      BurstHasNoError(ok', failed', xs[|xs| - 1]);
      FramesOfConcat(Relay(ok, failed, xs[..|xs| - 1]), Burst(ok', failed', xs[|xs| - 1]), IsError);
    }
  }

  lemma BurstHasNoError(ok: nat, failed: nat, a: Attempt)
    ensures Frames(Burst(ok, failed, a), IsError) == 0
  {
    FramesOfConcat([Relayed(a)], [Progress(ok, failed)], IsError);
    SingleFrame(Relayed(a), 0, 0);
    SingleFrame(Progress(ok, failed), 0, 0);
  }

  /** Frames of a stretch that ends as `e`: one error, last, if that is a failure, and otherwise none. */
  predicate Explains(frames: seq<Frame>, e: Ending) {
    if e == Ended(Failed) then Frames(frames, IsError) == 1 && frames != [] && frames[|frames| - 1] == Error
    else Frames(frames, IsError) == 0
  }

  lemma FirstExplains(ok: nat, failed: nat, xs: seq<Attempt>, e: Ending)
    ensures Explains(Relay(ok, failed, xs) + Explanation(e), e)
  {
    RelayHasNoError(ok, failed, xs);
    SingleFrame(Error, 0, 0);
    hide Relay, Frames;
    FramesOfConcat(Relay(ok, failed, xs), Explanation(e), IsError);
    if e != Ended(Failed) {
      assert Relay(ok, failed, xs) + [] == Relay(ok, failed, xs);
    }
  }

  lemma ExplainsConcat(frames: seq<Frame>, more: seq<Frame>, e: Ending)
    requires Explains(frames, Ended(Completed)) && Explains(more, e)
    ensures Explains(frames + more, e)
  {
    hide Frames;
    FramesOfConcat(frames, more, IsError);
  }

  lemma NothingExplains()
    ensures Explains([], Ended(Completed)) && Explains([], Crashed)
  {
  }

  lemma {:induction false} BodyExplains(runs: seq<Invocation>, ok: nat, failed: nat, envelope: Option<Envelope>)
    ensures var t := Body(runs, ok, failed, envelope); Explains(t.frames, t.ending)
    decreases |runs|
  {
    hide *;
    if runs == [] {
      BodyOfNone(ok, failed, envelope);
      NothingExplains();
    } else {
      var s := runs[0].script;
      var xs, e := Attempts(s), EndingOf(s);
      BodyOfFirst(runs, ok, failed, envelope);
      FirstExplains(ok, failed, xs, e);
      if e == Ended(Completed) {
        var rest := Body(runs[1..], ok + HowMany(xs, true), failed + HowMany(xs, false), Latest(s, envelope));
        BodyExplains(runs[1..], ok + HowMany(xs, true), failed + HowMany(xs, false), Latest(s, envelope));
        ExplainsConcat(Relay(ok, failed, xs) + Explanation(e), rest.frames, rest.ending);
      }
    }
  }

  /** The frame before the run_finished. */
  function BeforeLast(log: seq<Frame>): Frame
    requires |log| >= 2
  {
    log[|log| - 2]
  }

  lemma MiddleExplains(j: Job)
    ensures Explains(Middle(j).frames, Middle(j).ending)
  {
    StartedRuns(j);
    hide Middle, Body, Explains, Starts;
    if Starts(j) {
      BodyExplains(Planned(j), 0, 0, None);
    } else {
      NothingExplains();
    }
  }

  lemma ClosingErrors(j: Job)
    ensures |Closing(j)| > 0 && LastOf(Closing(j)).Finished?
    ensures Frames(Closing(j), IsError) == One(Middle(j).ending == Crashed)
    ensures LastOf(Closing(j)).status == Failed <==> Middle(j).ending == Crashed || Middle(j).ending == Ended(Failed)
    ensures Middle(j).ending == Crashed ==> |Closing(j)| >= 2 && BeforeLast(Closing(j)) == Error
    ensures Middle(j).ending == Ended(Failed) ==> |Closing(j)| == 1
  {
    hide Middle, HowMany, Tally;
    var c := Closing(j);
    SingleFrame(LastOf(c), 0, 0);
    if |c| == 2 {
      assert c == [c[0]] + [c[1]];
      SingleFrame(c[0], 0, 0);
      FramesOfConcat([c[0]], [c[1]], IsError);
    } else {
      assert c == [c[0]];
    }
  }

  /** A failed run explains itself once, right before its end; no other run sends an error. */
  lemma FailureIsExplainedOnce(j: Job)
    ensures |TaskLog(j)| > 0 && LastOf(TaskLog(j)).Finished?
    ensures Frames(TaskLog(j), IsError) == One(LastOf(TaskLog(j)).status == Failed)
    ensures LastOf(TaskLog(j)).status == Failed ==> |TaskLog(j)| >= 2 && BeforeLast(TaskLog(j)) == Error
  {
    LastIsClosing(j);
    TaskLogFrames(j, IsError);
    TaskLogParts(j);
    MiddleExplains(j);
    ClosingErrors(j);
    hide TaskLog, Middle, Opening, Closing, Frames;
  }

  /** A completed run reports its progress once more, right before its end. */
  lemma CompletionIsReported(j: Job)
    requires Starts(j) && AllComplete(j)
    ensures |TaskLog(j)| >= 2 && BeforeLast(TaskLog(j)).Progress?
  {
    StartedRuns(j);
    hide Body, Reaches, InvocationDeadline.Deadline, HowMany, Tally, Runnable;
    BodyEndsIff(Planned(j), 0, 0, None);
    TaskLogParts(j);
    hide TaskLog, Middle, Opening;
  }

  // ---------- The envelope ----------

  predicate HasEnvelope(s: Script) {
    s.output.Parsed? && s.output.envelope.Some?
  }

  predicate NoEnvelope(runs: seq<Invocation>) {
    forall k :: 0 <= k < |runs| ==> !HasEnvelope(runs[k].script)
  }

  /** The i-th invocation's output holds envelope `e`, and no later output holds any. */
  predicate LatestAt(runs: seq<Invocation>, i: nat, e: Envelope) {
    && i < |runs| && HasEnvelope(runs[i].script) && runs[i].script.output.envelope == Some(e)
    && NoEnvelope(runs[i + 1..])
  }

  /** After a completed run of invocations that began with `envelope`, it holds `e`. */
  ghost predicate Carries(runs: seq<Invocation>, envelope: Option<Envelope>, e: Envelope) {
    (exists i: nat :: LatestAt(runs, i, e)) || (envelope == Some(e) && NoEnvelope(runs))
  }

  lemma CarriesStep(runs: seq<Invocation>, envelope: Option<Envelope>, e: Envelope)
    requires runs != []
    ensures Carries(runs, envelope, e) <==> Carries(runs[1..], Latest(runs[0].script, envelope), e)
  {
    hide NoEnvelope;
    LatestSplits(runs, e);
    NoEnvelopeSplits(runs);
  }

  lemma CarriesNone(envelope: Option<Envelope>, e: Envelope)
    ensures Carries([], envelope, e) <==> envelope == Some(e)
  {
  }

  lemma {:induction false} BodyEnvelope(runs: seq<Invocation>, ok: nat, failed: nat, envelope: Option<Envelope>, e: Envelope)
    requires Body(runs, ok, failed, envelope).ending == Ended(Completed)
    ensures Body(runs, ok, failed, envelope).envelope == Some(e) <==> Carries(runs, envelope, e)
    decreases |runs|
  {
    hide *;
    if runs == [] {
      BodyOfNone(ok, failed, envelope);
      CarriesNone(envelope, e);
    } else {
      var s := runs[0].script;
      var xs := Attempts(s);
      BodyOfFirst(runs, ok, failed, envelope);
      BodyEnvelope(runs[1..], ok + HowMany(xs, true), failed + HowMany(xs, false), Latest(s, envelope), e);
      CarriesStep(runs, envelope, e);
    }
  }

  lemma NoEnvelopeSplits(runs: seq<Invocation>)
    requires runs != []
    ensures NoEnvelope(runs) <==> !HasEnvelope(runs[0].script) && NoEnvelope(runs[1..])
  {
    hide HasEnvelope;
    assert forall k :: 0 < k < |runs| ==> runs[k] == runs[1..][k - 1];
  }

  lemma LatestSplits(runs: seq<Invocation>, e: Envelope)
    requires runs != []
    ensures (exists i: nat :: LatestAt(runs, i, e)) <==> (exists i: nat :: LatestAt(runs[1..], i, e)) || LatestAt(runs, 0, e)
  {
    hide HasEnvelope, NoEnvelope;
    if i: nat :| LatestAt(runs, i, e) && i > 0 {
      assert runs[1..][i..] == runs[i + 1..];
      assert LatestAt(runs[1..], i - 1, e);
    }
    if i: nat :| LatestAt(runs[1..], i, e) {
      assert runs[1..][i + 1..] == runs[i + 2..];
      assert LatestAt(runs, i + 1, e);
    }
  }

  /** A completed run carries the envelope of the last output that had one; no other run carries any. */
  lemma EnvelopeIsTheLatest(j: Job, e: Envelope)
    ensures TaskLog(j) != [] && LastOf(TaskLog(j)).Finished?
    ensures LastOf(TaskLog(j)).envelope == Some(e) <==>
            Starts(j) && AllComplete(j) && exists i: nat :: LatestAt(Planned(j), i, e)
  {
    LastIsClosing(j);
    StartedRuns(j);
    hide TaskLog, Middle, Body, LatestAt, Reaches, InvocationDeadline.Deadline, HowMany, Tally;
    if Starts(j) {
      BodyEndsIff(Planned(j), 0, 0, None);
      if AllComplete(j) {
        BodyEnvelope(Planned(j), 0, 0, None, e);
      }
    }
  }
}
