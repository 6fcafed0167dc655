/** Jobs that show which endings and frame counts of a run really occur. */
module RunExamples {
  import opened ArtifactBuilder
  import opened Options
  import opened RunExecutor
  import opened RunFrames
  import InvocationDeadline

  /** One stdout line per attempt. */
  function EventLines(xs: seq<Attempt>): seq<Line> {
    if xs == [] then [] else [Line(0, Some(xs[0]))] + EventLines(xs[1..])
  }

  lemma {:induction false} ReadsEventLines(xs: seq<Attempt>, bytes: nat)
    requires AllObjects(xs)
    ensures Read(EventLines(xs), bytes) == Reading(xs, false)
    decreases |xs|
  {
    if xs != [] {
      ObjectsOfTail(xs);
      ReadsEventLines(xs[1..], bytes);
      assert EventLines(xs)[1..] == EventLines(xs[1..]);
      assert xs == [xs[0]] + xs[1..];
    }
  }

  /** One plain invocation and nothing that could be refused. */
  function PlainJob(s: Script): Job {
    Job(false, true, true, Some(s), false, None, true, false, InvocationDeadline.Workload(60, 1000, 1, 1, 1))
  }

  lemma PlainJobRuns(s: Script)
    ensures Runnable(PlainJob(s)) && InvocationDeadline.Deadline(PlainJob(s).load).Some?
    ensures Planned(PlainJob(s)) == [Invocation(None, s)]
  {
  }

  function Streaming(xs: seq<Attempt>): Script {
    Script(true, EventLines(xs), Eof, Exited, Parsed([], None))
  }

  /** Every sequence of attempts is that of some completed run. */
  lemma AnyAttemptsCanComplete(xs: seq<Attempt>)
    requires AllObjects(xs)
    ensures Middle(PlainJob(Streaming(xs))).ending == Ended(Completed)
    ensures AttemptsIn(TaskLog(PlainJob(Streaming(xs)))) == xs
  {
    var s := Streaming(xs);
    var j := PlainJob(s);
    ReadsEventLines(xs, 0);
    PlainJobRuns(s);
    TaskLogAttempts(j);
    hide TaskLog, AttemptsIn, Runnable, Planned, PlainJob;
    StreamingEnds(xs);
    SingleInvocation(s);
  }

  lemma StreamingEnds(xs: seq<Attempt>)
    requires AllObjects(xs)
    ensures EndingOf(Streaming(xs)) == Ended(Completed) && Attempts(Streaming(xs)) == xs
  {
    ReadsEventLines(xs, 0);
    hide Read, EventLines;
  }

  lemma SingleInvocation(s: Script)
    ensures var t := Body([Invocation(None, s)], 0, 0, None);
            t.ending == EndingOf(s) && t.attempts == Attempts(s)
  {
    hide EndingOf, Attempts, HowMany, Relay, Entries, Explanation, Latest;
    var xs := Attempts(s);
    var rest := Body([], HowMany(xs, true), HowMany(xs, false), Latest(s, None));
    assert rest.attempts == [] && xs + [] == xs;
    assert [Invocation(None, s)][1..] == [];
  }

  function Same(ok: bool, n: nat): (xs: seq<Attempt>)
    ensures |xs| == n && AllObjects(xs)
  {
    if n == 0 then [] else Same(ok, n - 1) + [Attempt(true, ok, 0, None)]
  }

  lemma {:induction false} CountSame(ok: bool, n: nat)
    ensures HowMany(Same(ok, n), ok) == n && HowMany(Same(ok, n), !ok) == 0
  {
    if n > 0 {
      CountSame(ok, n - 1);
      assert Same(ok, n)[..n - 1] == Same(ok, n - 1);
    }
  }

  /**
   For any numbers of successes and failures there is a completed run with them;
   whenever their remainders reach ten it reports progress once less than
   documented. Five of each are enough: one progress frame, at the end, not two.
   */
  lemma FewerProgressFrames(oks: nat, fails: nat) returns (j: Job)
    ensures Middle(j).ending == Ended(Completed)
    ensures HowMany(AttemptsIn(TaskLog(j)), true) == oks && HowMany(AttemptsIn(TaskLog(j)), false) == fails
    ensures oks % 10 + fails % 10 >= 10 ==> Frames(TaskLog(j), IsProgress) == (oks + fails) / 10
    ensures oks == fails == 5 ==> Frames(TaskLog(j), IsProgress) == 1
  {
    hide TaskLog, Middle, AttemptsIn, Frames, HowMany;
    var xs := Same(true, oks) + Same(false, fails);
    CountSame(true, oks);
    CountSame(false, fails);
    HowManyOfConcat(Same(true, oks), Same(false, fails), true);
    HowManyOfConcat(Same(true, oks), Same(false, fails), false);
    AnyAttemptsCanComplete(xs);
    j := PlainJob(Streaming(xs));
    ProgressFrameCount(j);
  }

  /** Any run whose only invocation breaks while its output is read throws. */
  lemma BrokenPipeThrows(lines: seq<Line>, exit: Exit, output: Output)
    requires !Read(lines, 0).overflow
    ensures ExecutorThrows(PlainJob(Script(true, lines, BrokenPipe, exit, output)))
  {
    var s := Script(true, lines, BrokenPipe, exit, output);
    PlainJobRuns(s);
    hide Read, Runnable, PlainJob;
    assert Throws([Invocation(None, s)][0].script) && Reaches([Invocation(None, s)], 0);
  }

  /** So does any run that streams nothing and whose output holds an attempt that is not an object. */
  lemma NonObjectThrows(xs: seq<Attempt>)
    requires !AllObjects(xs)
    ensures ExecutorThrows(PlainJob(Script(true, [], Eof, Exited, Parsed([xs], None))))
  {
    var s := Script(true, [], Eof, Exited, Parsed([xs], None));
    PlainJobRuns(s);
    assert Flatten([xs]) == xs + Flatten([]) == xs;
    assert Throws(s);
    hide Throws, Runnable, PlainJob;
    assert Throws([Invocation(None, s)][0].script) && Reaches([Invocation(None, s)], 0);
  }
}
