/**
 One assigned run in the agent (src/Networker.Agent/RunExecutor.cs and the run
 task of AgentWorker.cs): tester invocations whose output is relayed as frames,
 ending in one terminal frame. What the outside world does is a script: the
 lines a tester prints, how its output ends, what its final JSON holds.
 */
module RunExecutor {
  import opened ArtifactBuilder
  import opened Options
  import InvocationDeadline

  const MAX_STDOUT := 128 * 1024 * 1024

  type Envelope = nat

  datatype Status = Completed | Failed | Cancelled

  type Artifact = map<CaseId, Case>

  datatype Frame =
    | RunStarted
    | Relayed(attempt: Attempt)
    | Progress(okSoFar: nat, failedSoFar: nat)
    | Error
    | Finished(status: Status, ok: Option<nat>, failed: Option<nat>, artifact: Option<Artifact>, envelope: Option<Envelope>)

  // ---------- What one tester invocation may do ----------

  /** A stdout line; `event` is its attempt member if it parses as an attempt event. */
  datatype Line = Line(length: nat, event: Option<Attempt>)

  predicate IsEvent(l: Line) {
    l.event.Some? && l.event.value.isObject
  }

  /** How the stdout loop stops when the size cap does not stop it. */
  datatype End = Eof | CancelledReading | DeadlineReading | BrokenPipe

  datatype Exit = Exited | CancelledWaiting | DeadlineWaiting

  /** The final JSON: one list of attempts per run element that has one. */
  datatype Output = Unparseable | Parsed(attempts: seq<seq<Attempt>>, envelope: Option<Envelope>)

  datatype Script = Script(spawns: bool, lines: seq<Line>, end: End, exit: Exit, output: Output)

  /** `Crashed`: an exception leaves the executor and reaches the run task. */
  datatype Ending = Ended(status: Status) | Crashed

  // ---------- What one invocation relays ----------

  datatype Reading = Reading(attempts: seq<Attempt>, overflow: bool)

  /** Events are relayed; every other line counts towards the size cap. */
  function Read(lines: seq<Line>, bytes: nat): Reading {
    if lines == [] then Reading([], false)
    else if IsEvent(lines[0]) then
      var rest := Read(lines[1..], bytes);
      Reading([lines[0].event.value] + rest.attempts, rest.overflow)
    else if bytes + lines[0].length + 1 > MAX_STDOUT then Reading([], true)
    else Read(lines[1..], bytes + lines[0].length + 1)
  }

  function Flatten(lists: seq<seq<Attempt>>): seq<Attempt> {
    if lists == [] then [] else lists[0] + Flatten(lists[1..])
  }

  /** Looking up a property of an attempt that is not an object throws. */
  function UpToNonObject(xs: seq<Attempt>): seq<Attempt> {
    if xs == [] || !xs[0].isObject then [] else [xs[0]] + UpToNonObject(xs[1..])
  }

  /** The invocation got as far as a parsed artifact. */
  predicate ReachesOutput(s: Script) {
    s.spawns && !Read(s.lines, 0).overflow && s.end == Eof && s.exit == Exited && s.output.Parsed?
  }

  predicate ReemitsFromOutput(s: Script) {
    ReachesOutput(s) && Read(s.lines, 0).attempts == []
  }

  function Attempts(s: Script): seq<Attempt> {
    if !s.spawns then []
    else if ReemitsFromOutput(s) then UpToNonObject(Flatten(s.output.attempts))
    else Read(s.lines, 0).attempts
  }

  function EndingOf(s: Script): Ending {
    if !s.spawns || Read(s.lines, 0).overflow then Ended(Failed)
    else match s.end
      case CancelledReading => Ended(Cancelled)
      case DeadlineReading => Ended(Failed)
      case BrokenPipe => Crashed
      case Eof =>
        match s.exit
        case CancelledWaiting => Ended(Cancelled)
        case DeadlineWaiting => Ended(Failed)
        case Exited =>
          if s.output.Unparseable? then Ended(Failed)
          else if ReemitsFromOutput(s) && Attempts(s) != Flatten(s.output.attempts) then Crashed
          else Ended(Completed)
  }

  /** Only a failed invocation explains itself. */
  function Explanation(e: Ending): seq<Frame> {
    if e == Ended(Failed) then [Error] else []
  }

  // ---------- The frames of a sequence of attempts ----------

  function HowMany(xs: seq<Attempt>, ok: bool): nat {
    if xs == [] then 0 else HowMany(xs[..|xs| - 1], ok) + if xs[|xs| - 1].ok == ok then 1 else 0
  }

  /** Each attempt, and a progress frame when its own outcome's total is a multiple of ten. */
  function Relay(ok: nat, failed: nat, xs: seq<Attempt>): seq<Frame> {
    if xs == [] then []
    else Relay(ok, failed, xs[..|xs| - 1]) + Burst(ok + HowMany(xs, true), failed + HowMany(xs, false), xs[|xs| - 1])
  }

  function Burst(ok: nat, failed: nat, a: Attempt): seq<Frame> {
    [Relayed(a)] + if (if a.ok then ok else failed) % 10 == 0 then [Progress(ok, failed)] else []
  }

  function Entries(workload: Option<CaseId>, xs: seq<Attempt>): seq<Entry> {
    if xs == [] then []
    else
      var a := xs[|xs| - 1];
      Entries(workload, xs[..|xs| - 1]) + EntryOf(workload, a)
  }

  function EntryOf(workload: Option<CaseId>, a: Attempt): seq<Entry> {
    if a.isObject then [Entry(CaseOf(workload, a), a)] else []
  }

  // ---------- A whole run ----------

  /** One planned invocation: a workload, or None for the plain modes, and what happens. */
  datatype Invocation = Invocation(workload: Option<CaseId>, script: Script)

  datatype Totals = Totals(ending: Ending, frames: seq<Frame>, attempts: seq<Attempt>, entries: seq<Entry>,
                           envelope: Option<Envelope>)

  /** Everything before the terminal frames: invocations run until one does not complete. */
  function Body(runs: seq<Invocation>, ok: nat, failed: nat, envelope: Option<Envelope>): Totals {
    if runs == [] then Totals(Ended(Completed), [], [], [], envelope)
    else
      var s := runs[0].script;
      var xs, e := Attempts(s), EndingOf(s);
      var frames := Relay(ok, failed, xs) + Explanation(e);
      var entries := Entries(runs[0].workload, xs);
      if e != Ended(Completed) then Totals(e, frames, xs, entries, envelope)
      else
        var rest := Body(runs[1..], ok + HowMany(xs, true), failed + HowMany(xs, false), Latest(s, envelope));
        Totals(rest.ending, frames + rest.frames, xs + rest.attempts, entries + rest.entries, rest.envelope)
  }

  function Latest(s: Script, envelope: Option<Envelope>): Option<Envelope> {
    if s.output.Parsed? && s.output.envelope.Some? then s.output.envelope else envelope
  }

  /**
   What the executor is given: the config as it parses, and the machine it runs
   on. `tokenDisposed`: a cancellation disposed the run's token source after the
   slot was granted and before the run task read the token, which then throws.
   */
  datatype Job = Job(
    tokenDisposed: bool, wellFormed: bool, hasTarget: bool, plainModes: Option<Script>, apibench: bool,
    workloads: Option<seq<Invocation>>, testerFound: bool, isBenchmark: bool, load: InvocationDeadline.Workload)

  function Planned(j: Job): seq<Invocation>
    requires j.apibench ==> j.workloads.Some?
  {
    (if j.plainModes.Some? then [Invocation(None, j.plainModes.value)] else [])
    + if j.apibench then j.workloads.value else []
  }

  predicate Runnable(j: Job) {
    && j.wellFormed && j.hasTarget
    && (j.apibench ==> j.workloads.Some?)
    && Planned(j) != []
    && j.testerFound
  }

  /** Computing the deadline may throw before anything runs. */
  function Outcome(j: Job): Totals
    requires Runnable(j)
  {
    if InvocationDeadline.Deadline(j.load).None? then Totals(Crashed, [], [], [], None)
    else Body(Planned(j), 0, 0, None)
  }

  function Terminal(j: Job, t: Totals): seq<Frame> {
    var ok, failed := HowMany(t.attempts, true), HowMany(t.attempts, false);
    match t.ending
    case Crashed => []
    case Ended(Cancelled) => [Finished(Cancelled, None, None, None, None)]
    case Ended(Failed) => [Finished(Failed, Some(ok), Some(failed), None, None)]
    case Ended(Completed) =>
      [Progress(ok, failed),
       Finished(Completed, Some(ok), Some(failed), if j.isBenchmark then Some(Tally(t.entries)) else None, t.envelope)]
  }

  const REFUSAL := [Error, Finished(Failed, None, None, None, None)]

  /** The frames the executor offers for a job. */
  function Executed(j: Job): seq<Frame> {
    [RunStarted] +
    if !Runnable(j) then REFUSAL
    else
      var t := Outcome(j);
      t.frames + Terminal(j, t)
  }

  /** The frames of the run task around it: without its token it never enters the executor. */
  function TaskLog(j: Job): seq<Frame> {
    if j.tokenDisposed then REFUSAL
    else Executed(j) + if Runnable(j) && Outcome(j).ending == Crashed then REFUSAL else []
  }

  // ---------- When the executor throws ----------

  predicate HasEvent(lines: seq<Line>) {
    exists i :: 0 <= i < |lines| && IsEvent(lines[i])
  }

  predicate AllObjects(xs: seq<Attempt>) {
    forall i :: 0 <= i < |xs| ==> xs[i].isObject
  }

  /** Reading the output fails, or an attempt to be re-emitted is not an object. */
  predicate Throws(s: Script) {
    && s.spawns && !Read(s.lines, 0).overflow
    && (s.end == BrokenPipe
        || (s.end == Eof && s.exit == Exited && s.output.Parsed? && !HasEvent(s.lines)
            && !AllObjects(Flatten(s.output.attempts))))
  }

  /** The output is read to its end and parses, and what is to be re-emitted can be. */
  predicate Completes(s: Script) {
    && s.spawns && !Read(s.lines, 0).overflow
    && s.end == Eof && s.exit == Exited && s.output.Parsed?
    && (HasEvent(s.lines) || AllObjects(Flatten(s.output.attempts)))
  }

  lemma {:induction false} ReadFindsEvents(lines: seq<Line>, bytes: nat)
    requires !Read(lines, bytes).overflow
    ensures Read(lines, bytes).attempts != [] <==> HasEvent(lines)
    decreases |lines|
  {
    if lines != [] {
      if IsEvent(lines[0]) {
        assert HasEvent(lines);
      } else {
        ReadFindsEvents(lines[1..], bytes + lines[0].length + 1);
        EventIsLater(lines);
      }
    }
  }

  lemma EventIsLater(lines: seq<Line>)
    requires lines != [] && !IsEvent(lines[0])
    ensures HasEvent(lines) <==> HasEvent(lines[1..])
  {
    if i :| 0 <= i < |lines| && IsEvent(lines[i]) {
      assert lines[1..][i - 1] == lines[i];
    }
    if i :| 0 <= i < |lines[1..]| && IsEvent(lines[1..][i]) {
      assert lines[i + 1] == lines[1..][i];
    }
  }

  lemma {:induction false} NothingCutIffAllObjects(xs: seq<Attempt>)
    ensures UpToNonObject(xs) == xs <==> AllObjects(xs)
    decreases |xs|
  {
    if xs != [] && xs[0].isObject {
      NothingCutIffAllObjects(xs[1..]);
      assert AllObjects(xs) <==> AllObjects(xs[1..]) by { ObjectsOfTail(xs); }
      assert xs == [xs[0]] + xs[1..];
    }
  }

  lemma ObjectsOfTail(xs: seq<Attempt>)
    requires xs != [] && xs[0].isObject
    ensures AllObjects(xs) <==> AllObjects(xs[1..])
  {
    if AllObjects(xs[1..]) {
      forall i | 0 <= i < |xs|
        ensures xs[i].isObject
      {
        assert i > 0 ==> xs[1..][i - 1] == xs[i];
      }
    }
  }

  /** The token fires while the output is read, or while the process is waited for. */
  predicate Cancels(s: Script) {
    && s.spawns && !Read(s.lines, 0).overflow
    && (s.end == CancelledReading || (s.end == Eof && s.exit == CancelledWaiting))
  }

  /** One invocation throws, is cancelled, or completes, exactly under these guards. */
  lemma EndingIff(s: Script)
    ensures EndingOf(s) == Crashed <==> Throws(s)
    ensures EndingOf(s) == Ended(Cancelled) <==> Cancels(s)
    ensures EndingOf(s) == Ended(Completed) <==> Completes(s)
  {
    hide Read, Flatten, UpToNonObject, HasEvent, AllObjects;
    if !Read(s.lines, 0).overflow {
      ReadFindsEvents(s.lines, 0);
    }
    if s.output.Parsed? {
      NothingCutIffAllObjects(Flatten(s.output.attempts));
    }
  }

  /** Every invocation before the i-th completes. */
  predicate Reaches(runs: seq<Invocation>, i: nat) {
    i <= |runs| && forall k :: 0 <= k < i ==> Completes(runs[k].script)
  }

  predicate SomeThrows(runs: seq<Invocation>) {
    exists i :: 0 <= i < |runs| && Throws(runs[i].script) && Reaches(runs, i)
  }

  predicate SomeCancels(runs: seq<Invocation>) {
    exists i :: 0 <= i < |runs| && Cancels(runs[i].script) && Reaches(runs, i)
  }

  /** The first invocation that does not complete; past the last if there is none. */
  function Stop(runs: seq<Invocation>): (i: nat)
    ensures Reaches(runs, i)
    ensures i < |runs| ==> !Completes(runs[i].script)
  {
    if runs == [] || !Completes(runs[0].script) then 0
    else
      var i := Stop(runs[1..]);
      ReachesLater(runs, i);
      i + 1
  }

  lemma ReachesLater(runs: seq<Invocation>, i: nat)
    requires runs != [] && Completes(runs[0].script) && Reaches(runs[1..], i)
    ensures Reaches(runs, i + 1)
  {
    hide Completes;
    forall k | 0 <= k < i + 1
      ensures Completes(runs[k].script)
    {
      assert k > 0 ==> runs[1..][k - 1] == runs[k];
    }
  }

  /** The first invocation and, if it completes, what follows it. */
  lemma BodyOfFirst(runs: seq<Invocation>, ok: nat, failed: nat, envelope: Option<Envelope>)
    requires runs != []
    ensures var s := runs[0].script;
            var xs, e := Attempts(s), EndingOf(s);
            var frames, entries := Relay(ok, failed, xs) + Explanation(e), Entries(runs[0].workload, xs);
            var rest := Body(runs[1..], ok + HowMany(xs, true), failed + HowMany(xs, false), Latest(s, envelope));
            Body(runs, ok, failed, envelope) ==
              if e != Ended(Completed) then Totals(e, frames, xs, entries, envelope)
              else Totals(rest.ending, frames + rest.frames, xs + rest.attempts, entries + rest.entries, rest.envelope)
  {
    hide Attempts, EndingOf, HowMany, Relay, Entries, Latest, Explanation;
  }

  lemma BodyOfNone(ok: nat, failed: nat, envelope: Option<Envelope>)
    ensures Body([], ok, failed, envelope) == Totals(Ended(Completed), [], [], [], envelope)
  {
  }

  lemma StopOfFirst(runs: seq<Invocation>)
    requires runs != []
    ensures Stop(runs) == if Completes(runs[0].script) then Stop(runs[1..]) + 1 else 0
    ensures Stop(runs[1..]) <= |runs| - 1
  {
  }

  /** A run ends as its first invocation that does not complete. */
  lemma {:induction false} BodyEndsAtStop(runs: seq<Invocation>, ok: nat, failed: nat, envelope: Option<Envelope>)
    ensures var i := Stop(runs);
            Body(runs, ok, failed, envelope).ending == if i >= |runs| then Ended(Completed) else EndingOf(runs[i].script)
    decreases |runs|
  {
    hide *;
    if runs == [] {
      BodyOfNone(ok, failed, envelope);
    } else {
      var s := runs[0].script;
      BodyOfFirst(runs, ok, failed, envelope);
      EndingIff(s);
      StopOfFirst(runs);
      BodyEndsAtStop(runs[1..], ok + HowMany(Attempts(s), true), failed + HowMany(Attempts(s), false), Latest(s, envelope));
    }
  }

  lemma OneGuardOnly(s: Script)
    ensures !(Throws(s) && Cancels(s)) && !(Completes(s) && (Throws(s) || Cancels(s)))
  {
    hide Read, HasEvent, AllObjects;
  }

  /** Only the first invocation that does not complete can throw or be cancelled. */
  lemma StopDecides(runs: seq<Invocation>)
    ensures var i := Stop(runs);
            && (SomeThrows(runs) <==> i < |runs| && Throws(runs[i].script))
            && (SomeCancels(runs) <==> i < |runs| && Cancels(runs[i].script))
            && (Reaches(runs, |runs|) <==> i == |runs|)
  {
    hide Throws, Cancels, Completes, Stop;
    forall i | 0 <= i < |runs| && (Throws(runs[i].script) || Cancels(runs[i].script))
      ensures !Completes(runs[i].script)
    {
      OneGuardOnly(runs[i].script);
    }
  }

  /**
   A run of invocations throws, or is cancelled, exactly if some invocation does
   (is) and every one before it completes; it completes exactly if all do.
   */
  lemma BodyEndsIff(runs: seq<Invocation>, ok: nat, failed: nat, envelope: Option<Envelope>)
    ensures var e := Body(runs, ok, failed, envelope).ending;
            && (e == Crashed <==> SomeThrows(runs))
            && (e == Ended(Cancelled) <==> SomeCancels(runs))
            && (e == Ended(Completed) <==> Reaches(runs, |runs|))
  {
    hide Body, SomeThrows, SomeCancels, Throws, Cancels, Completes, EndingOf;
    assert Stop(runs) <= |runs|;
    BodyEndsAtStop(runs, ok, failed, envelope);
    StopDecides(runs);
    if Stop(runs) < |runs| {
      EndingIff(runs[Stop(runs)].script);
    }
  }

  /** The deadline cannot be represented, or an invocation throws after others completed. */
  predicate ExecutorThrows(j: Job) {
    && Runnable(j)
    && (InvocationDeadline.Deadline(j.load).None? || SomeThrows(Planned(j)))
  }

  /** The executor throws exactly in these cases. */
  lemma ExecutorThrowsIff(j: Job)
    ensures Runnable(j) && Outcome(j).ending == Crashed <==> ExecutorThrows(j)
  {
    hide Body, SomeThrows, InvocationDeadline.Deadline;
    if Runnable(j) {
      BodyEndsIff(Planned(j), 0, 0, None);
    }
  }

  // ---------- The executor itself ----------

  class Sink {
    var offered: seq<Frame>

    constructor ()
      ensures offered == []
    {
      offered := [];
    }

    method Send(f: Frame)
      modifies this
      ensures offered == old(offered) + [f]
    {
      offered := offered + [f];
    }
  }

  /** Counters, frames and recorded entries after relaying `xs`, from where they were before. */
  datatype Tracked = Tracked(ok: nat, failed: nat, frames: seq<Frame>, entries: seq<Entry>)

  function After(workload: Option<CaseId>, start: Tracked, xs: seq<Attempt>): Tracked {
    Tracked(start.ok + HowMany(xs, true), start.failed + HowMany(xs, false),
            start.frames + Relay(start.ok, start.failed, xs), start.entries + Entries(workload, xs))
  }

  function AfterOne(workload: Option<CaseId>, t: Tracked, a: Attempt): Tracked {
    var ok, failed := t.ok + (if a.ok then 1 else 0), t.failed + if a.ok then 0 else 1;
    Tracked(ok, failed, t.frames + Burst(ok, failed, a), t.entries + EntryOf(workload, a))
  }

  lemma CountedAppend(xs: seq<Attempt>, a: Attempt, ok: bool)
    ensures HowMany(xs + [a], ok) == HowMany(xs, ok) + if a.ok == ok then 1 else 0
  {
    assert (xs + [a])[..|xs|] == xs;
  }

  lemma RelayedAppend(ok: nat, failed: nat, xs: seq<Attempt>, a: Attempt)
    ensures Relay(ok, failed, xs + [a])
         == Relay(ok, failed, xs) + Burst(ok + HowMany(xs + [a], true), failed + HowMany(xs + [a], false), a)
  {
    hide HowMany, Burst;
    assert (xs + [a])[..|xs|] == xs;
  }

  lemma EntriesAppend(workload: Option<CaseId>, xs: seq<Attempt>, a: Attempt)
    ensures Entries(workload, xs + [a]) == Entries(workload, xs) + EntryOf(workload, a)
  {
    hide EntryOf;
    assert (xs + [a])[..|xs|] == xs;
  }

  lemma AfterAppend(workload: Option<CaseId>, start: Tracked, xs: seq<Attempt>, a: Attempt)
    ensures After(workload, start, xs + [a]) == AfterOne(workload, After(workload, start, xs), a)
  {
    hide HowMany, Relay, Burst, Entries, EntryOf;
    CountedAppend(xs, a, true);
    CountedAppend(xs, a, false);
    RelayedAppend(start.ok, start.failed, xs, a);
    EntriesAppend(workload, xs, a);
  }

  lemma AfterNothing(workload: Option<CaseId>, start: Tracked)
    ensures After(workload, start, []) == start
  {
  }

  /** The builder, if the run has one, has recorded `entries`. */
  ghost predicate Holds(builder: Builder?, entries: seq<Entry>)
    reads builder
  {
    builder != null ==> builder.Valid() && builder.entries == entries
  }

  /** One attempt: count it, record it for the artifact, relay it, report progress. */
  method RelayOne(workload: Option<CaseId>, a: Attempt, ghost t: Tracked, ok0: nat, failed0: nat, sink: Sink, builder: Builder?)
    returns (ok: nat, failed: nat)
    requires t.ok == ok0 && t.failed == failed0 && t.frames == sink.offered && Holds(builder, t.entries)
    modifies sink, builder
    ensures var u := AfterOne(workload, t, a);
            ok == u.ok && failed == u.failed && sink.offered == u.frames && Holds(builder, u.entries)
  {
    hide Tally;
    ok, failed := ok0, failed0;
    var total;
    if a.ok {
      ok := ok + 1;
      total := ok;
    } else {
      failed := failed + 1;
      total := failed;
    }
    if builder != null {
      builder.Record(workload, a);
    }
    sink.Send(Relayed(a));
    if total % 10 == 0 {
      sink.Send(Progress(ok, failed));
    }
  }

  /** With `i` lines behind it, `done` relayed and `bytes` kept, the loop is on course. */
  ghost predicate OnCourse(lines: seq<Line>, i: nat, bytes: nat, done: seq<Attempt>) {
    && i <= |lines|
    && Read(lines, 0).attempts == done + Read(lines[i..], bytes).attempts
    && Read(lines, 0).overflow == Read(lines[i..], bytes).overflow
  }

  lemma OnCourseAtStart(lines: seq<Line>)
    ensures OnCourse(lines, 0, 0, [])
  {
    assert lines[0..] == lines;
  }

  lemma ReadFrom(lines: seq<Line>, i: nat, bytes: nat)
    requires i < |lines|
    ensures Read(lines[i..], bytes) ==
      if IsEvent(lines[i]) then
        var rest := Read(lines[i + 1..], bytes);
        Reading([lines[i].event.value] + rest.attempts, rest.overflow)
      else if bytes + lines[i].length + 1 > MAX_STDOUT then Reading([], true)
      else Read(lines[i + 1..], bytes + lines[i].length + 1)
  {
    assert lines[i..][1..] == lines[i + 1..];
  }

  lemma Regroup<T>(xs: seq<T>, y: T, zs: seq<T>)
    ensures xs + ([y] + zs) == xs + [y] + zs
  {
  }

  lemma OnCourseNext(lines: seq<Line>, i: nat, bytes: nat, done: seq<Attempt>)
    requires OnCourse(lines, i, bytes, done) && i < |lines|
    ensures IsEvent(lines[i]) ==> OnCourse(lines, i + 1, bytes, done + [lines[i].event.value])
    ensures !IsEvent(lines[i]) && bytes + lines[i].length + 1 <= MAX_STDOUT ==>
              OnCourse(lines, i + 1, bytes + lines[i].length + 1, done)
    ensures !IsEvent(lines[i]) && bytes + lines[i].length + 1 > MAX_STDOUT ==>
              Read(lines, 0) == Reading(done, true)
  {
    hide Read;
    ReadFrom(lines, i, bytes);
    if IsEvent(lines[i]) {
      Regroup(done, lines[i].event.value, Read(lines[i + 1..], bytes).attempts);
    }
  }

  lemma OnCourseAtEnd(lines: seq<Line>, bytes: nat, done: seq<Attempt>)
    requires OnCourse(lines, |lines|, bytes, done)
    ensures Read(lines, 0) == Reading(done, false)
  {
  }

  /** The stdout loop. */
  method Stream(workload: Option<CaseId>, lines: seq<Line>, ghost start: Tracked, ok0: nat, failed0: nat, sink: Sink, builder: Builder?)
    returns (ok: nat, failed: nat, streamed: nat, overflow: bool)
    requires start.ok == ok0 && start.failed == failed0 && start.frames == sink.offered && Holds(builder, start.entries)
    modifies sink, builder
    ensures overflow == Read(lines, 0).overflow && streamed == |Read(lines, 0).attempts|
    ensures var t := After(workload, start, Read(lines, 0).attempts);
            ok == t.ok && failed == t.failed && sink.offered == t.frames && Holds(builder, t.entries)
  {
    ghost var done: seq<Attempt> := [];
    ok, failed, streamed, overflow := ok0, failed0, 0, false;
    var bytes: nat, i := 0, 0;
    hide Read, After, AfterOne, Holds, OnCourse, IsEvent;
    AfterNothing(workload, start);
    OnCourseAtStart(lines);
    ghost var t := start;
    while i < |lines|
      invariant 0 <= i <= |lines| && streamed == |done|
      invariant OnCourse(lines, i, bytes, done)
      invariant t == After(workload, start, done)
      invariant ok == t.ok && failed == t.failed && sink.offered == t.frames && Holds(builder, t.entries)
    {
      OnCourseNext(lines, i, bytes, done);
      if IsEvent(lines[i]) {
        var a := lines[i].event.value;
        AfterAppend(workload, start, done, a);
        ok, failed := RelayOne(workload, a, t, ok, failed, sink, builder);
        done, t := done + [a], AfterOne(workload, t, a);
        streamed := streamed + 1;
      } else {
        bytes := bytes + lines[i].length + 1;
        if bytes > MAX_STDOUT {
          overflow := true;
          return;
        }
      }
      i := i + 1;
    }
    OnCourseAtEnd(lines, bytes, done);
  }

  lemma UpToNonObjectFrom(xs: seq<Attempt>, i: nat)
    requires i < |xs|
    ensures UpToNonObject(xs[i..]) == if xs[i].isObject then [xs[i]] + UpToNonObject(xs[i + 1..]) else []
  {
    assert xs[i..][1..] == xs[i + 1..];
  }

  lemma UpToNonObjectNext(xs: seq<Attempt>, i: nat)
    requires i < |xs| && UpToNonObject(xs) == xs[..i] + UpToNonObject(xs[i..])
    ensures xs[i].isObject ==> UpToNonObject(xs) == xs[..i + 1] + UpToNonObject(xs[i + 1..])
    ensures !xs[i].isObject ==> UpToNonObject(xs) == xs[..i] && |xs[..i]| < |xs|
  {
    hide UpToNonObject;
    UpToNonObjectFrom(xs, i);
    assert xs[..i + 1] == xs[..i] + [xs[i]];
  }

  /** The fallback: attempts of the parsed artifact, until one is not an object. */
  method Reemit(workload: Option<CaseId>, xs: seq<Attempt>, ghost start: Tracked, ok0: nat, failed0: nat, sink: Sink, builder: Builder?)
    returns (ok: nat, failed: nat, crashed: bool)
    requires start.ok == ok0 && start.failed == failed0 && start.frames == sink.offered && Holds(builder, start.entries)
    modifies sink, builder
    ensures crashed <==> UpToNonObject(xs) != xs
    ensures var t := After(workload, start, UpToNonObject(xs));
            ok == t.ok && failed == t.failed && sink.offered == t.frames && Holds(builder, t.entries)
  {
    ok, failed, crashed := ok0, failed0, false;
    var i := 0;
    ghost var t := start;
    assert xs[0..] == xs && xs[..0] == [] && xs[..|xs|] == xs;
    hide After, AfterOne, Holds, UpToNonObject;
    AfterNothing(workload, start);
    while i < |xs|
      invariant 0 <= i <= |xs|
      invariant UpToNonObject(xs) == xs[..i] + UpToNonObject(xs[i..])
      invariant t == After(workload, start, xs[..i])
      invariant ok == t.ok && failed == t.failed && sink.offered == t.frames && Holds(builder, t.entries)
    {
      UpToNonObjectNext(xs, i);
      if !xs[i].isObject {
        crashed := true;
        return;
      }
      AfterAppend(workload, start, xs[..i], xs[i]);
      assert xs[..i + 1] == xs[..i] + [xs[i]];
      ok, failed := RelayOne(workload, xs[i], t, ok, failed, sink, builder);
      t := AfterOne(workload, t, xs[i]);
      i := i + 1;
    }
    NoneLeft(xs[i..]);
  }

  lemma NoneLeft(xs: seq<Attempt>)
    requires xs == []
    ensures UpToNonObject(xs) == []
  {
  }

  /** One tester invocation. */
  method RunTesterOnce(workload: Option<CaseId>, s: Script, ghost start: Tracked, ok0: nat, failed0: nat, sink: Sink, builder: Builder?)
    returns (ending: Ending, ok: nat, failed: nat, envelope: Option<Envelope>)
    requires start.ok == ok0 && start.failed == failed0 && start.frames == sink.offered && Holds(builder, start.entries)
    modifies sink, builder
    ensures ending == EndingOf(s)
    ensures ending == Ended(Completed) ==> s.output.Parsed? && envelope == s.output.envelope
    ensures var t := After(workload, start, Attempts(s));
            && ok == t.ok && failed == t.failed && sink.offered == t.frames + Explanation(ending)
            && Holds(builder, t.entries)
  {
    hide After, Holds, Read, UpToNonObject, Flatten;
    envelope := None;
    if !s.spawns {
      AfterNothing(workload, start);
      sink.Send(Error);
      return Ended(Failed), ok0, failed0, None;
    }
    var streamed, overflow;
    ok, failed, streamed, overflow := Stream(workload, s.lines, start, ok0, failed0, sink, builder);
    if !overflow && s.end == CancelledReading {
      return Ended(Cancelled), ok, failed, None;
    }
    if !overflow && s.end == BrokenPipe {
      return Crashed, ok, failed, None;
    }
    if overflow || s.end == DeadlineReading {
      sink.Send(Error);
      return Ended(Failed), ok, failed, None;
    }
    if s.exit == CancelledWaiting {
      return Ended(Cancelled), ok, failed, None;
    }
    if s.exit == DeadlineWaiting || s.output.Unparseable? {
      sink.Send(Error);
      return Ended(Failed), ok, failed, None;
    }
    if streamed == 0 {
      ghost var t := After(workload, start, Read(s.lines, 0).attempts);
      AfterNothing(workload, start);
      var crashed;
      ok, failed, crashed := Reemit(workload, Flatten(s.output.attempts), t, ok, failed, sink, builder);
      if crashed {
        return Crashed, ok, failed, None;
      }
    }
    return Ended(Completed), ok, failed, s.output.envelope;
  }

  lemma {:induction false} HowManyOfConcat(xs: seq<Attempt>, ys: seq<Attempt>, ok: bool)
    ensures HowMany(xs + ys, ok) == HowMany(xs, ok) + HowMany(ys, ok)
  {
    if ys == [] {
      assert xs + ys == xs;
    } else {
      HowManyOfConcat(xs, ys[..|ys| - 1], ok);
      assert (xs + ys)[..|xs + ys| - 1] == xs + ys[..|ys| - 1];
    }
  }

  /** With `i` invocations completed, `done` holds what they contributed. */
  ghost predicate RunOnCourse(runs: seq<Invocation>, i: nat, done: Totals) {
    && i <= |runs|
    && var ok, failed := HowMany(done.attempts, true), HowMany(done.attempts, false);
       var rest := Body(runs[i..], ok, failed, done.envelope);
       Body(runs, 0, 0, None) == Totals(rest.ending, done.frames + rest.frames, done.attempts + rest.attempts,
                                        done.entries + rest.entries, rest.envelope)
  }

  function Contribution(run: Invocation, done: Totals): Totals {
    var xs, e := Attempts(run.script), EndingOf(run.script);
    Totals(e, done.frames + (Relay(HowMany(done.attempts, true), HowMany(done.attempts, false), xs) + Explanation(e)),
           done.attempts + xs, done.entries + Entries(run.workload, xs),
           if e == Ended(Completed) then Latest(run.script, done.envelope) else done.envelope)
  }

  lemma RunOnCourseNext(runs: seq<Invocation>, i: nat, done: Totals)
    requires RunOnCourse(runs, i, done) && i < |runs|
    ensures EndingOf(runs[i].script) == Ended(Completed) ==> RunOnCourse(runs, i + 1, Contribution(runs[i], done))
    ensures EndingOf(runs[i].script) != Ended(Completed) ==> Body(runs, 0, 0, None) == Contribution(runs[i], done)
  {
    hide Attempts, EndingOf, Relay, Entries, HowMany, Explanation;
    assert runs[i..][1..] == runs[i + 1..];
    var xs := Attempts(runs[i].script);
    HowManyOfConcat(done.attempts, xs, true);
    HowManyOfConcat(done.attempts, xs, false);
    Regroups(runs, i, done);
  }

  lemma Regroups(runs: seq<Invocation>, i: nat, done: Totals)
    requires i < |runs|
    ensures var next := Contribution(runs[i], done);
            var rest := Body(runs[i + 1..], HowMany(next.attempts, true), HowMany(next.attempts, false), next.envelope);
            var xs := Attempts(runs[i].script);
            && done.frames + (Relay(HowMany(done.attempts, true), HowMany(done.attempts, false), xs)
                              + Explanation(EndingOf(runs[i].script)) + rest.frames) == next.frames + rest.frames
            && done.attempts + (xs + rest.attempts) == next.attempts + rest.attempts
            && done.entries + (Entries(runs[i].workload, xs) + rest.entries) == next.entries + rest.entries
  {
    hide Attempts, EndingOf, Relay, Entries, HowMany, Explanation, Body;
  }

  lemma RunOnCourseAtStart(runs: seq<Invocation>)
    ensures RunOnCourse(runs, 0, Totals(Ended(Completed), [], [], [], None))
  {
    assert runs[0..] == runs;
  }

  lemma RunOnCourseAtEnd(runs: seq<Invocation>, done: Totals)
    requires RunOnCourse(runs, |runs|, done)
    ensures Body(runs, 0, 0, None) == done.(ending := Ended(Completed))
  {
    assert runs[|runs|..] == [];
    assert done.frames + [] == done.frames && done.attempts + [] == done.attempts && done.entries + [] == done.entries;
  }

  /** How the counters, frames and builder of a run look with `done` behind it. */
  function Standing(before: seq<Frame>, done: Totals): Tracked {
    Tracked(HowMany(done.attempts, true), HowMany(done.attempts, false), before + done.frames, done.entries)
  }

  lemma StandingNext(before: seq<Frame>, done: Totals, run: Invocation)
    ensures var t := After(run.workload, Standing(before, done), Attempts(run.script));
            Standing(before, Contribution(run, done))
            == t.(frames := t.frames + Explanation(EndingOf(run.script)))
  {
    hide Attempts, EndingOf, Relay, Entries, Explanation;
    var xs := Attempts(run.script);
    HowManyOfConcat(done.attempts, xs, true);
    HowManyOfConcat(done.attempts, xs, false);
  }

  /** The invocations of a run, until one does not complete. */
  method RunAll(runs: seq<Invocation>, sink: Sink, builder: Builder?)
    returns (ending: Ending, ok: nat, failed: nat, envelope: Option<Envelope>)
    requires Holds(builder, [])
    modifies sink, builder
    ensures var t := Body(runs, 0, 0, None);
            && ending == t.ending && ok == HowMany(t.attempts, true) && failed == HowMany(t.attempts, false)
            && sink.offered == old(sink.offered) + t.frames && Holds(builder, t.entries)
            && (ending == Ended(Completed) ==> envelope == t.envelope)
  {
    hide Body, Holds, After, Contribution, RunOnCourse, EndingOf, Attempts, HowMany, Explanation;
    ok, failed, envelope := 0, 0, None;
    ghost var before, done := sink.offered, Totals(Ended(Completed), [], [], [], None);
    RunOnCourseAtStart(runs);
    NothingCounted();
    var i := 0;
    while i < |runs|
      invariant 0 <= i <= |runs| && RunOnCourse(runs, i, done)
      invariant Standing(before, done) == Tracked(ok, failed, sink.offered, done.entries)
      invariant Holds(builder, done.entries) && envelope == done.envelope
    {
      var latest;
      RunOnCourseNext(runs, i, done);
      StandingNext(before, done, runs[i]);
      ghost var next := Contribution(runs[i], done);
      ContributedEnding(runs[i], done);
      ending, ok, failed, latest := RunTesterOnce(runs[i].workload, runs[i].script, Standing(before, done), ok, failed, sink, builder);
      done := next;
      if ending != Ended(Completed) {
        return;
      }
      envelope := if latest.Some? then latest else envelope;
      i := i + 1;
    }
    RunOnCourseAtEnd(runs, done);
    ending := Ended(Completed);
  }

  lemma NothingCounted()
    ensures HowMany([], true) == 0 && HowMany([], false) == 0
  {
  }

  lemma ContributedEnding(run: Invocation, done: Totals)
    ensures var e := EndingOf(run.script);
            && Contribution(run, done).ending == e
            && Contribution(run, done).envelope == if e == Ended(Completed) then Latest(run.script, done.envelope) else done.envelope
  {
  }

  method SendFailure(sink: Sink)
    modifies sink
    ensures sink.offered == old(sink.offered) + REFUSAL
  {
    sink.Send(Error);
    sink.Send(Finished(Failed, None, None, None, None));
  }

  lemma StartsEmpty(builder: Builder?)
    requires builder != null ==> builder.Valid() && builder.entries == []
    ensures Holds(builder, [])
  {
  }

  /** The terminal frames. */
  method Conclude(j: Job, ghost t: Totals, ending: Ending, ok: nat, failed: nat, envelope: Option<Envelope>, builder: Builder?, sink: Sink)
    requires ending == t.ending && ok == HowMany(t.attempts, true) && failed == HowMany(t.attempts, false)
    requires ending == Ended(Completed) ==> envelope == t.envelope
    requires Holds(builder, t.entries) && (j.isBenchmark <==> builder != null)
    modifies sink
    ensures sink.offered == old(sink.offered) + Terminal(j, t)
  {
    hide Tally, HowMany;
    if ending == Ended(Cancelled) {
      sink.Send(Finished(Cancelled, None, None, None, None));
    } else if ending == Ended(Failed) {
      sink.Send(Finished(Failed, Some(ok), Some(failed), None, None));
    } else if ending == Ended(Completed) {
      sink.Send(Progress(ok, failed));
      var artifact := if builder != null then Some(builder.cases) else None;
      sink.Send(Finished(Completed, Some(ok), Some(failed), artifact, envelope));
    }
  }

  lemma NothingAfterCrash(j: Job)
    requires Runnable(j) && InvocationDeadline.Deadline(j.load).None?
    ensures Executed(j) == [RunStarted]
  {
    assert Terminal(j, Outcome(j)) == [] && Outcome(j).frames == [];
  }

  /** ExecuteAsync; `crashed` tells that an exception left it. */
  method Execute(j: Job, sink: Sink) returns (crashed: bool)
    modifies sink
    ensures sink.offered == old(sink.offered) + Executed(j)
    ensures crashed <==> ExecutorThrows(j)
  {
    ExecutorThrowsIff(j);
    hide Body, Tally, HowMany, Terminal, Holds, InvocationDeadline.Deadline, ExecutorThrows;
    sink.Send(RunStarted);
    crashed := false;
    if !j.wellFormed {
      SendFailure(sink);
      return;
    }
    if !j.hasTarget {
      SendFailure(sink);
      return;
    }
    var runs := [];
    if j.plainModes.Some? {
      runs := runs + [Invocation(None, j.plainModes.value)];
    }
    if j.apibench {
      if j.workloads.None? {
        SendFailure(sink);
        return;
      }
      runs := runs + j.workloads.value;
    }
    assert runs == Planned(j);
    if |runs| == 0 || !j.testerFound {
      SendFailure(sink);
      return;
    }
    if InvocationDeadline.Deadline(j.load).None? {
      NothingAfterCrash(j);
      crashed := true;
      return;
    }
    var builder: Builder? := null;
    if j.isBenchmark {
      builder := new Builder();
    }
    assert Holds(builder, []) by { StartsEmpty(builder); }
    var ending, ok, failed, envelope := RunAll(runs, sink, builder);
    Conclude(j, Body(runs, 0, 0, None), ending, ok, failed, envelope, builder, sink);
    crashed := ending == Crashed;
  }

  /** The run task once it holds a slot: whatever is thrown becomes a failed terminal. */
  method RunTask(j: Job, sink: Sink)
    modifies sink
    ensures sink.offered == old(sink.offered) + TaskLog(j)
  {
    ExecutorThrowsIff(j);
    hide Executed, Body, ExecutorThrows;
    var crashed := true;
    if !j.tokenDisposed {
      crashed := Execute(j, sink);
    }
    if crashed {
      SendFailure(sink);
    }
  }
}
