/** Which attempts of a run are relayed, told from the lines and documents its testers write. */
module RunReading {
  import opened ArtifactBuilder
  import opened Options
  import InvocationDeadline
  import opened RunExecutor
  import opened RunFrames
  import opened RunOutcomes

  // ---------- The size cap ----------

  /** What the lines that are no events take up, line ends included. */
  function TextBytes(lines: seq<Line>): nat {
    if lines == [] then 0
    else (if IsEvent(lines[0]) then 0 else lines[0].length + 1) + TextBytes(lines[1..])
  }

  function EventsOf(lines: seq<Line>): seq<Attempt> {
    if lines == [] then []
    else (if IsEvent(lines[0]) then [lines[0].event.value] else []) + EventsOf(lines[1..])
  }

  lemma {:induction false} ReadFrom(lines: seq<Line>, bytes: nat)
    requires bytes <= 134_217_728
    ensures Read(lines, bytes).overflow <==> bytes + TextBytes(lines) > 134_217_728
    ensures !Read(lines, bytes).overflow ==> Read(lines, bytes).attempts == EventsOf(lines)
    decreases |lines|
  {
    if lines != [] {
      if IsEvent(lines[0]) {
        ReadFrom(lines[1..], bytes);
      } else if bytes + lines[0].length + 1 <= MAX_STDOUT {
        ReadFrom(lines[1..], bytes + lines[0].length + 1);
      }
    }
  }

  /** A tester's output is cut off exactly if its text exceeds 128 MiB; otherwise all its events are read. */
  lemma OverflowsIff(lines: seq<Line>)
    ensures Read(lines, 0).overflow <==> TextBytes(lines) > 134_217_728
    ensures !Read(lines, 0).overflow ==> Read(lines, 0).attempts == EventsOf(lines)
  {
    ReadFrom(lines, 0);
  }

  /** Of an output that is cut off, exactly the events before the line that exceeds the cap are read. */
  lemma {:induction false} ReadsUpToTheCap(lines: seq<Line>, k: nat, bytes: nat)
    requires bytes <= 134_217_728 && k <= |lines|
    ensures bytes + TextBytes(lines[..k]) <= 134_217_728 ==> EventsOf(lines[..k]) <= Read(lines, bytes).attempts
    ensures bytes + TextBytes(lines[..k]) > 134_217_728 ==> Read(lines, bytes).attempts <= EventsOf(lines[..k])
    decreases |lines|
  {
    if k > 0 {
      hide EventsOf, TextBytes, IsEvent;
      FirstOfPrefix(lines, k);
      if IsEvent(lines[0]) {
        ReadsUpToTheCap(lines[1..], k - 1, bytes);
      } else if bytes + lines[0].length + 1 <= MAX_STDOUT {
        ReadsUpToTheCap(lines[1..], k - 1, bytes + lines[0].length + 1);
      }
    }
  }

  lemma FirstOfPrefix(lines: seq<Line>, k: nat)
    requires 0 < k <= |lines|
    ensures var l, rest := lines[0], lines[1..][..k - 1];
            && TextBytes(lines[..k]) == (if IsEvent(l) then 0 else l.length + 1) + TextBytes(rest)
            && EventsOf(lines[..k]) == (if IsEvent(l) then [l.event.value] else []) + EventsOf(rest)
  {
    assert lines[..k][1..] == lines[1..][..k - 1];
  }

  // ---------- What one invocation relays ----------

  /** The lists of attempts are taken one after the other. */
  lemma {:induction false} FlattenJoins(a: seq<seq<Attempt>>, b: seq<seq<Attempt>>, xs: seq<Attempt>)
    ensures Flatten(a + b) == Flatten(a) + Flatten(b) && Flatten([xs]) == xs
    decreases |a|
  {
    assert [xs][1..] == [] && xs + [] == xs;
    if a == [] {
      assert a + b == b;
    } else {
      FlattenJoins(a[1..], b, xs);
      assert (a + b)[1..] == a[1..] + b;
    }
  }

  /** The output has to supply the attempts: it was reached, and nothing was streamed before it. */
  predicate FallsBack(s: Script) {
    && s.spawns && TextBytes(s.lines) <= 134_217_728 && !HasEvent(s.lines)
    && s.end == Eof && s.exit == Exited && s.output.Parsed?
  }

  lemma {:induction false} ObjectPrefix(xs: seq<Attempt>)
    ensures var p := UpToNonObject(xs);
            p <= xs && AllObjects(p) && (|p| < |xs| ==> !xs[|p|].isObject)
    decreases |xs|
  {
    if xs != [] && xs[0].isObject {
      ObjectPrefix(xs[1..]);
      assert xs == [xs[0]] + xs[1..];
    }
  }

  /**
   Whatever its ending: an invocation relays what it streamed, or, falling back,
   the attempts of its output up to the first that is no object.
   */
  lemma RelayedByOne(s: Script)
    ensures !s.spawns ==> Attempts(s) == []
    ensures s.spawns && !FallsBack(s) ==> Attempts(s) == Read(s.lines, 0).attempts
    ensures FallsBack(s) ==>
              var all := Flatten(s.output.attempts);
              && Attempts(s) <= all && AllObjects(Attempts(s))
              && (|Attempts(s)| < |all| ==> !all[|Attempts(s)|].isObject)
  {
    hide Read, UpToNonObject, Flatten, HasEvent, AllObjects, TextBytes, EventsOf;
    OverflowsIff(s.lines);
    if !Read(s.lines, 0).overflow {
      ReadFindsEvents(s.lines, 0);
    }
    if s.output.Parsed? {
      ObjectPrefix(Flatten(s.output.attempts));
    }
  }

  // ---------- What a run relays ----------

  lemma {:induction false} BodyRelays(runs: seq<Invocation>, i: nat, ok: nat, failed: nat, envelope: Option<Envelope>)
    requires Reaches(runs, i) && (i < |runs| ==> !Completes(runs[i].script))
    ensures Body(runs, ok, failed, envelope).attempts
         == AllDelivered(runs[..i]) + if i < |runs| then Attempts(runs[i].script) else []
    decreases |runs|
  {
    hide Attempts, EndingOf, Delivered, HowMany, Relay, Explanation, Entries, Latest, Completes;
    if runs != [] {
      var s := runs[0].script;
      EndingIff(s);
      if i == 0 {
        assert runs[..0] == [];
      } else {
        assert Completes(runs[0].script);
        CompletedDelivers(s);
        assert forall k :: 0 <= k < |runs| - 1 ==> runs[1..][k] == runs[k + 1];
        BodyRelays(runs[1..], i - 1, ok + HowMany(Attempts(s), true), failed + HowMany(Attempts(s), false), Latest(s, envelope));
        assert runs[..i][1..] == runs[1..][..i - 1];
      }
    }
  }

  /**
   However a run ends, it relays what its completed invocations delivered and what
   the one that stopped it relayed, in order; a run that does not start, nothing.
   */
  lemma RelaysUpToTheStop(j: Job, i: nat)
    requires Starts(j) ==> Reaches(Planned(j), i) && (i < |Planned(j)| ==> !Completes(Planned(j)[i].script))
    ensures AttemptsIn(TaskLog(j)) ==
            if !Starts(j) then []
            else AllDelivered(Planned(j)[..i]) + if i < |Planned(j)| then Attempts(Planned(j)[i].script) else []
  {
    hide Body, Middle, TaskLog, AttemptsIn, AllDelivered, Attempts, Completes;
    TaskLogAttempts(j);
    StartedRuns(j);
    if Starts(j) {
      BodyRelays(Planned(j), i, 0, 0, None);
    }
  }

  /** The plain modes are run before the workloads, which keep their order. */
  lemma PlainModesFirst(j: Job)
    requires Starts(j) && AllComplete(j)
    ensures AttemptsIn(TaskLog(j)) ==
            (if j.plainModes.Some? then Delivered(j.plainModes.value) else [])
            + if j.apibench then AllDelivered(j.workloads.value) else []
  {
    hide Body, TaskLog, AttemptsIn, Delivered, Reaches;
    StartedRuns(j);
    BodyEndsIff(Planned(j), 0, 0, None);
    CompletedRelaysEverything(j);
    var rest := if j.apibench then j.workloads.value else [];
    if j.plainModes.Some? {
      assert Planned(j)[1..] == rest;
    } else {
      assert Planned(j) == rest;
    }
  }
}
