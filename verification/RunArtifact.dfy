/** What the artifact of a completed benchmark holds for each case. */
module RunArtifact {
  import opened ArtifactBuilder
  import opened Options
  import InvocationDeadline
  import opened RunExecutor
  import opened RunFrames
  import opened RunOutcomes

  /** The attempts entered under one case. */
  function Of(entries: seq<Entry>, id: CaseId): seq<Attempt> {
    if entries == [] then []
    else
      var e := entries[|entries| - 1];
      Of(entries[..|entries| - 1], id) + if e.id == id then [e.attempt] else []
  }

  /** The metrics of the measured successes. */
  function Metrics(xs: seq<Attempt>): seq<real> {
    if xs == [] then []
    else
      var a := xs[|xs| - 1];
      Metrics(xs[..|xs| - 1]) + if a.ok && a.metric.Some? then [a.metric.value] else []
  }

  /** The plain attempts of one case. */
  function PlainOf(xs: seq<Attempt>, id: CaseId): seq<Attempt> {
    if xs == [] then []
    else PlainOf(xs[..|xs| - 1], id) + if xs[|xs| - 1].plainCase == id then [xs[|xs| - 1]] else []
  }

  /** What one invocation contributes to a case: a workload everything to its own, a plain one by attempt. */
  function Share(run: Invocation, id: CaseId): seq<Attempt> {
    match run.workload
    case Some(w) => if w == id then Delivered(run.script) else []
    case None => PlainOf(Delivered(run.script), id)
  }

  function Shares(runs: seq<Invocation>, id: CaseId): seq<Attempt> {
    if runs == [] then [] else Share(runs[0], id) + Shares(runs[1..], id)
  }

  lemma {:induction false} OfConcat(es: seq<Entry>, fs: seq<Entry>, id: CaseId)
    ensures Of(es + fs, id) == Of(es, id) + Of(fs, id)
    decreases |fs|
  {
    if fs == [] {
      assert es + fs == es;
    } else {
      Snoc(es, fs);
      OfConcat(es, fs[..|fs| - 1], id);
    }
  }

  lemma {:induction false} EntriesOfCase(workload: Option<CaseId>, xs: seq<Attempt>, id: CaseId)
    requires AllObjects(xs)
    ensures Of(Entries(workload, xs), id)
         == if workload.Some? then (if workload.value == id then xs else []) else PlainOf(xs, id)
    decreases |xs|
  {
    if xs != [] {
      var before, a := xs[..|xs| - 1], xs[|xs| - 1];
      assert xs == before + [a];
      EntriesOfCase(workload, before, id);
      EntriesOfLast(workload, xs, true);
      var e := Entry(CaseOf(workload, a), a);
      OfConcat(Entries(workload, before), [e], id);
      hide Entries, AllObjects;
      assert [e][..0] == [];
    }
  }

  lemma ShareOfFirst(run: Invocation, id: CaseId)
    requires EndingOf(run.script) == Ended(Completed)
    ensures Of(Entries(run.workload, Attempts(run.script)), id) == Share(run, id)
  {
    hide Attempts, EndingOf, Delivered, Entries, Of, PlainOf, AllObjects;
    CompletedDelivers(run.script);
    AttemptsAreObjects(run.script);
    EntriesOfCase(run.workload, Attempts(run.script), id);
  }

  lemma {:induction false} BodyShares(runs: seq<Invocation>, ok: nat, failed: nat, envelope: Option<Envelope>, id: CaseId)
    requires Body(runs, ok, failed, envelope).ending == Ended(Completed)
    ensures Of(Body(runs, ok, failed, envelope).entries, id) == Shares(runs, id)
    decreases |runs|
  {
    SharesOfFirst(runs, id);
    hide *;
    if runs == [] {
      BodyOfNone(ok, failed, envelope);
    } else {
      var s := runs[0].script;
      var xs := Attempts(s);
      var ok', failed', env := ok + HowMany(xs, true), failed + HowMany(xs, false), Latest(s, envelope);
      BodyOfFirst(runs, ok, failed, envelope);
      BodyShares(runs[1..], ok', failed', env, id);
      ShareOfFirst(runs[0], id);
      OfConcat(Entries(runs[0].workload, xs), Body(runs[1..], ok', failed', env).entries, id);
    }
  }

  lemma SharesOfFirst(runs: seq<Invocation>, id: CaseId)
    ensures Of([], id) == []
    ensures Shares(runs, id) == if runs == [] then [] else Share(runs[0], id) + Shares(runs[1..], id)
  {
  }

  lemma LastCounts(xs: seq<Attempt>, a: Attempt, ok: bool)
    ensures HowMany(xs + [a], ok) == HowMany(xs, ok) + if a.ok == ok then 1 else 0
    ensures Metrics(xs + [a]) == Metrics(xs) + if a.ok && a.metric.Some? then [a.metric.value] else []
  {
    assert (xs + [a])[..|xs|] == xs;
  }

  lemma CaseCountsNext(before: seq<Entry>, e: Entry, id: CaseId, ok: bool)
    requires Outcomes(before, ok, Some(id)) == HowMany(Of(before, id), ok)
    requires Measured(before, id) == Metrics(Of(before, id))
    ensures Outcomes(before + [e], ok, Some(id)) == HowMany(Of(before + [e], id), ok)
    ensures Measured(before + [e], id) == Metrics(Of(before + [e], id))
  {
    assert (before + [e])[..|before|] == before;
    LastCounts(Of(before, id), e.attempt, ok);
    hide HowMany, Metrics;
    assert Of(before + [e], id) == if e.id == id then Of(before, id) + [e.attempt] else Of(before, id);
  }

  lemma {:induction false} CaseCounts(entries: seq<Entry>, id: CaseId, ok: bool)
    ensures Outcomes(entries, ok, Some(id)) == HowMany(Of(entries, id), ok)
    ensures Measured(entries, id) == Metrics(Of(entries, id))
    decreases |entries|
  {
    hide *;
    if entries == [] {
      NothingEntered(id, ok);
    } else {
      var n := |entries| - 1;
      CaseCounts(entries[..n], id, ok);
      CaseCountsNext(entries[..n], entries[n], id, ok);
      assert entries[..n] + [entries[n]] == entries;
    }
  }

  lemma NothingEntered(id: CaseId, ok: bool)
    ensures Outcomes([], ok, Some(id)) == HowMany(Of([], id), ok)
    ensures Measured([], id) == Metrics(Of([], id))
  {
  }

  lemma {:induction false} EnteredIff(entries: seq<Entry>, id: CaseId)
    ensures id in Tally(entries) <==> Of(entries, id) != []
    decreases |entries|
  {
    if entries != [] {
      hide Counted, Lookup;
      EnteredIff(entries[..|entries| - 1], id);
    }
  }

  /** A case of the tally counts and samples what was entered under it. */
  lemma CaseOfTally(entries: seq<Entry>, id: CaseId)
    ensures var c, xs := Lookup(Tally(entries), id), Of(entries, id);
            && c.successes == HowMany(xs, true) && c.failures == HowMany(xs, false) && c.values == Metrics(xs)
            && (id in Tally(entries) <==> xs != [])
  {
    hide Tally, HowMany, Of, Metrics, Outcomes, Measured, Lookup;
    CaseHoldsItsAttempts(entries, id);
    CaseCounts(entries, id, true);
    CaseCounts(entries, id, false);
    EnteredIff(entries, id);
  }

  /**
   The artifact of a completed benchmark has a case exactly for what delivered an
   attempt; the case counts the successes and failures among those attempts and
   samples the metrics of the measured successes, in order.
   */
  lemma CasesHoldTheirShares(j: Job, id: CaseId)
    requires Starts(j) && AllComplete(j) && j.isBenchmark
    ensures TaskLog(j) != [] && LastOf(TaskLog(j)).Finished? && LastOf(TaskLog(j)).artifact.Some?
    ensures var cases, xs := LastOf(TaskLog(j)).artifact.value, Shares(Planned(j), id);
            && (id in cases <==> xs != [])
            && (id in cases ==>
                  && cases[id].successes == HowMany(xs, true)
                  && cases[id].failures == HowMany(xs, false)
                  && cases[id].values == Metrics(xs))
  {
    LastIsClosing(j);
    StartedRuns(j);
    hide TaskLog, Middle, Body, Reaches, InvocationDeadline.Deadline, HowMany, Tally, Shares, Metrics, Of;
    BodyEndsIff(Planned(j), 0, 0, None);
    var t := Body(Planned(j), 0, 0, None);
    BodyShares(Planned(j), 0, 0, None, id);
    CaseOfTally(t.entries, id);
  }
}
