/**
 The per-case statistics of a benchmark run
 (src/Networker.Agent/BenchmarkArtifactBuilder.cs): every attempt is counted
 under exactly one case, and only measured successes enter its sample.
 */
module ArtifactBuilder {
  import opened Counting
  import opened Options

  /** A workload name, or the protocol, payload and stack of a plain attempt. */
  type CaseId = nat

  /** A relayed attempt. `metric` is its primary metric, if present and finite. */
  datatype Attempt = Attempt(isObject: bool, ok: bool, plainCase: CaseId, metric: Option<real>)

  datatype Case = Case(successes: nat, failures: nat, values: seq<real>)

  datatype Entry = Entry(id: CaseId, attempt: Attempt)

  function CaseOf(workload: Option<CaseId>, a: Attempt): CaseId {
    if workload.Some? then workload.value else a.plainCase
  }

  function Lookup(cases: map<CaseId, Case>, id: CaseId): Case {
    if id in cases then cases[id] else Case(0, 0, [])
  }

  function Counted(c: Case, a: Attempt): Case {
    Case(if a.ok then c.successes + 1 else c.successes,
         if a.ok then c.failures else c.failures + 1,
         if a.ok && a.metric.Some? then c.values + [a.metric.value] else c.values)
  }

  /** The cases after recording `entries` in order. */
  function Tally(entries: seq<Entry>): map<CaseId, Case> {
    if entries == [] then map[]
    else
      var before, e := Tally(entries[..|entries| - 1]), entries[|entries| - 1];
      before[e.id := Counted(Lookup(before, e.id), e.attempt)]
  }

  class Builder {
    var cases: map<CaseId, Case>
    ghost var entries: seq<Entry>

    ghost predicate Valid()
      reads this
    {
      cases == Tally(entries)
    }

    constructor ()
      ensures Valid() && entries == []
    {
      cases, entries := map[], [];
    }

    method Record(workload: Option<CaseId>, a: Attempt)
      requires Valid()
      modifies this
      ensures Valid()
      ensures entries == if a.isObject then old(entries) + [Entry(CaseOf(workload, a), a)] else old(entries)
    {
      if !a.isObject {
        return;
      }
      var id := CaseOf(workload, a);
      var c := if id in cases then cases[id] else Case(0, 0, []);
      if a.ok {
        c := c.(successes := c.successes + 1);
      } else {
        c := c.(failures := c.failures + 1);
      }
      if a.ok && a.metric.Some? {
        c := c.(values := c.values + [a.metric.value]);
      }
      cases := cases[id := c];
      assert (entries + [Entry(id, a)])[..|entries|] == entries;
      entries := entries + [Entry(id, a)];
    }
  }

  // ---------- What the cases add up to ----------

  /** Entries with the given outcome, in one case or (None) in all. */
  function Outcomes(entries: seq<Entry>, ok: bool, id: Option<CaseId>): nat {
    if entries == [] then 0
    else
      var e := entries[|entries| - 1];
      Outcomes(entries[..|entries| - 1], ok, id)
      + if e.attempt.ok == ok && (id.Some? ==> e.id == id.value) then 1 else 0
  }

  /** The metrics of one case's measured successes, in order. */
  function Measured(entries: seq<Entry>, id: CaseId): seq<real> {
    if entries == [] then []
    else
      var before, e := Measured(entries[..|entries| - 1], id), entries[|entries| - 1];
      if e.id == id && e.attempt.ok && e.attempt.metric.Some? then before + [e.attempt.metric.value] else before
  }

  /** A case holds exactly its own attempts, and its sample exactly their measured successes. */
  lemma {:induction false} CaseHoldsItsAttempts(entries: seq<Entry>, id: CaseId)
    ensures Lookup(Tally(entries), id).successes == Outcomes(entries, true, Some(id))
    ensures Lookup(Tally(entries), id).failures == Outcomes(entries, false, Some(id))
    ensures Lookup(Tally(entries), id).values == Measured(entries, id)
    ensures |Measured(entries, id)| <= Outcomes(entries, true, Some(id))
  {
    if entries != [] {
      CaseHoldsItsAttempts(entries[..|entries| - 1], id);
    }
  }

  lemma {:induction false} CasesAreThoseRecorded(entries: seq<Entry>, id: CaseId)
    ensures id in Tally(entries) <==> exists i :: 0 <= i < |entries| && entries[i].id == id
  {
    if entries != [] {
      var n := |entries| - 1;
      CasesAreThoseRecorded(entries[..n], id);
      if id in Tally(entries[..n]) {
        var i :| 0 <= i < n && entries[..n][i].id == id;
        assert entries[i].id == id;
      } else if i :| 0 <= i <= n && entries[i].id == id {
        assert i < n ==> entries[..n][i].id == id;
      }
    }
  }

  /** Summed over all cases nothing is lost and nothing counted twice. */
  lemma {:induction false} CasesAddUp(entries: seq<Entry>)
    ensures Sum(Tally(entries), (c: Case) => c.successes) == Outcomes(entries, true, None)
    ensures Sum(Tally(entries), (c: Case) => c.failures) == Outcomes(entries, false, None)
  {
    if entries != [] {
      var before, e := entries[..|entries| - 1], entries[|entries| - 1];
      CasesAddUp(before);
      var c := Counted(Lookup(Tally(before), e.id), e.attempt);
      SumPut(Tally(before), e.id, c, (c: Case) => c.successes);
      SumPut(Tally(before), e.id, c, (c: Case) => c.failures);
    }
  }
}
