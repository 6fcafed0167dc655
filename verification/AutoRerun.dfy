/**
 Automatic reruns in the benchmark orchestrator
 (benchmarks/orchestrator/src/main.rs): after the planned repeats of a language,
 cases whose statistics are not good enough are run again, round after round,
 until no case qualifies. Whether a case qualifies and whether a rerun succeeds
 are arbitrary.
 */
module AutoRerun {
  import opened Counting

  /** A language and its runtime, compared as a pair. */
  type Language = nat
  type Concurrency = nat

  /** A recorded result, or a scheduled rerun. */
  datatype Entry = Entry(language: Language, concurrency: Concurrency, repeat: nat)

  datatype Target = Target(concurrency: Concurrency, repeat: nat)

  datatype Settings = Settings(planned: nat, additional: nat)

  predicate Belongs(e: Entry, l: Language, c: Concurrency) {
    e.language == l && e.concurrency == c
  }

  /** One more than the largest repeat index of the case, or zero. */
  function After(es: seq<Entry>, l: Language, c: Concurrency): (n: nat)
    ensures n > 0 <==> exists e :: e in es && Belongs(e, l, c)
    ensures forall e :: e in es && Belongs(e, l, c) ==> e.repeat < n
  {
    if es == [] then 0
    else
      var before, e := After(es[..|es| - 1], l, c), es[|es| - 1];
      assert es == es[..|es| - 1] + [e];
      if Belongs(e, l, c) && e.repeat + 1 > before then e.repeat + 1 else before
  }

  /** The bound of `After` is met by some entry of the case. */
  lemma {:induction false} AfterIsTight(es: seq<Entry>, l: Language, c: Concurrency)
    ensures After(es, l, c) > 0 ==> exists e :: e in es && Belongs(e, l, c) && e.repeat == After(es, l, c) - 1
    decreases |es|
  {
    if es != [] {
      var before, e := es[..|es| - 1], es[|es| - 1];
      AfterIsTight(before, l, c);
      assert es == before + [e];
    }
  }

  function Max(a: nat, b: nat): nat {
    if a >= b then a else b
  }

  /** The next repeat index of a case: past everything recorded and everything scheduled. */
  function Next(results: seq<Entry>, scheduled: seq<Entry>, l: Language, c: Concurrency): nat {
    Max(After(results, l, c), After(scheduled, l, c))
  }

  /** The case still has additional repeats to spend. */
  predicate Due(s: Settings, next: nat) {
    s.additional > 0 && next < s.planned + s.additional
  }

  /** How many more reruns it can get. */
  function Left(s: Settings, next: nat): nat {
    if Due(s, next) then s.planned + s.additional - next else 0
  }

  /** The cases of a language that have results, in order of their first one. */
  function Cases(results: seq<Entry>, l: Language): (cs: seq<Concurrency>)
    ensures forall c :: c in cs <==> After(results, l, c) > 0
    ensures forall i, j :: 0 <= i < j < |cs| ==> cs[i] != cs[j]
  {
    if results == [] then []
    else
      var before, e := Cases(results[..|results| - 1], l), results[|results| - 1];
      if e.language == l && e.concurrency !in before then before + [e.concurrency] else before
  }

  /** Statistics are never good enough. */
  ghost predicate AlwaysQualify(qualifies: (seq<Entry>, Concurrency) -> bool) {
    forall results, c :: qualifies(results, c)
  }

  /** Sorted by concurrency. */
  predicate Ascending(ts: seq<Target>) {
    forall i, j :: 0 <= i < j < |ts| ==> ts[i].concurrency < ts[j].concurrency
  }

  function Insert(ts: seq<Target>, t: Target): (r: seq<Target>)
    requires Ascending(ts) && forall u :: u in ts ==> u.concurrency != t.concurrency
    ensures Ascending(r) && |r| == |ts| + 1
    ensures forall u :: u in r <==> u in ts || u == t
  {
    if ts == [] || t.concurrency < ts[0].concurrency then [t] + ts
    else
      var rest := Insert(ts[1..], t);
      assert forall u :: u in ts <==> u == ts[0] || u in ts[1..];
      assert forall k :: 0 <= k < |rest| ==> rest[k] in ts[1..] || rest[k] == t;
      [ts[0]] + rest
  }

  /** A case is targeted exactly when it has results, qualifies and is due. */
  ghost predicate Collected(ts: seq<Target>, results: seq<Entry>, scheduled: seq<Entry>, l: Language, s: Settings,
                            cs: seq<Concurrency>, qualifies: (seq<Entry>, Concurrency) -> bool) {
    && Ascending(ts)
    && forall c, r :: Target(c, r) in ts <==>
         c in cs && qualifies(results, c) && Due(s, Next(results, scheduled, l, c)) && r == Next(results, scheduled, l, c)
  }

  class Run {
    var results: seq<Entry>
    var scheduled: seq<Entry>

    constructor ()
      ensures results == [] && scheduled == []
    {
      results, scheduled := [], [];
    }

    /** The cases to run once more, ordered by concurrency. */
    method CollectTargets(l: Language, s: Settings, qualifies: (seq<Entry>, Concurrency) -> bool) returns (ts: seq<Target>)
      ensures Collected(ts, results, scheduled, l, s, Cases(results, l), qualifies)
    {
      ts := [];
      var summaries := Cases(results, l);
      hide After, Cases;
      for i := 0 to |summaries|
        invariant Collected(ts, results, scheduled, l, s, summaries[..i], qualifies)
      {
        var c := summaries[i];
        assert summaries[..i + 1] == summaries[..i] + [c] && c !in summaries[..i];
        if !qualifies(results, c) {
          continue;
        }
        var next := Max(After(results, l, c), After(scheduled, l, c));
        var used := if next >= s.planned then next - s.planned else 0;
        if used >= s.additional {
          continue;
        }
        forall u | u in ts
          ensures u.concurrency != c
        {
          assert Target(u.concurrency, u.repeat) in ts;
        }
        ts := Insert(ts, Target(c, next));
      }
      assert summaries[..|summaries|] == summaries;
    }

    /** One benchmark cycle: a cold and a warm result, or none. */
    method RunCase(l: Language, c: Concurrency, repeat: nat, succeeds: bool)
      modifies this`results
      ensures results == old(results) + if succeeds then [Entry(l, c, repeat), Entry(l, c, repeat)] else []
    {
      if succeeds {
        results := results + [Entry(l, c, repeat)];
        results := results + [Entry(l, c, repeat)];
      }
    }

    /** The `loop` of cmd_run for one language. `succeeds(k)` says how the `k`-th rerun ends. */
    method RerunLanguage(l: Language, s: Settings, qualifies: (seq<Entry>, Concurrency) -> bool, succeeds: nat -> bool)
      modifies this
      ensures Progressed(old(results), old(scheduled), results, scheduled, l, s)
      ensures forall c :: c in Cases(results, l) && qualifies(results, c) ==> !Due(s, Next(results, scheduled, l, c))
      ensures |scheduled| <= |old(scheduled)| + Total(old(results), old(scheduled), l, s)
      ensures AlwaysQualify(qualifies) ==> |scheduled| == |old(scheduled)| + Total(old(results), old(scheduled), l, s)
    {
      ghost var r0, s0 := results, scheduled;
      NoProgressYet(r0, s0, l, s);
      hide Progressed, Collected, Total, Next, Due, Cases;
      var ts := CollectTargets(l, s, qualifies);
      NothingToDo(ts, results, scheduled, l, s, qualifies);
      while ts != []
        invariant Progressed(r0, s0, results, scheduled, l, s)
        invariant Collected(ts, results, scheduled, l, s, Cases(results, l), qualifies)
        invariant ts == [] ==>
          forall c :: c in Cases(results, l) && qualifies(results, c) ==> !Due(s, Next(results, scheduled, l, c))
        decreases Total(results, scheduled, l, s)
      {
        ghost var before := Total(results, scheduled, l, s);
        CollectedAreReady(ts, results, scheduled, l, s, qualifies);
        for i := 0 to |ts|
          invariant Progressed(r0, s0, results, scheduled, l, s)
          invariant Ready(ts[i..], results, scheduled, l, s)
          invariant Total(results, scheduled, l, s) == before - i
        {
          ghost var r1, s1 := results, scheduled;
          assert ts[i..] == [ts[i]] + ts[i + 1..];
          scheduled := scheduled + [Entry(l, ts[i].concurrency, ts[i].repeat)];
          RunCase(l, ts[i].concurrency, ts[i].repeat, succeeds(|scheduled|));
          RerunProgresses(r0, s0, r1, s1, results, l, s, ts[i]);
          OthersStayReady(ts[i], ts[i + 1..], r1, s1, results, l, s);
        }
        ts := CollectTargets(l, s, qualifies);
        NothingToDo(ts, results, scheduled, l, s, qualifies);
      }
      HowManyWereScheduled(r0, s0, results, scheduled, l, s);
      if AlwaysQualify(qualifies) {
        NothingLeft(results, scheduled, l, s);
      }
    }
  }

  // ---------- What one rerun changes ----------

  lemma AfterOfAppend(es: seq<Entry>, e: Entry, l: Language, c: Concurrency)
    ensures After(es + [e], l, c) == if Belongs(e, l, c) then Max(After(es, l, c), e.repeat + 1) else After(es, l, c)
  {
    assert (es + [e])[..|es|] == es;
  }

  lemma CasesOfAppend(es: seq<Entry>, e: Entry, l: Language)
    requires e.language == l ==> e.concurrency in Cases(es, l)
    ensures Cases(es + [e], l) == Cases(es, l)
  {
    assert (es + [e])[..|es|] == es;
  }

  /** The results after a rerun of `e`: two more, or none. */
  predicate Reran(before: seq<Entry>, after: seq<Entry>, e: Entry) {
    after == before || after == before + [e, e]
  }

  lemma NextAfterRerun(results: seq<Entry>, scheduled: seq<Entry>, after: seq<Entry>, e: Entry, l: Language, c: Concurrency)
    requires Reran(results, after, e)
    ensures Next(after, scheduled + [e], l, c)
         == if Belongs(e, l, c) then Max(Next(results, scheduled, l, c), e.repeat + 1) else Next(results, scheduled, l, c)
  {
    hide After;
    AfterOfAppend(scheduled, e, l, c);
    AfterOfAppend(results, e, l, c);
    AfterOfAppend(results + [e], e, l, c);
    assert results + [e, e] == results + [e] + [e];
  }

  lemma CasesAfterRerun(results: seq<Entry>, after: seq<Entry>, e: Entry, l: Language)
    requires Reran(results, after, e) && (e.language == l ==> e.concurrency in Cases(results, l))
    ensures Cases(after, l) == Cases(results, l)
  {
    hide Cases, After;
    CasesOfAppend(results, e, l);
    CasesOfAppend(results + [e], e, l);
    assert results + [e, e] == results + [e] + [e];
  }

  // ---------- How many reruns are left in all ----------

  function LeftIn(cs: seq<Concurrency>, results: seq<Entry>, scheduled: seq<Entry>, l: Language, s: Settings): nat {
    if cs == [] then 0
    else
      LeftIn(cs[..|cs| - 1], results, scheduled, l, s) + Left(s, Next(results, scheduled, l, cs[|cs| - 1]))
  }

  function Total(results: seq<Entry>, scheduled: seq<Entry>, l: Language, s: Settings): nat {
    LeftIn(Cases(results, l), results, scheduled, l, s)
  }

  lemma NextsAfterRerun(results: seq<Entry>, scheduled: seq<Entry>, after: seq<Entry>, l: Language, t: Target)
    requires t.repeat == Next(results, scheduled, l, t.concurrency)
    requires Reran(results, after, Entry(l, t.concurrency, t.repeat))
    ensures forall c :: Next(after, scheduled + [Entry(l, t.concurrency, t.repeat)], l, c)
                     == if c == t.concurrency then t.repeat + 1 else Next(results, scheduled, l, c)
  {
    hide Next, Reran;
    forall c
      ensures Next(after, scheduled + [Entry(l, t.concurrency, t.repeat)], l, c)
           == if c == t.concurrency then t.repeat + 1 else Next(results, scheduled, l, c)
    {
      NextAfterRerun(results, scheduled, after, Entry(l, t.concurrency, t.repeat), l, c);
    }
  }

  lemma {:induction false} LeftAfterRerun(cs: seq<Concurrency>, results: seq<Entry>, scheduled: seq<Entry>, after: seq<Entry>,
                                         l: Language, s: Settings, t: Target)
    requires forall i, j :: 0 <= i < j < |cs| ==> cs[i] != cs[j]
    requires t.repeat == Next(results, scheduled, l, t.concurrency) && Due(s, t.repeat)
    requires Reran(results, after, Entry(l, t.concurrency, t.repeat))
    ensures LeftIn(cs, after, scheduled + [Entry(l, t.concurrency, t.repeat)], l, s)
         == LeftIn(cs, results, scheduled, l, s) - One(t.concurrency in cs)
    decreases |cs|
  {
    if cs != [] {
      hide Next, Reran;
      var before, c := cs[..|cs| - 1], cs[|cs| - 1];
      assert cs == before + [c] && c !in before;
      LeftAfterRerun(before, results, scheduled, after, l, s, t);
      NextsAfterRerun(results, scheduled, after, l, t);
    }
  }

  /** A target that is ready costs exactly one of them, whether its rerun succeeds or not. */
  lemma RerunCostsOne(results: seq<Entry>, scheduled: seq<Entry>, after: seq<Entry>, l: Language, s: Settings, t: Target)
    requires ReadyOne(t, results, scheduled, l, s)
    requires Reran(results, after, Entry(l, t.concurrency, t.repeat))
    ensures Total(after, scheduled + [Entry(l, t.concurrency, t.repeat)], l, s) == Total(results, scheduled, l, s) - 1
  {
    hide Reran, LeftIn, Next, Cases;
    CasesAfterRerun(results, after, Entry(l, t.concurrency, t.repeat), l);
    LeftAfterRerun(Cases(results, l), results, scheduled, after, l, s, t);
  }

  // ---------- Targets of one round ----------

  ghost predicate ReadyOne(t: Target, results: seq<Entry>, scheduled: seq<Entry>, l: Language, s: Settings) {
    && t.concurrency in Cases(results, l)
    && t.repeat == Next(results, scheduled, l, t.concurrency)
    && Due(s, t.repeat)
  }

  ghost predicate Ready(ts: seq<Target>, results: seq<Entry>, scheduled: seq<Entry>, l: Language, s: Settings) {
    Ascending(ts) && forall t :: t in ts ==> ReadyOne(t, results, scheduled, l, s)
  }

  lemma CollectedAreReady(ts: seq<Target>, results: seq<Entry>, scheduled: seq<Entry>, l: Language, s: Settings,
                          qualifies: (seq<Entry>, Concurrency) -> bool)
    requires Collected(ts, results, scheduled, l, s, Cases(results, l), qualifies)
    ensures Ready(ts[0..], results, scheduled, l, s)
  {
    hide Cases, Next;
    forall t | t in ts
      ensures ReadyOne(t, results, scheduled, l, s)
    {
      assert Target(t.concurrency, t.repeat) in ts;
    }
  }

  lemma NothingToDo(ts: seq<Target>, results: seq<Entry>, scheduled: seq<Entry>, l: Language, s: Settings,
                    qualifies: (seq<Entry>, Concurrency) -> bool)
    requires Collected(ts, results, scheduled, l, s, Cases(results, l), qualifies)
    ensures ts == [] ==> forall c :: c in Cases(results, l) && qualifies(results, c) ==> !Due(s, Next(results, scheduled, l, c))
  {
    hide Cases, Next;
    forall c | c in Cases(results, l) && qualifies(results, c) && ts == []
      ensures !Due(s, Next(results, scheduled, l, c))
    {
      assert Target(c, Next(results, scheduled, l, c)) !in ts;
    }
  }

  lemma OthersStayReady(t: Target, rest: seq<Target>, results: seq<Entry>, scheduled: seq<Entry>, after: seq<Entry>,
                        l: Language, s: Settings)
    requires Ready([t] + rest, results, scheduled, l, s)
    requires Reran(results, after, Entry(l, t.concurrency, t.repeat))
    ensures Ready(rest, after, scheduled + [Entry(l, t.concurrency, t.repeat)], l, s)
  {
    hide Cases, Next, Reran;
    var e := Entry(l, t.concurrency, t.repeat);
    assert t in [t] + rest && ([t] + rest)[0] == t;
    CasesAfterRerun(results, after, e, l);
    NextsAfterRerun(results, scheduled, after, l, t);
    forall k, m | 0 <= k < m < |rest|
      ensures rest[k].concurrency < rest[m].concurrency
    {
      assert rest[k] == ([t] + rest)[k + 1] && rest[m] == ([t] + rest)[m + 1];
    }
    forall u | u in rest
      ensures ReadyOne(u, after, scheduled + [e], l, s)
    {
      assert u in [t] + rest;
      var k :| 0 <= k < |rest| && rest[k] == u;
      assert ([t] + rest)[k + 1] == u;
    }
  }

  // ---------- From the start of the loop to now ----------

  ghost predicate Progressed(r0: seq<Entry>, s0: seq<Entry>, r1: seq<Entry>, s1: seq<Entry>, l: Language, s: Settings) {
    && s0 <= s1 && r0 <= r1
    && (forall k :: |r0| <= k < |r1| ==> r1[k].language == l)
    && |s1| - |s0| == Total(r0, s0, l, s) - Total(r1, s1, l, s)
    && Cases(r1, l) == Cases(r0, l)
    && (forall c :: Next(r0, s0, l, c) <= Next(r1, s1, l, c))
    && (forall k :: |s0| <= k < |s1| ==> Fresh(s1[k], r0, s0, l, s) && s1[k].repeat < Next(r1, s1, l, s1[k].concurrency))
    && (forall j, k :: |s0| <= j < k < |s1| && s1[j].concurrency == s1[k].concurrency ==> s1[j].repeat < s1[k].repeat)
  }

  /** A rerun of a known case of the language, at an index nothing had before the loop, within the additional ones. */
  ghost predicate Fresh(e: Entry, r0: seq<Entry>, s0: seq<Entry>, l: Language, s: Settings) {
    && e.language == l && e.concurrency in Cases(r0, l)
    && Next(r0, s0, l, e.concurrency) <= e.repeat < s.planned + s.additional
  }

  lemma HowManyWereScheduled(r0: seq<Entry>, s0: seq<Entry>, r1: seq<Entry>, s1: seq<Entry>, l: Language, s: Settings)
    requires Progressed(r0, s0, r1, s1, l, s)
    ensures |s1| == |s0| + Total(r0, s0, l, s) - Total(r1, s1, l, s)
  {
    hide Total, Cases, Next;
  }

  lemma NoProgressYet(r0: seq<Entry>, s0: seq<Entry>, l: Language, s: Settings)
    ensures Progressed(r0, s0, r0, s0, l, s)
  {
  }

  lemma ResultsGrow(r0: seq<Entry>, r1: seq<Entry>, after: seq<Entry>, e: Entry, l: Language)
    requires Reran(r1, after, e) && e.language == l
    requires r0 <= r1 && forall k :: |r0| <= k < |r1| ==> r1[k].language == l
    ensures r0 <= after && forall k :: |r0| <= k < |after| ==> after[k].language == l
  {
  }

  lemma RerunProgresses(r0: seq<Entry>, s0: seq<Entry>, r1: seq<Entry>, s1: seq<Entry>, after: seq<Entry>,
                        l: Language, s: Settings, t: Target)
    requires Progressed(r0, s0, r1, s1, l, s) && ReadyOne(t, r1, s1, l, s)
    requires Reran(r1, after, Entry(l, t.concurrency, t.repeat))
    ensures Progressed(r0, s0, after, s1 + [Entry(l, t.concurrency, t.repeat)], l, s)
    ensures Total(after, s1 + [Entry(l, t.concurrency, t.repeat)], l, s) == Total(r1, s1, l, s) - 1
  {
    hide Cases, Next, Reran, Total;
    var e := Entry(l, t.concurrency, t.repeat);
    var s2 := s1 + [e];
    RerunCostsOne(r1, s1, after, l, s, t);
    CasesAfterRerun(r1, after, e, l);
    NextsAfterRerun(r1, s1, after, l, t);
    ResultsGrow(r0, r1, after, e, l);
    forall k | |s0| <= k < |s2|
      ensures Fresh(s2[k], r0, s0, l, s) && s2[k].repeat < Next(after, s2, l, s2[k].concurrency)
    {
      if k < |s1| {
        assert s2[k] == s1[k];
      }
    }
  }

  // ---------- Main results ----------

  /** One case gets at most `additional` reruns exactly if its last planned repeat has a result. */
  lemma WithinAdditionalIff(s: Settings, next: nat)
    requires s.additional > 0
    ensures Left(s, next) <= s.additional <==> next >= s.planned
  {
  }

  lemma {:induction false} LeftAtMost(cs: seq<Concurrency>, results: seq<Entry>, scheduled: seq<Entry>, l: Language, s: Settings, bound: nat)
    requires forall c | c in cs :: Left(s, Next(results, scheduled, l, c)) <= bound
    ensures LeftIn(cs, results, scheduled, l, s) <= |cs| * bound
    decreases |cs|
  {
    if cs != [] {
      hide Left, Next;
      LeftAtMost(cs[..|cs| - 1], results, scheduled, l, s, bound);
      assert (|cs| - 1) * bound + bound == |cs| * bound;
    }
  }

  lemma {:induction false} LeftExactly(cs: seq<Concurrency>, results: seq<Entry>, scheduled: seq<Entry>, l: Language, s: Settings, each: nat)
    requires forall c | c in cs :: Left(s, Next(results, scheduled, l, c)) == each
    ensures LeftIn(cs, results, scheduled, l, s) == |cs| * each
    decreases |cs|
  {
    if cs != [] {
      hide Left, Next;
      LeftExactly(cs[..|cs| - 1], results, scheduled, l, s, each);
      assert (|cs| - 1) * each + each == |cs| * each;
    }
  }

  /**
   The orchestrator's estimate is an upper bound on all reruns of a language,
   provided the last planned repeat of each of its cases was recorded.
   */
  lemma EstimateHolds(results: seq<Entry>, scheduled: seq<Entry>, l: Language, s: Settings)
    requires forall c | c in Cases(results, l) :: After(results, l, c) >= s.planned
    ensures Total(results, scheduled, l, s) <= |Cases(results, l)| * s.additional
  {
    hide Cases, After, LeftIn;
    LeftAtMost(Cases(results, l), results, scheduled, l, s, s.additional);
  }

  /** Without that, one repeat less than all of them is what a case can use. */
  lemma GeneralBound(results: seq<Entry>, scheduled: seq<Entry>, l: Language, s: Settings)
    requires s.planned > 0
    ensures Total(results, scheduled, l, s) <= |Cases(results, l)| * (s.planned + s.additional - 1)
  {
    hide Cases, After, LeftIn;
    LeftAtMost(Cases(results, l), results, scheduled, l, s, s.planned + s.additional - 1);
  }

  /** That bound is met whenever only the first repeat of each case was recorded. */
  lemma GeneralBoundIsTight(results: seq<Entry>, l: Language, s: Settings)
    requires s.planned > 0 && s.additional > 0
    requires forall c | c in Cases(results, l) :: After(results, l, c) == 1
    ensures Total(results, [], l, s) == |Cases(results, l)| * (s.planned + s.additional - 1)
  {
    hide Cases, LeftIn;
    LeftExactly(Cases(results, l), results, [], l, s, s.planned + s.additional - 1);
  }

  /** When no case is due any more every rerun there was a budget for has been made. */
  lemma NothingLeft(results: seq<Entry>, scheduled: seq<Entry>, l: Language, s: Settings)
    requires forall c | c in Cases(results, l) :: !Due(s, Next(results, scheduled, l, c))
    ensures Total(results, scheduled, l, s) == 0
  {
    hide Cases, After, LeftIn;
    LeftExactly(Cases(results, l), results, scheduled, l, s, 0);
  }

  /**
   All reruns of a language, from what the loop guarantees about its run: at most
   the estimate if every case's last planned repeat was recorded; and if every
   case always qualifies exactly the budget, failed reruns included.
   */
  lemma RerunsAreBounded(r0: seq<Entry>, s0: seq<Entry>, r1: seq<Entry>, s1: seq<Entry>, l: Language, s: Settings)
    requires Progressed(r0, s0, r1, s1, l, s) && s.planned > 0
    ensures |s1| - |s0| <= |Cases(r0, l)| * (s.planned + s.additional - 1)
    ensures (forall c | c in Cases(r0, l) :: After(r0, l, c) >= s.planned) ==> |s1| - |s0| <= |Cases(r0, l)| * s.additional
    ensures (forall c | c in Cases(r1, l) :: !Due(s, Next(r1, s1, l, c))) ==> |s1| - |s0| == Total(r0, s0, l, s)
  {
    hide Total, Cases, After;
    GeneralBound(r0, s0, l, s);
    if forall c | c in Cases(r0, l) :: After(r0, l, c) >= s.planned {
      EstimateHolds(r0, s0, l, s);
    }
    if forall c | c in Cases(r1, l) :: !Due(s, Next(r1, s1, l, c)) {
      NothingLeft(r1, s1, l, s);
    }
  }
}
