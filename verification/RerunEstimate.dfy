/**
 All languages of a benchmark run together
 (benchmarks/orchestrator/src/main.rs): planned cases, then reruns, language by
 language, against the number of rerun steps announced before the run starts.
 */
module RerunEstimate {
  import opened AutoRerun
  import opened Counting
  import opened Products

  type Pair = (Language, Concurrency)

  /** max_auto_rerun_steps: the distinct cases of the matrix, each with all its additional repeats. */
  function MaxAutoRerunSteps(matrix: seq<Entry>, additional: nat): nat {
    |UniqueCases(matrix)| * additional
  }

  function UniqueCases(matrix: seq<Entry>): seq<Pair> {
    if matrix == [] then []
    else
      var before, e := UniqueCases(matrix[..|matrix| - 1]), matrix[|matrix| - 1];
      if (e.language, e.concurrency) in before then before else before + [(e.language, e.concurrency)]
  }

  /** The results of the planned cases of one language: two for each that works. */
  function Planned(matrix: seq<Entry>, l: Language, works: Entry -> bool): seq<Entry> {
    if matrix == [] then []
    else
      var before, e := Planned(matrix[..|matrix| - 1], l, works), matrix[|matrix| - 1];
      before + if e.language == l && works(e) then [e, e] else []
  }

  method RunPlanned(run: Run, matrix: seq<Entry>, l: Language, works: Entry -> bool)
    modifies run`results
    ensures run.results == old(run.results) + Planned(matrix, l, works)
  {
    for i := 0 to |matrix|
      invariant run.results == old(run.results) + Planned(matrix[..i], l, works)
    {
      var e := matrix[i];
      assert matrix[..i + 1][..i] == matrix[..i];
      if e.language == l {
        run.RunCase(e.language, e.concurrency, e.repeat, works(e));
        assert Entry(e.language, e.concurrency, e.repeat) == e;
      }
    }
    assert matrix[..|matrix|] == matrix;
  }

  /** Every planned result comes from a case of the matrix that worked, and each such case has one. */
  lemma {:induction false} PlannedAreThoseThatWork(matrix: seq<Entry>, l: Language, works: Entry -> bool, e: Entry)
    ensures e in Planned(matrix, l, works) <==> e in matrix && e.language == l && works(e)
    decreases |matrix|
  {
    if matrix != [] {
      PlannedAreThoseThatWork(matrix[..|matrix| - 1], l, works, e);
      assert matrix == matrix[..|matrix| - 1] + [matrix[|matrix| - 1]];
    }
  }

  ghost predicate NoneOf(es: seq<Entry>, l: Language) {
    forall e :: e in es ==> e.language != l
  }

  /** The last planned repeat of each case of the matrix worked. */
  ghost predicate LastRepeatsWork(matrix: seq<Entry>, planned: nat, works: Entry -> bool) {
    planned > 0 && forall e :: e in matrix ==>
      var last := Entry(e.language, e.concurrency, planned - 1);
      last in matrix && works(last)
  }

  lemma CasesComeFromMatrix(results: seq<Entry>, matrix: seq<Entry>, l: Language, works: Entry -> bool, c: Concurrency)
    requires NoneOf(results, l) && c in Cases(results + Planned(matrix, l, works), l)
    ensures c in Cases(matrix, l)
  {
    hide Cases, After, Planned;
    var all := results + Planned(matrix, l, works);
    assert After(all, l, c) > 0;
    var e :| e in all && Belongs(e, l, c);
    assert e in Planned(matrix, l, works);
    PlannedAreThoseThatWork(matrix, l, works, e);
    assert After(matrix, l, c) > 0;
  }

  lemma LastRepeatRecorded(results: seq<Entry>, matrix: seq<Entry>, l: Language, works: Entry -> bool, planned: nat, c: Concurrency)
    requires LastRepeatsWork(matrix, planned, works) && c in Cases(matrix, l)
    ensures After(results + Planned(matrix, l, works), l, c) >= planned
  {
    hide Cases, After, Planned;
    assert After(matrix, l, c) > 0;
    var e :| e in matrix && Belongs(e, l, c);
    var last := Entry(e.language, e.concurrency, planned - 1);
    PlannedAreThoseThatWork(matrix, l, works, last);
    assert last in results + Planned(matrix, l, works) && Belongs(last, l, c);
  }

  lemma {:induction false} NoMoreThan(xs: seq<Concurrency>, ys: seq<Concurrency>)
    requires forall i, j :: 0 <= i < j < |xs| ==> xs[i] != xs[j]
    requires forall x :: x in xs ==> x in ys
    ensures |xs| <= |ys|
    decreases |xs|
  {
    if xs != [] {
      var x := xs[|xs| - 1];
      assert x in xs;
      var k :| 0 <= k < |ys| && ys[k] == x;
      var rest := ys[..k] + ys[k + 1..];
      forall y | y in xs[..|xs| - 1]
        ensures y in rest
      {
        var i :| 0 <= i < |xs| - 1 && xs[i] == y;
        assert y in ys;
      }
      NoMoreThan(xs[..|xs| - 1], rest);
    }
  }

  lemma {:induction false} UniqueIffCase(matrix: seq<Entry>, l: Language, c: Concurrency)
    ensures (l, c) in UniqueCases(matrix) <==> c in Cases(matrix, l)
    decreases |matrix|
  {
    if matrix != [] {
      var before, e := matrix[..|matrix| - 1], matrix[|matrix| - 1];
      hide After;
      UniqueIffCase(before, l, c);
      UniqueIffCase(before, e.language, e.concurrency);
    }
  }

  /** The cases of several languages, added up. */
  function CasesIn(matrix: seq<Entry>, ls: seq<Language>): nat {
    if ls == [] then 0 else CasesIn(matrix, ls[..|ls| - 1]) + |Cases(matrix, ls[|ls| - 1])|
  }

  predicate Distinct(ls: seq<Language>) {
    forall i, j :: 0 <= i < j < |ls| ==> ls[i] != ls[j]
  }

  lemma CasesOfLast(matrix: seq<Entry>, l: Language)
    requires matrix != []
    ensures var before, e := matrix[..|matrix| - 1], matrix[|matrix| - 1];
            |Cases(matrix, l)| == |Cases(before, l)| + One(e.language == l && e.concurrency !in Cases(before, e.language))
  {
    hide After;
  }

  lemma {:induction false} CasesInOfLast(matrix: seq<Entry>, ls: seq<Language>)
    requires matrix != [] && Distinct(ls)
    ensures var before, e := matrix[..|matrix| - 1], matrix[|matrix| - 1];
            CasesIn(matrix, ls) == CasesIn(before, ls) + One(e.language in ls && e.concurrency !in Cases(before, e.language))
    decreases |ls|
  {
    if ls != [] {
      hide Cases, After;
      var l := ls[|ls| - 1];
      CasesInOfLast(matrix, ls[..|ls| - 1]);
      CasesOfLast(matrix, l);
      assert l !in ls[..|ls| - 1];
      assert ls == ls[..|ls| - 1] + [l];
    }
  }

  /** Distinct languages share no case. */
  lemma {:induction false} CasesInAreUnique(matrix: seq<Entry>, ls: seq<Language>)
    requires Distinct(ls)
    ensures CasesIn(matrix, ls) <= |UniqueCases(matrix)|
    decreases |matrix|
  {
    if matrix == [] {
      NoCases(ls);
    } else {
      hide Cases, After, CasesIn;
      var before, e := matrix[..|matrix| - 1], matrix[|matrix| - 1];
      CasesInAreUnique(before, ls);
      CasesInOfLast(matrix, ls);
      UniqueIffCase(before, e.language, e.concurrency);
    }
  }

  lemma {:induction false} NoCases(ls: seq<Language>)
    ensures CasesIn([], ls) == 0
    decreases |ls|
  {
    if ls != [] {
      NoCases(ls[..|ls| - 1]);
    }
  }

  /** If the languages are those of the matrix, nothing is left out either. */
  lemma {:induction false} CasesInAreAll(matrix: seq<Entry>, ls: seq<Language>)
    requires Distinct(ls) && Covers(ls, matrix)
    ensures CasesIn(matrix, ls) == |UniqueCases(matrix)|
    decreases |matrix|
  {
    if matrix == [] {
      NoCases(ls);
    } else {
      hide Cases, After, CasesIn;
      var before, e := matrix[..|matrix| - 1], matrix[|matrix| - 1];
      assert e in matrix;
      CasesInAreAll(before, ls);
      CasesInOfLast(matrix, ls);
      UniqueIffCase(before, e.language, e.concurrency);
    }
  }

  ghost predicate Covers(ls: seq<Language>, matrix: seq<Entry>) {
    forall e :: e in matrix ==> e.language in ls
  }

  // ---------- What the languages may ask for ----------

  /** The reruns one language may use, from its planned results alone. */
  function Budget(matrix: seq<Entry>, l: Language, s: Settings, works: Entry -> bool): nat {
    Total(Planned(matrix, l, works), [], l, s)
  }

  function Budgets(matrix: seq<Entry>, ls: seq<Language>, s: Settings, works: Entry -> bool): nat {
    if ls == [] then 0
    else Budgets(matrix, ls[..|ls| - 1], s, works) + Budget(matrix, ls[|ls| - 1], s, works)
  }

  lemma {:induction false} ForeignEntries(before: seq<Entry>, own: seq<Entry>, l: Language, c: Concurrency)
    requires NoneOf(before, l)
    ensures After(before + own, l, c) == After(own, l, c)
    ensures Cases(before + own, l) == Cases(own, l)
    decreases |own|
  {
    if own == [] {
      assert before + own == before;
      NothingOf(before, l, c);
    } else {
      var n := |own| - 1;
      ForeignEntries(before, own[..n], l, c);
      assert (before + own)[..|before + own| - 1] == before + own[..n];
    }
  }

  lemma {:induction false} NothingOf(es: seq<Entry>, l: Language, c: Concurrency)
    requires NoneOf(es, l)
    ensures After(es, l, c) == 0 && Cases(es, l) == []
    decreases |es|
  {
    if es != [] {
      assert es[|es| - 1] in es;
      NothingOf(es[..|es| - 1], l, c);
    }
  }

  lemma {:induction false} SameLeft(cs: seq<Concurrency>, r0: seq<Entry>, s0: seq<Entry>, r1: seq<Entry>, s1: seq<Entry>, l: Language, s: Settings)
    requires forall c :: Next(r0, s0, l, c) == Next(r1, s1, l, c)
    ensures LeftIn(cs, r0, s0, l, s) == LeftIn(cs, r1, s1, l, s)
    decreases |cs|
  {
    if cs != [] {
      hide Next;
      SameLeft(cs[..|cs| - 1], r0, s0, r1, s1, l, s);
    }
  }

  /** Other languages' results and reruns do not count. */
  lemma BudgetIsOwn(before: seq<Entry>, scheduled: seq<Entry>, matrix: seq<Entry>, l: Language, s: Settings, works: Entry -> bool)
    requires NoneOf(before, l) && NoneOf(scheduled, l)
    ensures Total(before + Planned(matrix, l, works), scheduled, l, s) == Budget(matrix, l, s, works)
  {
    hide Planned, Cases, After, LeftIn;
    var own := Planned(matrix, l, works);
    forall c
      ensures Next(before + own, scheduled, l, c) == Next(own, [], l, c)
    {
      ForeignEntries(before, own, l, c);
      NothingOf(scheduled, l, c);
      NothingOf([], l, c);
    }
    ForeignEntries(before, own, l, 0);
    SameLeft(Cases(own, l), before + own, scheduled, own, [], l, s);
  }

  lemma CasesOfPlanned(matrix: seq<Entry>, l: Language, works: Entry -> bool)
    ensures |Cases(Planned(matrix, l, works), l)| <= |Cases(matrix, l)|
  {
    hide Cases, After, Planned;
    var own := Planned(matrix, l, works);
    forall c | c in Cases(own, l)
      ensures c in Cases(matrix, l)
    {
      assert [] + own == own;
      CasesComeFromMatrix([], matrix, l, works, c);
    }
    NoMoreThan(Cases(own, l), Cases(matrix, l));
  }

  /** At most all repeats but one for each case of the language; at most the additional ones if last repeats work. */
  lemma BudgetBounds(matrix: seq<Entry>, l: Language, s: Settings, works: Entry -> bool)
    requires s.planned > 0
    ensures Budget(matrix, l, s, works) <= |Cases(matrix, l)| * (s.planned + s.additional - 1)
    ensures LastRepeatsWork(matrix, s.planned, works) ==> Budget(matrix, l, s, works) <= |Cases(matrix, l)| * s.additional
  {
    hide Cases, After, Planned, Total;
    var own := Planned(matrix, l, works);
    CasesOfPlanned(matrix, l, works);
    GeneralBound(own, [], l, s);
    Scaled(|Cases(own, l)|, |Cases(matrix, l)|, s.planned + s.additional - 1);
    Scaled(|Cases(own, l)|, |Cases(matrix, l)|, s.additional);
    if LastRepeatsWork(matrix, s.planned, works) {
      forall c | c in Cases(own, l)
        ensures After(own, l, c) >= s.planned
      {
        assert [] + own == own;
        CasesComeFromMatrix([], matrix, l, works, c);
        LastRepeatRecorded([], matrix, l, works, s.planned, c);
      }
      EstimateHolds(own, [], l, s);
    }
  }

  /** Each case's first repeat works and no other does. */
  ghost predicate OnlyFirstRepeatsWork(matrix: seq<Entry>, works: Entry -> bool) {
    forall e :: e in matrix ==>
      && (works(e) ==> e.repeat == 0)
      && var first := Entry(e.language, e.concurrency, 0);
         first in matrix && works(first)
  }

  lemma FirstRepeatsPlanned(matrix: seq<Entry>, l: Language, works: Entry -> bool, c: Concurrency)
    requires OnlyFirstRepeatsWork(matrix, works)
    ensures c in Cases(matrix, l) ==> After(Planned(matrix, l, works), l, c) == 1
  {
    if c in Cases(matrix, l) {
      var own := Planned(matrix, l, works);
      hide Cases, Planned;
      assert After(matrix, l, c) > 0;
      var e :| e in matrix && Belongs(e, l, c);
      var first := Entry(l, c, 0);
      PlannedAreThoseThatWork(matrix, l, works, first);
      forall x | x in own
        ensures x.repeat == 0
      {
        PlannedAreThoseThatWork(matrix, l, works, x);
      }
      NoneAbove(own, l, c);
    }
  }

  lemma {:induction false} NoneAbove(es: seq<Entry>, l: Language, c: Concurrency)
    requires forall x | x in es :: x.repeat == 0
    ensures After(es, l, c) <= 1
    decreases |es|
  {
    if es != [] {
      assert es[|es| - 1] in es;
      NoneAbove(es[..|es| - 1], l, c);
    }
  }

  lemma BudgetOfFirstRepeats(matrix: seq<Entry>, l: Language, s: Settings, works: Entry -> bool)
    requires OnlyFirstRepeatsWork(matrix, works) && s.planned > 0 && s.additional > 0
    ensures Budget(matrix, l, s, works) == |Cases(matrix, l)| * (s.planned + s.additional - 1)
  {
    hide Cases, After, Planned, Total;
    var own := Planned(matrix, l, works);
    forall c | c in Cases(matrix, l)
      ensures After(own, l, c) == 1 && c in Cases(own, l)
    {
      FirstRepeatsPlanned(matrix, l, works, c);
    }
    forall c | c in Cases(own, l)
      ensures After(own, l, c) == 1
    {
      assert [] + own == own;
      CasesComeFromMatrix([], matrix, l, works, c);
    }
    CasesOfPlanned(matrix, l, works);
    NoMoreThan(Cases(matrix, l), Cases(own, l));
    GeneralBoundIsTight(own, l, s);
  }

  lemma Added(a: nat, b: nat, k: nat)
    ensures (a + b) * k == a * k + b * k
  {
  }

  lemma {:induction false} BudgetsInCases(matrix: seq<Entry>, ls: seq<Language>, s: Settings, works: Entry -> bool)
    requires s.planned > 0
    ensures Budgets(matrix, ls, s, works) <= CasesIn(matrix, ls) * (s.planned + s.additional - 1)
    ensures LastRepeatsWork(matrix, s.planned, works) ==> Budgets(matrix, ls, s, works) <= CasesIn(matrix, ls) * s.additional
    ensures OnlyFirstRepeatsWork(matrix, works) && s.additional > 0 ==>
      Budgets(matrix, ls, s, works) == CasesIn(matrix, ls) * (s.planned + s.additional - 1)
    decreases |ls|
  {
    hide Cases, Budget, LastRepeatsWork, OnlyFirstRepeatsWork;
    if ls != [] {
      var before, l := ls[..|ls| - 1], ls[|ls| - 1];
      BudgetsInCases(matrix, before, s, works);
      BudgetBounds(matrix, l, s, works);
      Added(CasesIn(matrix, before), |Cases(matrix, l)|, s.planned + s.additional - 1);
      Added(CasesIn(matrix, before), |Cases(matrix, l)|, s.additional);
      if OnlyFirstRepeatsWork(matrix, works) && s.additional > 0 {
        BudgetOfFirstRepeats(matrix, l, s, works);
      }
    }
  }

  /**
   The announced estimate bounds what all languages may ask for if the last
   planned repeat of every case works; in general a case may ask for all repeats
   but one; and if only first repeats work every case does, which is above the
   estimate as soon as more than one repeat is planned.
   */
  lemma BudgetsAgainstEstimate(matrix: seq<Entry>, ls: seq<Language>, s: Settings, works: Entry -> bool)
    requires Distinct(ls) && s.planned > 0
    ensures Budgets(matrix, ls, s, works) <= |UniqueCases(matrix)| * (s.planned + s.additional - 1)
    ensures LastRepeatsWork(matrix, s.planned, works) ==> Budgets(matrix, ls, s, works) <= MaxAutoRerunSteps(matrix, s.additional)
    ensures OnlyFirstRepeatsWork(matrix, works) && Covers(ls, matrix) && s.additional > 0 ==>
      && Budgets(matrix, ls, s, works) == |UniqueCases(matrix)| * (s.planned + s.additional - 1)
      && (matrix != [] && s.planned > 1 ==> Budgets(matrix, ls, s, works) > MaxAutoRerunSteps(matrix, s.additional))
  {
    hide Budgets, CasesIn, LastRepeatsWork, OnlyFirstRepeatsWork, Covers, UniqueCases;
    BudgetsInCases(matrix, ls, s, works);
    CasesInAreUnique(matrix, ls);
    Scaled(CasesIn(matrix, ls), |UniqueCases(matrix)|, s.planned + s.additional - 1);
    Scaled(CasesIn(matrix, ls), |UniqueCases(matrix)|, s.additional);
    if Covers(ls, matrix) {
      CasesInAreAll(matrix, ls);
      if matrix != [] && s.planned > 1 {
        SomeCase(matrix);
        MoreRepeats(|UniqueCases(matrix)|, s.additional, s.planned);
      }
    }
  }

  lemma SomeCase(matrix: seq<Entry>)
    requires matrix != []
    ensures |UniqueCases(matrix)| > 0
  {
  }

  lemma MoreRepeats(n: nat, additional: nat, planned: nat)
    requires n > 0 && planned > 1
    ensures n * (planned + additional - 1) > n * additional
  {
    assert n * (planned + additional - 1) == n * additional + n * (planned - 1);
  }

  // ---------- The loop over the languages ----------

  lemma OthersUntouched(before: seq<Entry>, matrix: seq<Entry>, l: Language, other: Language, works: Entry -> bool, s: Settings,
                        s0: seq<Entry>, r1: seq<Entry>, s1: seq<Entry>)
    requires NoneOf(before, other) && NoneOf(s0, other) && other != l
    requires Progressed(before + Planned(matrix, l, works), s0, r1, s1, l, s)
    ensures NoneOf(r1, other) && NoneOf(s1, other)
  {
    hide Planned, Cases, Next, Total;
    var r0 := before + Planned(matrix, l, works);
    forall e | e in r1
      ensures e.language != other
    {
      var k :| 0 <= k < |r1| && r1[k] == e;
      if k < |before| {
        assert r1[k] == before[k];
      } else if k < |r0| {
        assert r1[k] == r0[k] && r0[k] in Planned(matrix, l, works);
        PlannedAreThoseThatWork(matrix, l, works, e);
      }
    }
    forall e | e in s1
      ensures e.language != other
    {
      var k :| 0 <= k < |s1| && s1[k] == e;
      if k < |s0| {
        assert s1[k] == s0[k];
      }
    }
  }

  /** With `i` languages behind it the later ones are untouched. */
  ghost predicate Ahead(results: seq<Entry>, scheduled: seq<Entry>, ls: seq<Language>, i: nat) {
    forall k :: i <= k < |ls| ==> NoneOf(results, ls[k]) && NoneOf(scheduled, ls[k])
  }

  lemma AheadNext(before: seq<Entry>, s0: seq<Entry>, r1: seq<Entry>, s1: seq<Entry>, matrix: seq<Entry>,
                  ls: seq<Language>, i: nat, s: Settings, works: Entry -> bool)
    requires Ahead(before, s0, ls, i) && i < |ls| && Distinct(ls)
    requires Progressed(before + Planned(matrix, ls[i], works), s0, r1, s1, ls[i], s)
    ensures Ahead(r1, s1, ls, i + 1)
  {
    hide NoneOf, Planned, Progressed;
    forall k | i < k < |ls|
      ensures NoneOf(r1, ls[k]) && NoneOf(s1, ls[k])
    {
      OthersUntouched(before, matrix, ls[i], ls[k], works, s, s0, r1, s1);
    }
  }

  lemma BudgetsOfAppend(matrix: seq<Entry>, ls: seq<Language>, i: nat, s: Settings, works: Entry -> bool)
    requires i < |ls|
    ensures Budgets(matrix, ls[..i + 1], s, works) == Budgets(matrix, ls[..i], s, works) + Budget(matrix, ls[i], s, works)
  {
    hide Budget;
    assert ls[..i + 1][..i] == ls[..i];
  }

  /**
   All languages schedule at most what they may ask for, and exactly that if
   every case always qualifies, whether its reruns succeed or not.
   */
  method RunLanguages(run: Run, matrix: seq<Entry>, ls: seq<Language>, s: Settings,
                      qualifies: (seq<Entry>, Concurrency) -> bool, works: Entry -> bool, succeeds: nat -> bool)
    requires run.results == [] && run.scheduled == []
    requires Distinct(ls) && s.planned > 0
    modifies run
    ensures |run.scheduled| <= Budgets(matrix, ls, s, works)
    ensures AlwaysQualify(qualifies) ==> |run.scheduled| == Budgets(matrix, ls, s, works)
    ensures |run.scheduled| <= |UniqueCases(matrix)| * (s.planned + s.additional - 1)
    ensures LastRepeatsWork(matrix, s.planned, works) ==> |run.scheduled| <= MaxAutoRerunSteps(matrix, s.additional)
  {
    hide Ahead, LastRepeatsWork, OnlyFirstRepeatsWork, Planned, Progressed, UniqueCases, MaxAutoRerunSteps, Cases, Total,
      Budget, Budgets, AlwaysQualify, Next, Due, NoneOf;
    AheadAtStart(ls);
    BudgetsOfNone(matrix, ls, s, works);
    for i := 0 to |ls|
      invariant Ahead(run.results, run.scheduled, ls, i)
      invariant |run.scheduled| <= Budgets(matrix, ls[..i], s, works)
      invariant AlwaysQualify(qualifies) ==> |run.scheduled| == Budgets(matrix, ls[..i], s, works)
    {
      ghost var before, s0 := run.results, run.scheduled;
      RunPlanned(run, matrix, ls[i], works);
      run.RerunLanguage(ls[i], s, qualifies, succeeds);
      UntouchedBefore(before, s0, ls, i);
      BudgetIsOwn(before, s0, matrix, ls[i], s, works);
      BudgetsOfAppend(matrix, ls, i, s, works);
      AheadNext(before, s0, run.results, run.scheduled, matrix, ls, i, s, works);
    }
    BudgetsAgainstEstimate(matrix, ls, s, works);
  }

  lemma AheadAtStart(ls: seq<Language>)
    ensures Ahead([], [], ls, 0)
  {
  }

  lemma UntouchedBefore(results: seq<Entry>, scheduled: seq<Entry>, ls: seq<Language>, i: nat)
    requires Ahead(results, scheduled, ls, i) && i < |ls|
    ensures NoneOf(results, ls[i]) && NoneOf(scheduled, ls[i])
  {
    hide NoneOf;
  }

  lemma BudgetsOfNone(matrix: seq<Entry>, ls: seq<Language>, s: Settings, works: Entry -> bool)
    ensures ls[..|ls|] == ls && ls[..0] == [] && Budgets(matrix, [], s, works) == 0
  {
  }

  /**
   A run that goes past its announced steps: any matrix with several planned
   repeats whose first ones work and whose others fail, as long as no statistics
   are good enough, all reruns failing as well.
   */
  method RunPastTheEstimate(matrix: seq<Entry>, ls: seq<Language>, s: Settings) returns (run: Run)
    requires Distinct(ls) && Covers(ls, matrix) && matrix != [] && s.planned > 1 && s.additional > 0
    requires OnlyFirstRepeatsWork(matrix, (e: Entry) => e.repeat == 0)
    ensures fresh(run)
    ensures |run.scheduled| == |UniqueCases(matrix)| * (s.planned + s.additional - 1)
    ensures |run.scheduled| > MaxAutoRerunSteps(matrix, s.additional)
  {
    hide Budgets, OnlyFirstRepeatsWork, Covers, UniqueCases, LastRepeatsWork;
    run := new Run();
    var works := (e: Entry) => e.repeat == 0;
    var always := (results: seq<Entry>, c: Concurrency) => true;
    RunLanguages(run, matrix, ls, s, always, works, k => false);
    BudgetsAgainstEstimate(matrix, ls, s, works);
  }
}
