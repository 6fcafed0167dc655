/**
 The benchmark matrix (benchmarks/orchestrator/src/config.rs) and the order in
 which the orchestrator executes it (main.rs): every language, concurrency level
 and repeat once, optionally shuffled, then grouped by language.
 */
module CaseMatrix {
  import opened Occurrences
  import opened Options
  import opened SeededShuffle

  datatype Case<L> = Case(language: L, concurrency: nat, repeat: nat)

  datatype Config<L> = Config(languages: seq<L>, concurrencies: seq<nat>, repeat: nat)

  // ---------- The product ----------

  function Repeats<L>(l: L, c: nat, n: nat): seq<Case<L>> {
    if n == 0 then [] else Repeats(l, c, n - 1) + [Case(l, c, n - 1)]
  }

  function Levels<L>(l: L, cs: seq<nat>, n: nat): seq<Case<L>> {
    if cs == [] then [] else Levels(l, cs[..|cs| - 1], n) + Repeats(l, cs[|cs| - 1], n)
  }

  function Product<L>(ls: seq<L>, cs: seq<nat>, n: nat): seq<Case<L>> {
    if ls == [] then [] else Product(ls[..|ls| - 1], cs, n) + Levels(ls[|ls| - 1], cs, n)
  }

  function Matrix<L>(cfg: Config<L>, seed: Option<Word>): seq<Case<L>> {
    var all := Product(cfg.languages, cfg.concurrencies, cfg.repeat);
    if seed.Some? then Shuffled(all, seed.value) else all
  }

  method ShuffledCopy<L>(cases: seq<Case<L>>, seed: Word) returns (shuffled: seq<Case<L>>)
    ensures shuffled == Shuffled(cases, seed)
  {
    hide Shuffled;
    var a := new Case<L>[|cases|](i requires 0 <= i < |cases| => cases[i]);
    assert a[..] == cases;
    ShuffleCases(a, seed);
    shuffled := a[..];
  }

  lemma RepeatsNext<L>(l: L, c: nat, k: nat)
    ensures Repeats(l, c, k + 1) == Repeats(l, c, k) + [Case(l, c, k)] && Repeats(l, c, 0) == []
  {
  }

  lemma LevelsNext<L>(l: L, cs: seq<nat>, j: nat, n: nat)
    requires j < |cs|
    ensures Levels(l, cs[..j + 1], n) == Levels(l, cs[..j], n) + Repeats(l, cs[j], n)
  {
    assert cs[..j + 1][..j] == cs[..j];
  }

  lemma ProductNext<L>(ls: seq<L>, cs: seq<nat>, i: nat, n: nat)
    requires i < |ls|
    ensures Product(ls[..i + 1], cs, n) == Product(ls[..i], cs, n) + Levels(ls[i], cs, n)
  {
    assert ls[..i + 1][..i] == ls[..i];
  }

  lemma Whole<T>(s: seq<T>)
    ensures s[..0] == [] && s[..|s|] == s
  {
  }

  /** The innermost loop: the repeats of one language and level. */
  method PushRepeats<L>(l: L, c: nat, n: nat, before: seq<Case<L>>) returns (cases: seq<Case<L>>)
    ensures cases == before + Repeats(l, c, n)
  {
    cases := before;
    RepeatsNext(l, c, 0);
    for k := 0 to n
      invariant cases == before + Repeats(l, c, k)
    {
      hide Repeats;
      RepeatsNext(l, c, k);
      cases := cases + [Case(l, c, k)];
    }
  }

  /** The middle loop: the levels of one language. */
  method PushLevels<L>(l: L, cs: seq<nat>, n: nat, before: seq<Case<L>>) returns (cases: seq<Case<L>>)
    ensures cases == before + Levels(l, cs, n)
  {
    cases := before;
    Whole(cs);
    for j := 0 to |cs|
      invariant cases == before + Levels(l, cs[..j], n)
    {
      hide Levels, Repeats;
      LevelsNext(l, cs, j, n);
      cases := PushRepeats(l, cs[j], n, cases);
    }
  }

  method TestMatrixWithSeed<L>(cfg: Config<L>, seed: Option<Word>) returns (cases: seq<Case<L>>)
    ensures cases == Matrix(cfg, seed)
  {
    cases := [];
    Whole(cfg.languages);
    for i := 0 to |cfg.languages|
      invariant cases == Product(cfg.languages[..i], cfg.concurrencies, cfg.repeat)
    {
      hide Product, Levels;
      ProductNext(cfg.languages, cfg.concurrencies, i, cfg.repeat);
      cases := PushLevels(cfg.languages[i], cfg.concurrencies, cfg.repeat, cases);
    }
    if seed.Some? {
      cases := ShuffledCopy(cases, seed.value);
    }
  }

  lemma {:induction false} RepeatsOnce<L>(l: L, c: nat, n: nat, x: Case<L>)
    ensures Times(Repeats(l, c, n), x) == if x.language == l && x.concurrency == c && x.repeat < n then 1 else 0
  {
    if n > 0 {
      RepeatsOnce(l, c, n - 1, x);
      TimesOfAppend(Repeats(l, c, n - 1), Case(l, c, n - 1), x);
    }
  }

  lemma {:induction false} LevelsOnce<L>(l: L, cs: seq<nat>, n: nat, x: Case<L>)
    ensures Times(Levels(l, cs, n), x) == if x.language == l && x.repeat < n then Times(cs, x.concurrency) else 0
    decreases |cs|
  {
    if cs != [] {
      var before, c := cs[..|cs| - 1], cs[|cs| - 1];
      LevelsOnce(l, before, n, x);
      RepeatsOnce(l, c, n, x);
      TimesOfConcat(Levels(l, before, n), Repeats(l, c, n), x);
    }
  }

  /** How often the config asks for a case: once for every listing of its language and its level. */
  function Configured<L(==)>(cfg: Config<L>, x: Case<L>): nat {
    if x.repeat < cfg.repeat then Times(cfg.languages, x.language) * Times(cfg.concurrencies, x.concurrency) else 0
  }

  lemma ConfiguredOfLast<L>(ls: seq<L>, cs: seq<nat>, n: nat, x: Case<L>)
    requires ls != []
    ensures Configured(Config(ls, cs, n), x) == Configured(Config(ls[..|ls| - 1], cs, n), x)
          + if x.language == ls[|ls| - 1] && x.repeat < n then Times(cs, x.concurrency) else 0
  {
    var b := Times(cs, x.concurrency);
    assert forall a: nat :: (a + 1) * b == a * b + b;
  }

  lemma {:induction false} ProductOnce<L>(ls: seq<L>, cs: seq<nat>, n: nat, x: Case<L>)
    ensures Times(Product(ls, cs, n), x) == Configured(Config(ls, cs, n), x)
    decreases |ls|
  {
    hide Levels, Configured;
    if ls == [] {
      NothingConfigured(cs, n, x);
    } else {
      var before, l := ls[..|ls| - 1], ls[|ls| - 1];
      hide Times;
      ProductOnce(before, cs, n, x);
      LevelsOnce(l, cs, n, x);
      TimesOfConcat(Product(before, cs, n), Levels(l, cs, n), x);
      ConfiguredOfLast(ls, cs, n, x);
    }
  }

  lemma NothingConfigured<L>(cs: seq<nat>, n: nat, x: Case<L>)
    ensures Configured(Config([], cs, n), x) == 0
  {
  }

  /** Whatever the seed, the matrix holds each case exactly as often as it is configured. */
  lemma MatrixOnce<L(!new)>(cfg: Config<L>, seed: Option<Word>, x: Case<L>)
    ensures Times(Matrix(cfg, seed), x) == Configured(cfg, x)
  {
    hide Times, Product, Shuffled;
    var all := Product(cfg.languages, cfg.concurrencies, cfg.repeat);
    ProductOnce(cfg.languages, cfg.concurrencies, cfg.repeat, x);
    if seed.Some? {
      ShuffledPermutes(all, seed.value);
      PermutationsShareElements(Shuffled(all, seed.value), all);
    }
  }

  // ---------- Grouping by language ----------

  /** `settings` stands for the port, the path and the like. */
  datatype Language = Language(name: string, runtime: string, settings: nat)

  function Key(l: Language): string {
    l.name + "|" + l.runtime
  }

  predicate SameKey(a: Language, b: Language) {
    Key(a) == Key(b)
  }

  predicate SameName(a: Language, b: Language) {
    a.name == b.name && a.runtime == b.runtime
  }

  /** The first language of each key, in matrix order. */
  function Firsts(cases: seq<Case<Language>>): seq<Language> {
    if cases == [] then []
    else
      var before, l := Firsts(cases[..|cases| - 1]), cases[|cases| - 1].language;
      if exists u :: u in before && SameKey(u, l) then before else before + [l]
  }

  function CasesOf(cases: seq<Case<Language>>, l: Language): seq<Case<Language>> {
    if cases == [] then []
    else
      var before, c := CasesOf(cases[..|cases| - 1], l), cases[|cases| - 1];
      if SameName(c.language, l) then before + [c] else before
  }

  /** The cases that are executed, language by language. */
  function Grouped(ls: seq<Language>, cases: seq<Case<Language>>): seq<Case<Language>> {
    if ls == [] then [] else Grouped(ls[..|ls| - 1], cases) + CasesOf(cases, ls[|ls| - 1])
  }

  function Executed(cases: seq<Case<Language>>): seq<Case<Language>> {
    Grouped(Firsts(cases), cases)
  }

  ghost predicate SeenAre(seen: set<string>, ls: seq<Language>) {
    forall k :: k in seen <==> exists u :: u in ls && Key(u) == k
  }

  lemma SeenDecides(seen: set<string>, ls: seq<Language>, l: Language)
    requires SeenAre(seen, ls)
    ensures Key(l) in seen <==> exists u :: u in ls && SameKey(u, l)
    ensures SeenAre(seen + {Key(l)}, ls + [l])
  {
    if Key(l) in seen {
      var u :| u in ls && Key(u) == Key(l);
      assert SameKey(u, l);
    }
    forall k
      ensures k in seen + {Key(l)} <==> exists u :: u in ls + [l] && Key(u) == k
    {
      if k in seen {
        var u :| u in ls && Key(u) == k;
        assert u in ls + [l];
      }
      assert l in ls + [l];
    }
  }

  lemma FirstsOfAppend(cases: seq<Case<Language>>, c: Case<Language>)
    ensures Firsts(cases + [c]) ==
      if exists u :: u in Firsts(cases) && SameKey(u, c.language) then Firsts(cases) else Firsts(cases) + [c.language]
  {
    assert (cases + [c])[..|cases|] == cases;
  }

  method UniqueLanguages(cases: seq<Case<Language>>) returns (ls: seq<Language>)
    ensures ls == Firsts(cases)
  {
    var seen: set<string> := {};
    ls := [];
    assert cases[..0] == [];
    for i := 0 to |cases|
      invariant ls == Firsts(cases[..i]) && SeenAre(seen, ls)
    {
      hide Firsts, SeenAre, Key, SameKey;
      var l := cases[i].language;
      assert cases[..i + 1] == cases[..i] + [cases[i]];
      FirstsOfAppend(cases[..i], cases[i]);
      SeenDecides(seen, ls, l);
      if Key(l) !in seen {
        seen := seen + {Key(l)};
        ls := ls + [l];
      }
    }
    assert cases[..|cases|] == cases;
  }

  /** The initial cases in the order the orchestrator runs them. */
  method ExecutionOrder(cases: seq<Case<Language>>) returns (order: seq<Case<Language>>)
    ensures order == Executed(cases)
  {
    var ls := UniqueLanguages(cases);
    hide Firsts;
    order := [];
    assert ls[..0] == [] && cases[..0] == [];
    for i := 0 to |ls|
      invariant order == Grouped(ls[..i], cases)
    {
      ghost var before := order;
      for j := 0 to |cases|
        invariant order == before + CasesOf(cases[..j], ls[i])
      {
        assert cases[..j + 1][..j] == cases[..j];
        if cases[j].language.name == ls[i].name && cases[j].language.runtime == ls[i].runtime {
          order := order + [cases[j]];
        }
      }
      assert cases[..|cases|] == cases;
      assert ls[..i + 1][..i] == ls[..i];
    }
    assert ls[..|ls|] == ls;
  }

  // ---------- Which cases are executed ----------

  lemma {:induction false} CasesOfCount(cases: seq<Case<Language>>, l: Language, x: Case<Language>)
    ensures Times(CasesOf(cases, l), x) == if SameName(x.language, l) then Times(cases, x) else 0
    decreases |cases|
  {
    if cases != [] {
      var before, c := cases[..|cases| - 1], cases[|cases| - 1];
      hide SameName;
      CasesOfCount(before, l, x);
      TimesOfAppend(CasesOf(before, l), c, x);
    }
  }

  /** One of the listed languages is this one, by name and runtime. */
  predicate Listed(ls: seq<Language>, l: Language) {
    exists i :: 0 <= i < |ls| && SameName(l, ls[i])
  }

  predicate Distinct(ls: seq<Language>) {
    forall i, j :: 0 <= i < j < |ls| ==> !SameKey(ls[i], ls[j])
  }

  lemma SameNameSameKey(x: Language, a: Language, b: Language)
    requires SameName(x, a) && SameName(x, b)
    ensures SameKey(a, b)
  {
  }

  lemma ListedOfLast(ls: seq<Language>, l: Language)
    requires ls != [] && Distinct(ls)
    ensures Distinct(ls[..|ls| - 1])
    ensures Listed(ls, l) <==> Listed(ls[..|ls| - 1], l) || SameName(l, ls[|ls| - 1])
    ensures !(Listed(ls[..|ls| - 1], l) && SameName(l, ls[|ls| - 1]))
  {
    hide SameName, SameKey;
    var before, last := ls[..|ls| - 1], ls[|ls| - 1];
    if Listed(before, l) {
      var i :| 0 <= i < |before| && SameName(l, before[i]);
      assert before[i] == ls[i];
      if SameName(l, last) {
        SameNameSameKey(l, ls[i], last);
        assert false;
      }
    }
    if Listed(ls, l) {
      var i :| 0 <= i < |ls| && SameName(l, ls[i]);
      assert i < |before| ==> before[i] == ls[i];
    }
  }

  lemma {:induction false} GroupedCount(ls: seq<Language>, cases: seq<Case<Language>>, x: Case<Language>)
    requires Distinct(ls)
    ensures Times(Grouped(ls, cases), x) == if Listed(ls, x.language) then Times(cases, x) else 0
    decreases |ls|
  {
    if ls != [] {
      var before, l := ls[..|ls| - 1], ls[|ls| - 1];
      hide CasesOf, SameName, Distinct, Listed, Times;
      ListedOfLast(ls, x.language);
      GroupedCount(before, cases, x);
      CasesOfCount(cases, l, x);
      TimesOfConcat(Grouped(before, cases), CasesOf(cases, l), x);
    }
  }

  /** A language with this key is listed. */
  predicate KeyListed(ls: seq<Language>, l: Language) {
    exists u :: u in ls && SameKey(u, l)
  }

  lemma DistinctOfAppend(ls: seq<Language>, l: Language)
    requires Distinct(ls) && !KeyListed(ls, l)
    ensures Distinct(ls + [l])
  {
    hide SameKey;
    forall i | 0 <= i < |ls|
      ensures !SameKey(ls[i], l)
    {
      assert ls[i] in ls;
    }
  }

  lemma {:induction false} FirstsAreDistinct(cases: seq<Case<Language>>)
    ensures Distinct(Firsts(cases))
    decreases |cases|
  {
    if cases != [] {
      hide SameKey, Distinct;
      var before, l := Firsts(cases[..|cases| - 1]), cases[|cases| - 1].language;
      FirstsAreDistinct(cases[..|cases| - 1]);
      if !KeyListed(before, l) {
        DistinctOfAppend(before, l);
      }
    }
  }

  lemma KeyListedOfAppend(ls: seq<Language>, u: Language, l: Language)
    ensures KeyListed(ls, l) || SameKey(u, l) ==> KeyListed(ls + [u], l)
  {
    hide SameKey;
    assert u in ls + [u];
    if v :| v in ls && SameKey(v, l) {
      assert v in ls + [u];
    }
  }

  lemma SameKeyReflexive(l: Language)
    ensures SameKey(l, l)
  {
  }

  lemma {:induction false} FirstsHaveEveryKey(cases: seq<Case<Language>>, i: nat)
    requires i < |cases|
    ensures KeyListed(Firsts(cases), cases[i].language)
    decreases |cases|
  {
    hide SameKey, KeyListed;
    var before, last := cases[..|cases| - 1], cases[|cases| - 1].language;
    FirstsOfLast(cases);
    SameKeyReflexive(last);
    KeyListedOfAppend(Firsts(before), last, cases[i].language);
    if i < |before| {
      FirstsHaveEveryKey(before, i);
    }
  }

  lemma FirstsOfLast(cases: seq<Case<Language>>)
    requires cases != []
    ensures var before, last := Firsts(cases[..|cases| - 1]), cases[|cases| - 1].language;
            Firsts(cases) == if KeyListed(before, last) then before else before + [last]
  {
    hide SameKey;
  }

  /** Every grouped language is that of some case. */
  lemma {:induction false} FirstsComeFromCases(cases: seq<Case<Language>>, u: Language)
    requires u in Firsts(cases)
    ensures exists i :: 0 <= i < |cases| && cases[i].language == u
    decreases |cases|
  {
    hide KeyListed;
    var n := |cases| - 1;
    FirstsOfLast(cases);
    if u in Firsts(cases[..n]) {
      FirstsComeFromCases(cases[..n], u);
      var i :| 0 <= i < n && cases[..n][i].language == u;
      assert cases[i].language == u;
    } else {
      assert cases[n].language == u;
    }
  }

  /** A case runs as often as it occurs, unless its key was first taken by another language. */
  lemma ExecutedCount(cases: seq<Case<Language>>, x: Case<Language>)
    ensures Times(Executed(cases), x) == if Listed(Firsts(cases), x.language) then Times(cases, x) else 0
  {
    hide Firsts, Grouped, Listed, Distinct, Times;
    FirstsAreDistinct(cases);
    GroupedCount(Firsts(cases), cases, x);
  }

  /** No two languages of the matrix share a key without being the same language. */
  predicate KeysTellApart(cases: seq<Case<Language>>) {
    forall i, j :: 0 <= i < |cases| && 0 <= j < |cases| && SameKey(cases[i].language, cases[j].language)
      ==> SameName(cases[i].language, cases[j].language)
  }

  lemma EachIsListed(cases: seq<Case<Language>>, j: nat)
    requires KeysTellApart(cases) && j < |cases|
    ensures Listed(Firsts(cases), cases[j].language)
  {
    hide Firsts, SameKey;
    FirstsHaveEveryKey(cases, j);
    var u :| u in Firsts(cases) && SameKey(u, cases[j].language);
    FirstsComeFromCases(cases, u);
    var i :| 0 <= i < |cases| && cases[i].language == u;
    assert SameName(cases[i].language, cases[j].language);
    var k :| 0 <= k < |Firsts(cases)| && Firsts(cases)[k] == u;
    assert SameName(cases[j].language, Firsts(cases)[k]);
  }

  lemma OneListedPerKey(ls: seq<Language>, a: Language, b: Language)
    requires Distinct(ls) && SameKey(a, b) && Listed(ls, a) && Listed(ls, b)
    ensures SameName(a, b)
  {
    var i :| 0 <= i < |ls| && SameName(a, ls[i]);
    var j :| 0 <= j < |ls| && SameName(b, ls[j]);
    assert SameKey(ls[i], ls[j]) && SameKey(ls[j], ls[i]);
    assert i == j;
  }

  /**
   The executed order holds the same cases as the matrix, each equally often, if
   and only if grouping keys tell its languages apart.
   */
  lemma ExecutedIsPermutationIff(cases: seq<Case<Language>>)
    ensures SameElements(Executed(cases), cases) <==> KeysTellApart(cases)
  {
    hide Executed, Firsts, SameKey, SameName, Listed, Times, Distinct;
    if KeysTellApart(cases) {
      forall x: Case<Language>
        ensures Times(Executed(cases), x) == Times(cases, x)
      {
        ExecutedCount(cases, x);
        OccursIffIn(cases, x);
        if x in cases {
          var j :| 0 <= j < |cases| && cases[j] == x;
          EachIsListed(cases, j);
        }
      }
    } else {
      var i, j :| 0 <= i < |cases| && 0 <= j < |cases|
                  && SameKey(cases[i].language, cases[j].language) && !SameName(cases[i].language, cases[j].language);
      FirstsAreDistinct(cases);
      if Listed(Firsts(cases), cases[i].language) && Listed(Firsts(cases), cases[j].language) {
        OneListedPerKey(Firsts(cases), cases[i].language, cases[j].language);
      }
      ExecutedCount(cases, cases[i]);
      ExecutedCount(cases, cases[j]);
      OccursIffIn(cases, cases[i]);
      OccursIffIn(cases, cases[j]);
    }
  }

  lemma ShorterNameHasBar(a: Language, b: Language)
    requires SameKey(a, b) && |a.name| < |b.name|
    ensures '|' in b.name
  {
    assert Key(a)[|a.name|] == '|';
    assert Key(b)[|a.name|] == b.name[|a.name|];
  }

  /** Names without a bar are enough. */
  lemma KeysWithoutBars(a: Language, b: Language)
    requires SameKey(a, b) && '|' !in a.name && '|' !in b.name
    ensures SameName(a, b)
  {
    if |a.name| < |b.name| {
      ShorterNameHasBar(a, b);
    } else if |b.name| < |a.name| {
      ShorterNameHasBar(b, a);
    } else {
      assert a.name == Key(a)[..|a.name|] && b.name == Key(b)[..|b.name|];
      assert a.runtime == Key(a)[|a.name| + 1..] && b.runtime == Key(b)[|b.name| + 1..];
    }
  }

  /**
   Any config whose names hold no bar, any seed: each triple of the product is
   executed exactly as often as it is configured.
   */
  lemma EveryCaseIsExecuted(cfg: Config<Language>, seed: Option<Word>, x: Case<Language>)
    requires forall l :: l in cfg.languages ==> '|' !in l.name
    ensures Times(Executed(Matrix(cfg, seed)), x) == Configured(cfg, x)
  {
    hide Matrix, Executed, SameKey, SameName, Times, Configured;
    var cases := Matrix(cfg, seed);
    forall i, j | 0 <= i < |cases| && 0 <= j < |cases| && SameKey(cases[i].language, cases[j].language)
      ensures SameName(cases[i].language, cases[j].language)
    {
      ComesFromConfig(cfg, seed, cases[i]);
      ComesFromConfig(cfg, seed, cases[j]);
      KeysWithoutBars(cases[i].language, cases[j].language);
    }
    ExecutedIsPermutationIff(cases);
    MatrixOnce(cfg, seed, x);
  }

  lemma ConfiguredIsListed<L>(cfg: Config<L>, x: Case<L>)
    requires Configured(cfg, x) > 0
    ensures Times(cfg.languages, x.language) > 0
  {
  }

  lemma ComesFromConfig(cfg: Config<Language>, seed: Option<Word>, a: Case<Language>)
    requires a in Matrix(cfg, seed)
    ensures a.language in cfg.languages
  {
    hide Matrix, Times, Configured;
    MatrixOnce(cfg, seed, a);
    OccursIffIn(Matrix(cfg, seed), a);
    ConfiguredIsListed(cfg, a);
    OccursIffIn(cfg.languages, a.language);
  }

  /** With a bar in a name two languages can share a key: then whichever case comes second is never executed. */
  lemma BarsCanHideALanguage(c: nat, n: nat)
    ensures var x, y := Language("x|y", "z", 0), Language("x", "y|z", 0);
            var cases := [Case(x, c, n), Case(y, c, n)];
            SameKey(x, y) && !SameElements(Executed(cases), cases)
  {
    var x, y := Language("x|y", "z", 0), Language("x", "y|z", 0);
    var cases := [Case(x, c, n), Case(y, c, n)];
    assert Key(x) == "x|y|z" == Key(y);
    assert |x.name| != |y.name|;
    assert SameKey(cases[0].language, cases[1].language);
    hide Executed, SameElements, SameKey;
    ExecutedIsPermutationIff(cases);
  }
}
