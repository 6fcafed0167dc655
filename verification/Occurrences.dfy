/** How often an element occurs in a sequence. */
module Occurrences {

  function Times<T(==)>(s: seq<T>, x: T): nat {
    if s == [] then 0 else Times(s[..|s| - 1], x) + if s[|s| - 1] == x then 1 else 0
  }

  lemma TimesOfAppend<T>(s: seq<T>, y: T, x: T)
    ensures Times(s + [y], x) == Times(s, x) + if y == x then 1 else 0
  {
    assert (s + [y])[..|s|] == s;
  }

  lemma {:induction false} TimesOfConcat<T>(s: seq<T>, t: seq<T>, x: T)
    ensures Times(s + t, x) == Times(s, x) + Times(t, x)
    decreases |t|
  {
    if t == [] {
      assert s + t == s;
    } else {
      TimesOfConcat(s, t[..|t| - 1], x);
      TimesOfAppend(s + t[..|t| - 1], t[|t| - 1], x);
      assert s + t[..|t| - 1] + [t[|t| - 1]] == s + t;
    }
  }

  lemma {:induction false} OccursIffIn<T>(s: seq<T>, x: T)
    ensures x in s <==> Times(s, x) > 0
    decreases |s|
  {
    if s != [] {
      OccursIffIn(s[..|s| - 1], x);
      assert s == s[..|s| - 1] + [s[|s| - 1]];
    }
  }

  lemma {:induction false} TimesIsMultiplicity<T>(s: seq<T>, x: T)
    ensures multiset(s)[x] == Times(s, x)
    decreases |s|
  {
    if s != [] {
      TimesIsMultiplicity(s[..|s| - 1], x);
      assert s == s[..|s| - 1] + [s[|s| - 1]];
    }
  }

  /** The same elements, each equally often. */
  ghost predicate SameElements<T(!new)>(s: seq<T>, t: seq<T>) {
    forall x: T :: Times(s, x) == Times(t, x)
  }

  lemma PermutationsShareElements<T(!new)>(s: seq<T>, t: seq<T>)
    requires multiset(s) == multiset(t)
    ensures SameElements(s, t)
  {
    forall x: T
      ensures Times(s, x) == Times(t, x)
    {
      TimesIsMultiplicity(s, x);
      TimesIsMultiplicity(t, x);
    }
  }
}
