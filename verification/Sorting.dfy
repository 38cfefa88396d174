/** A stable sort by any order, as `slice::sort_by` is. */
module Sorting {

  /** Places `x` after every element it does not come before. */
  function Insert<E>(before: (E, E) -> bool, s: seq<E>, x: E): seq<E> {
    if s == [] then [x]
    else if before(x, s[0]) then [x] + s
    else [s[0]] + Insert(before, s[1..], x)
  }

  function Sort<E>(before: (E, E) -> bool, es: seq<E>): seq<E> {
    if es == [] then [] else Insert(before, Sort(before, es[..|es| - 1]), es[|es| - 1])
  }

  lemma {:induction false} InsertMembers<E>(before: (E, E) -> bool, s: seq<E>, x: E, y: E)
    ensures y in Insert(before, s, x) <==> y in s || y == x
    decreases |s|
  {
    if s != [] && !before(x, s[0]) {
      InsertMembers(before, s[1..], x, y);
      assert s == [s[0]] + s[1..];
    }
  }

  lemma {:induction false} SortMembers<E>(before: (E, E) -> bool, es: seq<E>, y: E)
    ensures y in Sort(before, es) <==> y in es
    decreases |es|
  {
    if es != [] {
      var front, x := es[..|es| - 1], es[|es| - 1];
      SortMembers(before, front, y);
      InsertMembers(before, Sort(before, front), x, y);
      assert es == front + [x];
    }
  }

  lemma {:induction false} InsertPermutes<E>(before: (E, E) -> bool, s: seq<E>, x: E)
    ensures multiset(Insert(before, s, x)) == multiset(s) + multiset{x}
    decreases |s|
  {
    if s != [] && !before(x, s[0]) {
      InsertPermutes(before, s[1..], x);
      assert s == [s[0]] + s[1..];
    }
  }

  /** Sorting rearranges: every element occurs as often as before. */
  lemma {:induction false} SortPermutes<E>(before: (E, E) -> bool, es: seq<E>)
    ensures multiset(Sort(before, es)) == multiset(es)
    decreases |es|
  {
    if es != [] {
      var front, x := es[..|es| - 1], es[|es| - 1];
      SortPermutes(before, front);
      InsertPermutes(before, Sort(before, front), x);
      assert es == front + [x];
    }
  }
}
