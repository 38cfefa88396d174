/** Sorting by a byte-string key, as `slice::sort_by` does, and why the result is canonical. */
module KeySort {
  import opened Sorting

  type Key = seq<int>

  /** Lexicographic order. */
  predicate Less(a: Key, b: Key) {
    if a == [] then b != []
    else b != [] && (a[0] < b[0] || (a[0] == b[0] && Less(a[1..], b[1..])))
  }

  lemma {:induction false} LessIrreflexive(a: Key)
    ensures !Less(a, a)
    decreases |a|
  {
    if a != [] {
      LessIrreflexive(a[1..]);
    }
  }

  lemma {:induction false} LessTransitive(a: Key, b: Key, c: Key)
    requires Less(a, b) && Less(b, c)
    ensures Less(a, c)
    decreases |a|
  {
    if a != [] && a[0] == b[0] == c[0] {
      LessTransitive(a[1..], b[1..], c[1..]);
    }
  }

  lemma {:induction false} LessTotal(a: Key, b: Key)
    ensures a == b || Less(a, b) || Less(b, a)
    decreases |a|
  {
    if a != [] && b != [] && a[0] == b[0] {
      LessTotal(a[1..], b[1..]);
      assert a == [a[0]] + a[1..] && b == [b[0]] + b[1..];
    }
  }

  function Before<E>(key: E -> Key): (E, E) -> bool {
    (x: E, y: E) => Less(key(x), key(y))
  }

  /** A stable sort of `es` by `key`. */
  function SortBy<E>(key: E -> Key, es: seq<E>): seq<E> {
    Sort(Before(key), es)
  }

  /** Different positions hold different keys. */
  ghost predicate UniqueKeys<E>(key: E -> Key, es: seq<E>) {
    forall i, j :: 0 <= i < j < |es| ==> key(es[i]) != key(es[j])
  }

  /** Each element is strictly below everything after it. */
  ghost predicate Ascending<E>(key: E -> Key, s: seq<E>) {
    s == [] || (Below(key, s[0], s[1..]) && Ascending(key, s[1..]))
  }

  ghost predicate Below<E>(key: E -> Key, x: E, s: seq<E>) {
    forall y :: y in s ==> Less(key(x), key(y))
  }

  lemma {:induction false} InsertAscending<E>(key: E -> Key, s: seq<E>, x: E)
    requires Ascending(key, s) && forall y :: y in s ==> key(y) != key(x)
    ensures Ascending(key, Insert(Before(key), s, x))
    decreases |s|
  {
    if s != [] {
      var head, tail := s[0], s[1..];
      if Less(key(x), key(head)) {
        forall y | y in s ensures Less(key(x), key(y)) {
          if y != head {
            assert y in tail;
            LessTransitive(key(x), key(head), key(y));
          }
        }
        assert ([x] + s)[1..] == s;
      } else {
        LessTotal(key(head), key(x));
        InsertAscending(key, tail, x);
        var rest := Insert(Before(key), tail, x);
        forall y | y in rest ensures Less(key(head), key(y)) {
          InsertMembers(Before(key), tail, x, y);
        }
        assert ([head] + rest)[1..] == rest;
      }
    }
  }

  lemma {:induction false} SortAscending<E>(key: E -> Key, es: seq<E>)
    requires UniqueKeys(key, es)
    ensures Ascending(key, SortBy(key, es))
    decreases |es|
  {
    if es != [] {
      var front, x := es[..|es| - 1], es[|es| - 1];
      SortAscending(key, front);
      var sorted := SortBy(key, front);
      forall y | y in sorted ensures key(y) != key(x) {
        SortMembers(Before(key), front, y);
        var i :| 0 <= i < |front| && front[i] == y;
        assert es[i] == y;
      }
      InsertAscending(key, sorted, x);
    }
  }

  /** The two lists have the same elements. */
  ghost predicate SameElements<E>(s: seq<E>, t: seq<E>) {
    (forall y :: y in s ==> y in t) && (forall y :: y in t ==> y in s)
  }

  lemma {:induction false} SameHead<E>(key: E -> Key, s: seq<E>, t: seq<E>)
    requires s != [] && t != [] && Ascending(key, s) && Ascending(key, t) && SameElements(s, t)
    ensures s[0] == t[0]
  {
    if s[0] != t[0] {
      assert s[0] in t && t[0] in s;
      assert s[0] in t[1..] && t[0] in s[1..];
      LessTransitive(key(s[0]), key(t[0]), key(s[0]));
      LessIrreflexive(key(s[0]));
    }
  }

  lemma {:induction false} SameTail<E>(key: E -> Key, s: seq<E>, t: seq<E>)
    requires s != [] && t != [] && Ascending(key, s) && Ascending(key, t) && SameElements(s, t) && s[0] == t[0]
    ensures SameElements(s[1..], t[1..])
  {
    LessIrreflexive(key(s[0]));
    assert forall y :: y in s ==> y == s[0] || y in s[1..];
    assert forall y :: y in t ==> y == t[0] || y in t[1..];
  }

  lemma {:induction false} NoElements<E>(t: seq<E>)
    ensures t == [] || exists y :: y in t
  {
    assert t == [] || t[0] in t;
  }

  /** Two strictly ascending lists of the same elements are the same list. */
  lemma {:induction false} AscendingUnique<E>(key: E -> Key, s: seq<E>, t: seq<E>)
    requires Ascending(key, s) && Ascending(key, t) && SameElements(s, t)
    ensures s == t
    decreases |s|
  {
    if s == [] {
      NoElements(t);
    } else {
      assert s[0] in t;
      SameHead(key, s, t);
      SameTail(key, s, t);
      AscendingUnique(key, s[1..], t[1..]);
      assert s == [s[0]] + s[1..] && t == [t[0]] + t[1..];
    }
  }

  /** Sorting any two arrangements of the same elements with unique keys gives the same list. */
  lemma {:induction false} SortCanonical<E>(key: E -> Key, a: seq<E>, b: seq<E>)
    requires SameElements(a, b) && UniqueKeys(key, a) && UniqueKeys(key, b)
    ensures SortBy(key, a) == SortBy(key, b)
  {
    SortAscending(key, a);
    SortAscending(key, b);
    forall y | y in SortBy(key, a) ensures y in SortBy(key, b) {
      SortMembers(Before(key), a, y);
      SortMembers(Before(key), b, y);
    }
    forall y | y in SortBy(key, b) ensures y in SortBy(key, a) {
      SortMembers(Before(key), a, y);
      SortMembers(Before(key), b, y);
    }
    AscendingUnique(key, SortBy(key, a), SortBy(key, b));
  }
}
