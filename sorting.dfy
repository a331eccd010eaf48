/**
 * The host's `Array.prototype.sort(compare)`, which the grid refresh calls
 * with the extension's comparator. The language requires the sort to be
 * stable and, for a comparator that is a consistent order, to order the
 * array by it; for any other comparator it only promises a permutation.
 * This module models it as a stable insertion sort and proves those three
 * promises.
 */
module Sorting {

  /** `x` may stay before `y`: the comparator does not ask to swap them. */
  predicate Le<T>(cmp: (T, T) -> int, x: T, y: T)
  {
    cmp(x, y) <= 0
  }

  /** `x` and `y` are ties: neither must go after the other. */
  predicate Tie<T>(cmp: (T, T) -> int, x: T, y: T)
  {
    Le(cmp, x, y) && Le(cmp, y, x)
  }

  /** The elements of a sequence, as a set. */
  function Elems<T>(s: seq<T>): set<T>
  {
    set x | x in s
  }

  /**
   * On the values in `a`, `cmp` is a consistent comparator: its sign flips
   * when the arguments are swapped, and `Le(cmp, _, _)` is total and
   * transitive.
   */
  ghost predicate PreorderOn<T>(cmp: (T, T) -> int, a: set<T>)
  {
    && (forall x, y :: x in a && y in a ==> (cmp(x, y) < 0 <==> cmp(y, x) > 0))
    && (forall x, y :: x in a && y in a ==> Le(cmp, x, y) || Le(cmp, y, x))
    && (forall x, y, z :: x in a && y in a && z in a && Le(cmp, x, y) && Le(cmp, y, z) ==> Le(cmp, x, z))
  }

  /** Every element may stay before every later one. */
  ghost predicate Sorted<T>(cmp: (T, T) -> int, s: seq<T>)
  {
    forall i, j :: 0 <= i < j < |s| ==> Le(cmp, s[i], s[j])
  }

  /** Put `x` in front of the first element it may stay before. */
  function Insert<T>(cmp: (T, T) -> int, x: T, s: seq<T>): (r: seq<T>)
    ensures multiset(r) == multiset(s) + multiset{x}
  {
    if s == [] || Le(cmp, x, s[0]) then [x] + s
    else
      assert s == [s[0]] + s[1..];
      [s[0]] + Insert(cmp, x, s[1..])
  }

  /** `s.sort(cmp)`: the result is always a permutation of `s`. */
  function SortBy<T>(cmp: (T, T) -> int, s: seq<T>): (r: seq<T>)
    ensures multiset(r) == multiset(s)
  {
    if s == [] then []
    else
      assert s == [s[0]] + s[1..];
      Insert(cmp, s[0], SortBy(cmp, s[1..]))
  }

  lemma PreorderOnSubset<T>(cmp: (T, T) -> int, a: set<T>, b: set<T>)
    requires a <= b && PreorderOn(cmp, b)
    ensures PreorderOn(cmp, a)
  {
  }

  /** An element that may stay before every element of a sorted sequence can go in front of it. */
  lemma ConsSorted<T>(cmp: (T, T) -> int, h: T, u: seq<T>)
    requires Sorted(cmp, u)
    requires forall y :: y in u ==> Le(cmp, h, y)
    ensures Sorted(cmp, [h] + u)
  {
    var r := [h] + u;
    forall i, j | 0 <= i < j < |r| ensures Le(cmp, r[i], r[j]) {
      assert r[j] == u[j - 1] && u[j - 1] in u;
      if i > 0 {
        assert r[i] == u[i - 1];
      }
    }
  }

  /** Inserting into a sorted sequence keeps it sorted when the comparator is consistent. */
  lemma {:induction false} InsertSorted<T>(cmp: (T, T) -> int, x: T, s: seq<T>)
    requires Sorted(cmp, s)
    requires PreorderOn(cmp, Elems(s) + {x})
    ensures Sorted(cmp, Insert(cmp, x, s))
  {
    if s == [] {
    } else if Le(cmp, x, s[0]) {
      forall y | y in s ensures Le(cmp, x, y) {
        var k :| 0 <= k < |s| && s[k] == y;
        if k > 0 {
          assert Le(cmp, s[0], s[k]);
          assert s[0] in Elems(s) && y in Elems(s);
        }
      }
      ConsSorted(cmp, x, s);
    } else {
      var t := s[1..];
      assert s[0] in Elems(s);
      assert Le(cmp, s[0], x);
      assert Sorted(cmp, t) by {
        forall i, j | 0 <= i < j < |t| ensures Le(cmp, t[i], t[j]) {
          assert t[i] == s[i + 1] && t[j] == s[j + 1];
        }
      }
      PreorderOnSubset(cmp, Elems(t) + {x}, Elems(s) + {x});
      InsertSorted(cmp, x, t);
      var u := Insert(cmp, x, t);
      forall y | y in u ensures Le(cmp, s[0], y) {
        assert y in multiset(u);
        if y != x {
          assert y in multiset(t);
          var k :| 0 <= k < |t| && t[k] == y;
          assert Le(cmp, s[0], s[k + 1]);
        }
      }
      ConsSorted(cmp, s[0], u);
    }
  }

  /** For a comparator that is consistent on the input, the result is sorted by it. */
  lemma {:induction false} SortBySorted<T>(cmp: (T, T) -> int, s: seq<T>)
    requires PreorderOn(cmp, Elems(s))
    ensures Sorted(cmp, SortBy(cmp, s))
  {
    if s != [] {
      var t := SortBy(cmp, s[1..]);
      PreorderOnSubset(cmp, Elems(s[1..]), Elems(s));
      SortBySorted(cmp, s[1..]);
      forall y | y in Elems(t) + {s[0]} ensures y in Elems(s) {
        if y != s[0] {
          assert y in multiset(t);
        }
      }
      PreorderOnSubset(cmp, Elems(t) + {s[0]}, Elems(s));
      InsertSorted(cmp, s[0], t);
    }
  }

  /** The elements of `s` that tie with `e`, in the order of `s`. */
  function TiesWith<T>(cmp: (T, T) -> int, s: seq<T>, e: T): seq<T>
  {
    if s == [] then []
    else (if Tie(cmp, s[0], e) then [s[0]] else []) + TiesWith(cmp, s[1..], e)
  }

  /**
   * `x` goes in front of every element that ties with `e` when `x` does, as
   * long as `x` may stay before each of them.
   */
  lemma {:induction false} InsertStable<T>(cmp: (T, T) -> int, x: T, s: seq<T>, e: T)
    requires forall y :: y in s && Tie(cmp, x, e) && Tie(cmp, y, e) ==> Le(cmp, x, y)
    ensures TiesWith(cmp, Insert(cmp, x, s), e)
            == (if Tie(cmp, x, e) then [x] else []) + TiesWith(cmp, s, e)
  {
    if s == [] {
    } else if Le(cmp, x, s[0]) {
      assert ([x] + s)[1..] == s;
    } else {
      var rest := Insert(cmp, x, s[1..]);
      InsertStable(cmp, x, s[1..], e);
      assert ([s[0]] + rest)[1..] == rest;
      var head := if Tie(cmp, s[0], e) then [s[0]] else [];
      assert TiesWith(cmp, [s[0]] + rest, e) == head + TiesWith(cmp, rest, e);
      assert TiesWith(cmp, s, e) == head + TiesWith(cmp, s[1..], e);
      if Tie(cmp, x, e) {
        assert !Tie(cmp, s[0], e);
        assert head == [];
      } else {
        assert TiesWith(cmp, rest, e) == TiesWith(cmp, s[1..], e);
      }
    }
  }

  /**
   * Stability: the elements that tie with any given `e` come out in the
   * order in which they went in.
   */
  lemma {:induction false} SortByStable<T>(cmp: (T, T) -> int, s: seq<T>, e: T)
    requires PreorderOn(cmp, Elems(s) + {e})
    ensures TiesWith(cmp, SortBy(cmp, s), e) == TiesWith(cmp, s, e)
  {
    if s != [] {
      var t := SortBy(cmp, s[1..]);
      PreorderOnSubset(cmp, Elems(s[1..]) + {e}, Elems(s) + {e});
      SortByStable(cmp, s[1..], e);
      forall y | y in t && Tie(cmp, s[0], e) && Tie(cmp, y, e) ensures Le(cmp, s[0], y) {
        assert y in multiset(t);
        assert y in Elems(s) && s[0] in Elems(s);
      }
      InsertStable(cmp, s[0], t, e);
    }
  }
}
