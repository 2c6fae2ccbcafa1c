/** Stable sorting by an integer key: what `list.sort(key=...)` and an
    `ORDER BY` with a tie-break do. */
module Sorting {

  function Insert<T>(key: T -> int, x: T, xs: seq<T>): seq<T> {
    if xs == [] || key(x) <= key(xs[0]) then [x] + xs
    else [xs[0]] + Insert(key, x, xs[1..])
  }

  function SortBy<T>(key: T -> int, xs: seq<T>): seq<T> {
    if xs == [] then [] else Insert(key, xs[0], SortBy(key, xs[1..]))
  }

  lemma {:induction false} InsertKeepsElements<T>(key: T -> int, x: T, xs: seq<T>)
    ensures multiset(Insert(key, x, xs)) == multiset([x] + xs)
  {
    if xs != [] && !(key(x) <= key(xs[0])) {
      InsertKeepsElements(key, x, xs[1..]);
      assert xs == [xs[0]] + xs[1..];
    }
  }

  lemma {:induction false} SortKeepsElements<T>(key: T -> int, xs: seq<T>)
    ensures multiset(SortBy(key, xs)) == multiset(xs)
    ensures |SortBy(key, xs)| == |xs|
  {
    if xs != [] {
      SortKeepsElements(key, xs[1..]);
      InsertKeepsElements(key, xs[0], SortBy(key, xs[1..]));
      assert xs == [xs[0]] + xs[1..];
    }
    assert |multiset(SortBy(key, xs))| == |multiset(xs)|;
  }

  /** `x` sorts ahead of `y`: a smaller key, or an equal key and an earlier position. */
  predicate Ahead<T(!new)>(key: T -> int, pos: T -> int, x: T, y: T) {
    key(x) < key(y) || (key(x) == key(y) && pos(x) < pos(y))
  }

  ghost predicate Ascending<T(!new)>(pos: T -> int, xs: seq<T>) {
    forall i, j :: 0 <= i < j < |xs| ==> pos(xs[i]) < pos(xs[j])
  }

  ghost predicate InOrder<T(!new)>(key: T -> int, pos: T -> int, xs: seq<T>) {
    forall i, j :: 0 <= i < j < |xs| ==> Ahead(key, pos, xs[i], xs[j])
  }

  lemma {:induction false} InsertInOrder<T(!new)>(key: T -> int, pos: T -> int, x: T, xs: seq<T>)
    requires InOrder(key, pos, xs)
    requires forall y :: y in xs ==> pos(x) < pos(y)
    ensures InOrder(key, pos, Insert(key, x, xs))
  {
    if xs == [] || key(x) <= key(xs[0]) {
      forall j | 0 <= j < |xs| ensures Ahead(key, pos, x, xs[j]) {
        assert xs[j] in xs;
        assert j > 0 ==> Ahead(key, pos, xs[0], xs[j]);
      }
    } else {
      var rest := Insert(key, x, xs[1..]);
      InsertInOrder(key, pos, x, xs[1..]);
      InsertKeepsElements(key, x, xs[1..]);
      forall j | 0 <= j < |rest| ensures Ahead(key, pos, xs[0], rest[j]) {
        assert rest[j] in multiset([x] + xs[1..]);
        if rest[j] != x {
          var k :| 1 <= k < |xs| && xs[k] == rest[j];
          assert Ahead(key, pos, xs[0], xs[k]);
        }
      }
    }
  }

  /** Stability: elements that came in ascending position leave in key order, and
      elements of equal key leave in the order in which they came. */
  lemma {:induction false} SortIsStable<T(!new)>(key: T -> int, pos: T -> int, xs: seq<T>)
    requires Ascending(pos, xs)
    ensures InOrder(key, pos, SortBy(key, xs))
  {
    if xs != [] {
      assert Ascending(pos, xs[1..]);
      SortIsStable(key, pos, xs[1..]);
      SortKeepsElements(key, xs[1..]);
      var rest := SortBy(key, xs[1..]);
      forall y | y in rest ensures pos(xs[0]) < pos(y) {
        assert y in multiset(xs[1..]);
        var k :| 1 <= k < |xs| && xs[k] == y;
      }
      InsertInOrder(key, pos, xs[0], rest);
    }
  }

  /** What sorts ahead of everything else comes first, in its own order. */
  lemma {:induction false} OrderedPrefix<T(!new)>(key: T -> int, pos: T -> int, first: seq<T>, all: seq<T>)
    requires InOrder(key, pos, first) && InOrder(key, pos, all)
    requires forall x :: x in first ==> x in all
    requires forall x, y :: x in first && y in all && y !in first ==> Ahead(key, pos, x, y)
    ensures |first| <= |all| && all[..|first|] == first
  {
    if first != [] {
      assert first[0] in all;
      var x, y := first[0], all[0];
      assert x == y || Ahead(key, pos, x, y);
      assert x == y || Ahead(key, pos, y, x);
      RestInOrder(key, pos, first);
      RestInOrder(key, pos, all);
      forall z | z in first[1..] ensures z in all[1..] {
        assert z in all;
      }
      OrderedPrefix(key, pos, first[1..], all[1..]);
      assert first == [x] + first[1..] && all == [y] + all[1..];
    }
  }

  lemma RestInOrder<T(!new)>(key: T -> int, pos: T -> int, xs: seq<T>)
    requires xs != [] && InOrder(key, pos, xs)
    ensures InOrder(key, pos, xs[1..]) && xs[0] !in xs[1..]
    ensures forall x :: x in xs <==> x == xs[0] || x in xs[1..]
  {
  }

  /** A set has one ordered listing. */
  lemma OrderedListing<T(!new)>(key: T -> int, pos: T -> int, xs: seq<T>, ys: seq<T>)
    requires InOrder(key, pos, xs) && InOrder(key, pos, ys)
    requires forall x :: x in xs <==> x in ys
    ensures xs == ys
  {
    OrderedPrefix(key, pos, xs, ys);
    OrderedPrefix(key, pos, ys, xs);
  }
}
