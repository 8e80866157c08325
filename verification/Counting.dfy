/** Counting the places of lists of lists, to which the sums and concatenations of the other modules are compared. */
module Counting {
  import opened Sorting

  function Sum<T>(s: seq<T>, f: T -> int): int {
    if s == [] then 0 else f(s[0]) + Sum(s[1..], f)
  }

  /** The places (i, k) with k below the size of element i and the test passed. */
  ghost function Spots<T>(s: seq<T>, size: T -> nat, hit: (T, nat) -> bool): set<(nat, nat)> {
    set i: nat, k: nat | i < |s| && k < size(s[i]) && hit(s[i], k) :: (i, k)
  }

  ghost function SizeOf<X, Y>(f: X -> seq<Y>): X -> nat { (x: X) => |f(x)| }

  ghost function Everywhere<X>(): X -> bool { (x: X) => true }

  /** The places whose element is picked. */
  ghost function Places<T>(s: seq<T>, size: T -> nat, keep: T -> bool): set<(nat, nat)> {
    Spots(s, size, (x: T, k: nat) => keep(x))
  }

  ghost function Column(i: nat, n: nat, hit: nat -> bool): set<(nat, nat)> {
    set k: nat | k < n && hit(k) :: (i, k)
  }

  function Hits(n: nat, hit: nat -> bool): nat {
    if n == 0 then 0 else Hits(n - 1, hit) + if hit(n - 1) then 1 else 0
  }

  lemma {:induction false} ColumnSize(i: nat, n: nat, hit: nat -> bool)
    ensures |Column(i, n, hit)| == Hits(n, hit)
  {
    if n > 0 {
      ColumnSize(i, n - 1, hit);
      assert Column(i, n, hit) == Column(i, n - 1, hit) + if hit(n - 1) then {(i, n - 1)} else {};
    }
  }

  lemma SpotsSnoc<T>(s: seq<T>, x: T, size: T -> nat, hit: (T, nat) -> bool)
    ensures |Spots(s + [x], size, hit)| == |Spots(s, size, hit)| + Hits(size(x), (k: nat) => hit(x, k))
  {
    var column := Column(|s|, size(x), (k: nat) => hit(x, k));
    ColumnSize(|s|, size(x), (k: nat) => hit(x, k));
    var all := s + [x];
    assert forall i: nat :: i < |s| ==> all[i] == s[i];
    assert Spots(all, size, hit) == Spots(s, size, hit) + column;
    assert Spots(s, size, hit) !! column;
  }

  lemma {:induction false} SumAppend<T>(a: seq<T>, b: seq<T>, f: T -> int)
    ensures Sum(a + b, f) == Sum(a, f) + Sum(b, f)
  {
    if a == [] {
      assert a + b == b;
    } else {
      SumAppend(a[1..], b, f);
      assert (a + b)[1..] == a[1..] + b;
    }
  }

  lemma {:induction false} HitsAll(n: nat, hit: nat -> bool, all: bool)
    requires forall k: nat :: k < n ==> hit(k) == all
    ensures Hits(n, hit) == if all then n else 0
  {
    if n > 0 {
      HitsAll(n - 1, hit, all);
    }
  }

  /** The sum of the sizes of the picked elements is the number of their places. */
  lemma {:induction false} SumIsPlaces<T>(s: seq<T>, f: T -> int, size: T -> nat, keep: T -> bool)
    requires forall x :: x in s ==> f(x) == size(x)
    ensures Sum(Filter(s, keep), f) == |Places(s, size, keep)|
    decreases |s|
  {
    var hit := (x: T, k: nat) => keep(x);
    if s == [] {
      assert Spots(s, size, hit) == {};
    } else {
      var front, last := s[..|s| - 1], s[|s| - 1];
      assert s == front + [last] && last in s;
      SumIsPlaces(front, f, size, keep);
      FilterAppend(front, [last], keep);
      assert [last][1..] == [];
      SumAppend(Filter(front, keep), Filter([last], keep), f);
      SpotsSnoc(front, last, size, hit);
      HitsAll(size(last), (k: nat) => hit(last, k), keep(last));
    }
  }

  lemma {:induction false} HitsAreOccurrences<Y>(ys: seq<Y>, n: nat, hit: nat -> bool, y: Y)
    requires n <= |ys| && forall k: nat :: k < n ==> hit(k) == (ys[k] == y)
    ensures Hits(n, hit) == multiset(ys[..n])[y]
  {
    if n > 0 {
      HitsAreOccurrences(ys, n - 1, hit, y);
      assert ys[..n] == ys[..n - 1] + [ys[n - 1]];
    }
  }

  lemma {:induction false} FlatAppend<X, Y>(a: seq<X>, b: seq<X>, f: X -> seq<Y>)
    ensures Flat(a + b, f) == Flat(a, f) + Flat(b, f)
  {
    if a == [] {
      assert a + b == b;
    } else {
      FlatAppend(a[1..], b, f);
      assert (a + b)[1..] == a[1..] + b;
    }
  }

  /** The places at which y stands in the lists. */
  ghost function Occurrences<X, Y>(s: seq<X>, f: X -> seq<Y>, y: Y): set<(nat, nat)> {
    set i: nat, k: nat | i < |s| && k < |f(s[i])| && f(s[i])[k] == y :: (i, k)
  }

  /** In the concatenation an element occurs as often as it stands in the lists. */
  lemma {:induction false} FlatOccurrences<X, Y>(s: seq<X>, f: X -> seq<Y>, y: Y)
    ensures multiset(Flat(s, f))[y] == |Occurrences(s, f, y)|
    decreases |s|
  {
    var size, hit := (x: X) => |f(x)|, (x: X, k: nat) => k < |f(x)| && f(x)[k] == y;
    assert Occurrences(s, f, y) == Spots(s, size, hit);
    if s == [] {
      assert Spots(s, size, hit) == {};
    } else {
      var front, last := s[..|s| - 1], s[|s| - 1];
      assert s == front + [last];
      FlatOccurrences(front, f, y);
      assert Occurrences(front, f, y) == Spots(front, size, hit);
      FlatAppend(front, [last], f);
      assert [last][1..] == [] && Flat([last], f) == f(last);
      SpotsSnoc(front, last, size, hit);
      HitsAreOccurrences(f(last), |f(last)|, (k: nat) => hit(last, k), y);
      assert f(last)[..|f(last)|] == f(last);
    }
  }

  /** Its length is the number of all places. */
  lemma {:induction false} FlatLength<X, Y>(s: seq<X>, f: X -> seq<Y>, size: X -> nat, all: X -> bool)
    requires forall x :: x in s ==> size(x) == |f(x)| && all(x)
    ensures |Flat(s, f)| == |Places(s, size, all)|
    decreases |s|
  {
    var hit := (x: X, k: nat) => all(x);
    if s == [] {
      assert Spots(s, size, hit) == {};
    } else {
      var front, last := s[..|s| - 1], s[|s| - 1];
      assert s == front + [last] && last in s;
      FlatLength(front, f, size, all);
      FlatAppend(front, [last], f);
      assert [last][1..] == [] && Flat([last], f) == f(last);
      SpotsSnoc(front, last, size, hit);
      HitsAll(size(last), (k: nat) => hit(last, k), true);
    }
  }

  /** The list is sorted and holds every text as often as the lists do. */
  ghost predicate Lists<X>(all: seq<string>, s: seq<X>, listOf: X -> seq<string>, le: (string, string) -> bool) {
    && (TotalPreorder(le) ==> Sorted(all, le))
    && |all| == |Places(s, SizeOf(listOf), Everywhere())|
    && forall y :: multiset(all)[y] == |Occurrences(s, listOf, y)|
  }

  lemma ListTells<X>(s: seq<X>, listOf: X -> seq<string>, le: (string, string) -> bool)
    ensures Lists(Sort(Flat(s, listOf), le), s, listOf, le)
  {
    var flat := Flat(s, listOf);
    SortPermutes(flat, le);
    if TotalPreorder(le) {
      SortSorts(flat, le);
    }
    FlatLength(s, listOf, SizeOf(listOf), Everywhere());
    forall y ensures multiset(Sort(flat, le))[y] == |Occurrences(s, listOf, y)| {
      FlatOccurrences(s, listOf, y);
    }
  }

  /** Only the lists matter. */
  lemma SameLists<X, Y>(all: seq<string>, s: seq<X>, f: X -> seq<string>, t: seq<Y>, g: Y -> seq<string>,
                        le: (string, string) -> bool)
    requires Lists(all, s, f, le) && |s| == |t| && forall i :: 0 <= i < |s| ==> f(s[i]) == g(t[i])
    ensures Lists(all, t, g, le)
  {
    SamePlaces(s, f, t, g);
    forall y ensures multiset(all)[y] == |Occurrences(t, g, y)| {
      assert Occurrences(s, f, y) == Occurrences(t, g, y);
    }
  }

  lemma SamePlaces<X, Y, Z>(s: seq<X>, f: X -> seq<Z>, t: seq<Y>, g: Y -> seq<Z>)
    requires |s| == |t| && forall i :: 0 <= i < |s| ==> f(s[i]) == g(t[i])
    ensures Places(s, SizeOf(f), Everywhere()) == Places(t, SizeOf(g), Everywhere())
  {
  }
}
