/**
 The order of the transaction ledger (frontend/src/App.jsx, `compareTransactionsByLedgerOrder`).

 `collate` stands for `localeCompare`. A numeric key that is not finite is `None`.
 */
module LedgerOrder {
  import opened Outcomes
  import opened Sorting

  type Collate = (string, string) -> int

  datatype Item = Item(date: string, orderKey: Option<real>, createdAt: Option<real>, id: string)

  function NumberOrZero(key: Option<real>): real {
    if key.Some? then key.value else 0.0
  }

  function Compare(collate: Collate, left: Item, right: Item, dateDirection: int): real {
    if left.date != right.date then (collate(left.date, right.date) * dateDirection) as real
    else if NumberOrZero(left.orderKey) != NumberOrZero(right.orderKey) then
      NumberOrZero(left.orderKey) - NumberOrZero(right.orderKey)
    else if NumberOrZero(left.createdAt) != NumberOrZero(right.createdAt) then
      NumberOrZero(left.createdAt) - NumberOrZero(right.createdAt)
    else collate(left.id, right.id) as real
  }

  predicate Direction(d: int) { d == 1 || d == -1 }

  function LedgerLe(collate: Collate, d: int): (Item, Item) -> bool {
    (a: Item, b: Item) => Compare(collate, a, b, d) <= 0.0
  }

  function SortTransactions(collate: Collate, items: seq<Item>, d: int): seq<Item> {
    Sort(items, LedgerLe(collate, d))
  }

  // ---------------------------------------------------------------------------
  // When the comparator is an order
  // ---------------------------------------------------------------------------

  /** What any collation gives: a total preorder, with `localeCompare`'s signs. */
  ghost predicate Collation(collate: Collate) {
    && (forall a, b :: collate(a, b) > 0 <==> collate(b, a) < 0)
    && (forall a :: collate(a, a) == 0)
    && (forall a, b, c :: collate(a, b) <= 0 && collate(b, c) <= 0 ==> collate(a, c) <= 0)
  }

  /** Different strings never tie. */
  ghost predicate Strict(collate: Collate) {
    forall a, b :: collate(a, b) == 0 ==> a == b
  }

  /** The order, spelled out: by date in the direction asked for; on one day by order key, then by creation time, each
      zero if missing, then by id. */
  lemma LedgerLeExactly(collate: Collate, d: int, a: Item, b: Item)
    requires Collation(collate) && Direction(d)
    ensures var keyA, keyB := if a.orderKey.Some? then a.orderKey.value else 0.0,
                              if b.orderKey.Some? then b.orderKey.value else 0.0;
      var timeA, timeB := if a.createdAt.Some? then a.createdAt.value else 0.0,
                          if b.createdAt.Some? then b.createdAt.value else 0.0;
      LedgerLe(collate, d)(a, b)
      <==> if a.date != b.date then (if d == 1 then collate(a.date, b.date) <= 0 else collate(b.date, a.date) <= 0)
           else keyA < keyB || (keyA == keyB && (timeA < timeB || (timeA == timeB && collate(a.id, b.id) <= 0)))
  {
    assert collate(a.date, b.date) > 0 <==> collate(b.date, a.date) < 0;
    assert collate(b.date, a.date) > 0 <==> collate(a.date, b.date) < 0;
  }

  lemma DateStep(collate: Collate, d: int, a: Item, b: Item, c: Item)
    requires Collation(collate) && Strict(collate) && Direction(d)
    requires LedgerLe(collate, d)(a, b) && LedgerLe(collate, d)(b, c) && !(a.date == b.date == c.date)
    ensures LedgerLe(collate, d)(a, c)
  {
    if a.date != b.date && b.date != c.date {
      assert collate(a.date, b.date) != 0 && collate(b.date, c.date) != 0;
      if d == 1 {
        assert collate(a.date, c.date) <= 0 && collate(b.date, a.date) > 0;
      } else {
        assert collate(c.date, b.date) <= 0 && collate(b.date, a.date) <= 0;
        assert collate(c.date, a.date) <= 0 && collate(a.date, b.date) > 0;
      }
    }
  }

  lemma KeyStep(collate: Collate, d: int, a: Item, b: Item, c: Item)
    requires Collation(collate)
    requires LedgerLe(collate, d)(a, b) && LedgerLe(collate, d)(b, c) && a.date == b.date == c.date
    ensures LedgerLe(collate, d)(a, c)
  {
    assert collate(a.id, b.id) <= 0 && collate(b.id, c.id) <= 0 ==> collate(a.id, c.id) <= 0;
  }

  /** In both directions the comparator is a total preorder if the collation tells dates apart. */
  lemma LedgerOrderIsPreorder(collate: Collate, d: int)
    requires Collation(collate) && Strict(collate) && Direction(d)
    ensures TotalPreorder(LedgerLe(collate, d))
  {
    var le := LedgerLe(collate, d);
    forall a, b ensures le(a, b) || le(b, a) {
      assert collate(a.date, b.date) <= 0 || collate(b.date, a.date) <= 0;
      assert collate(a.id, b.id) <= 0 || collate(b.id, a.id) <= 0;
      assert collate(a.date, b.date) >= 0 || collate(b.date, a.date) >= 0;
    }
    forall a, b, c | le(a, b) && le(b, c) ensures le(a, c) {
      if a.date == b.date == c.date {
        KeyStep(collate, d, a, b, c);
      } else {
        DateStep(collate, d, a, b, c);
      }
    }
  }

  /** Two different dates that tie: an item of one date between two of the other, which are the wrong way round. */
  lemma TiedDatesAreIntransitive(collate: Collate, d: int, x: string, y: string)
    requires Collation(collate) && Direction(d) && collate(x, y) == 0 && x != y
    ensures var le := LedgerLe(collate, d);
      var high, other, low := Item(x, Some(1.0), None, ""), Item(y, None, None, ""), Item(x, Some(0.0), None, "");
      le(high, other) && le(other, low) && !le(high, low)
  {
    assert collate(y, x) == 0 by {
      assert !(collate(x, y) > 0) && !(collate(x, y) < 0);
    }
  }

  /** In either direction the comparator is a total preorder exactly when no two different dates tie. */
  lemma PreorderExactlyWhenStrict(collate: Collate, d: int)
    requires Collation(collate) && Direction(d)
    ensures TotalPreorder(LedgerLe(collate, d)) <==> Strict(collate)
  {
    if Strict(collate) {
      LedgerOrderIsPreorder(collate, d);
    } else {
      var x, y :| collate(x, y) == 0 && x != y;
      TiedDatesAreIntransitive(collate, d, x, y);
    }
  }

  /** Items with different ids never tie, so among them the order is total. */
  lemma TiesShareId(collate: Collate, d: int, a: Item, b: Item)
    requires Collation(collate) && Strict(collate) && Direction(d)
    requires LedgerLe(collate, d)(a, b) && LedgerLe(collate, d)(b, a)
    ensures a.id == b.id && a.date == b.date
  {
    assert collate(a.date, b.date) > 0 <==> collate(b.date, a.date) < 0;
    assert collate(b.date, a.date) > 0 <==> collate(a.date, b.date) < 0;
    assert collate(a.id, b.id) > 0 <==> collate(b.id, a.id) < 0;
    assert collate(b.id, a.id) > 0 <==> collate(a.id, b.id) < 0;
  }

  // ---------------------------------------------------------------------------
  // Descending is ascending with the days reversed
  // ---------------------------------------------------------------------------

  /** The length of the leading day. */
  function DayLength(s: seq<Item>): (k: nat)
    requires s != []
    ensures 1 <= k <= |s| && forall i :: 0 <= i < k ==> s[i].date == s[0].date
    ensures k < |s| ==> s[k].date != s[0].date
  {
    if |s| > 1 && s[1].date == s[0].date then 1 + DayLength(s[1..]) else 1
  }

  /** The days of a ledger in reverse order, each day as it was. */
  function ReverseDays(s: seq<Item>): seq<Item> {
    if s == [] then [] else var k := DayLength(s); ReverseDays(s[k..]) + s[..k]
  }

  function OnDay(date: string): Item -> bool {
    (item: Item) => item.date == date
  }

  function Before(collate: Collate, d: int): (string, string) -> bool {
    (a: string, b: string) => if d == 1 then collate(a, b) <= 0 else collate(b, a) <= 0
  }

  ghost predicate DateOrder(le: (string, string) -> bool) {
    TotalPreorder(le) && Antisymmetric(le)
  }

  lemma BeforeIsOrder(collate: Collate, d: int)
    requires Collation(collate) && Strict(collate)
    ensures DateOrder(Before(collate, d))
  {
    var le := Before(collate, d);
    forall a, b ensures le(a, b) || le(b, a) {
      assert collate(a, b) > 0 <==> collate(b, a) < 0;
      assert collate(b, a) > 0 <==> collate(a, b) < 0;
    }
    forall a, b | le(a, b) && le(b, a) ensures a == b {
      assert collate(a, b) > 0 <==> collate(b, a) < 0;
      assert collate(b, a) > 0 <==> collate(a, b) < 0;
    }
  }

  ghost predicate ByDate(s: seq<Item>, le: (string, string) -> bool) {
    forall i, j :: 0 <= i < j < |s| ==> le(s[i].date, s[j].date)
  }

  lemma SortedIsByDate(collate: Collate, s: seq<Item>, d: int)
    requires Collation(collate) && Direction(d) && Sorted(s, LedgerLe(collate, d))
    ensures ByDate(s, Before(collate, d))
  {
    var le := LedgerLe(collate, d);
    forall i, j | 0 <= i < j < |s| ensures Before(collate, d)(s[i].date, s[j].date) {
      assert le(s[i], s[j]);
      var x, y := s[i].date, s[j].date;
      assert collate(x, y) > 0 <==> collate(y, x) < 0;
      assert collate(y, x) > 0 <==> collate(x, y) < 0;
      assert collate(x, x) == 0;
    }
  }

  lemma SameHeads(a: seq<Item>, b: seq<Item>, le: (string, string) -> bool)
    requires DateOrder(le) && ByDate(a, le) && ByDate(b, le) && a != []
    requires forall date :: Filter(a, OnDay(date)) == Filter(b, OnDay(date))
    ensures b != [] && a[0] == b[0]
  {
    var x := a[0].date;
    FilterElements(a, OnDay(x), a[0]);
    FilterElements(b, OnDay(x), a[0]);
    var i :| 0 <= i < |b| && b[i] == a[0];
    var y := b[0].date;
    FilterElements(b, OnDay(y), b[0]);
    FilterElements(a, OnDay(y), b[0]);
    var j :| 0 <= j < |a| && a[j] == b[0];
    assert x == y by {
      assert le(y, x) && le(x, y);
    }
    assert Filter(a, OnDay(x))[0] == a[0] && Filter(b, OnDay(x))[0] == b[0];
  }

  /** A ledger sorted by date is determined by the sequences of its days. */
  lemma {:induction false} DaysDetermine(a: seq<Item>, b: seq<Item>, le: (string, string) -> bool)
    requires DateOrder(le) && ByDate(a, le) && ByDate(b, le)
    requires forall date :: Filter(a, OnDay(date)) == Filter(b, OnDay(date))
    ensures a == b
  {
    if a == [] {
      if b != [] {
        FilterElements(b, OnDay(b[0].date), b[0]);
      }
    } else {
      SameHeads(a, b, le);
      forall date ensures Filter(a[1..], OnDay(date)) == Filter(b[1..], OnDay(date)) {
        assert Filter(a, OnDay(date)) == Filter(b, OnDay(date));
        if OnDay(date)(a[0]) {
          assert Filter(a, OnDay(date))[1..] == Filter(a[1..], OnDay(date));
          assert Filter(b, OnDay(date))[1..] == Filter(b[1..], OnDay(date));
        }
      }
      DaysDetermine(a[1..], b[1..], le);
      assert a == [a[0]] + a[1..] && b == [b[0]] + b[1..];
    }
  }

  lemma {:induction false} FilterAll(s: seq<Item>, p: Item -> bool)
    ensures (forall i :: 0 <= i < |s| ==> p(s[i])) ==> Filter(s, p) == s
    ensures (forall i :: 0 <= i < |s| ==> !p(s[i])) ==> Filter(s, p) == []
  {
    if s != [] {
      FilterAll(s[1..], p);
    }
  }

  /** In a ledger sorted by date a day does not come back. */
  lemma LaterDaysDiffer(s: seq<Item>, le: (string, string) -> bool)
    requires DateOrder(le) && ByDate(s, le) && s != []
    ensures forall i :: DayLength(s) <= i < |s| ==> s[i].date != s[0].date
  {
    var k := DayLength(s);
    forall i | k <= i < |s| ensures s[i].date != s[0].date {
      assert le(s[0].date, s[k].date) && (i > k ==> le(s[k].date, s[i].date));
    }
  }

  /** Filtering by day, on a first day and a rest without that day. */
  lemma DayOrRest(day: seq<Item>, rest: seq<Item>, first: string, date: string)
    requires forall i :: 0 <= i < |day| ==> day[i].date == first
    requires forall i :: 0 <= i < |rest| ==> rest[i].date != first
    ensures Filter(day + rest, OnDay(date)) == if date == first then day else Filter(rest, OnDay(date))
    ensures date == first ==> Filter(rest, OnDay(date)) == []
  {
    FilterAppend(day, rest, OnDay(date));
    FilterAll(day, OnDay(date));
    FilterAll(rest, OnDay(date));
  }

  lemma RestOrDay(rest: seq<Item>, day: seq<Item>, first: string, date: string)
    requires forall i :: 0 <= i < |day| ==> day[i].date == first
    ensures Filter(rest + day, OnDay(date)) == Filter(rest, OnDay(date)) + (if date == first then day else [])
  {
    FilterAppend(rest, day, OnDay(date));
    FilterAll(day, OnDay(date));
  }

  lemma {:induction false} ReverseKeepsDays(s: seq<Item>, le: (string, string) -> bool, date: string)
    requires DateOrder(le) && ByDate(s, le)
    ensures Filter(ReverseDays(s), OnDay(date)) == Filter(s, OnDay(date))
    decreases |s|
  {
    if s != [] {
      var k := DayLength(s);
      var day, rest := s[..k], s[k..];
      assert s == day + rest;
      LaterDaysDiffer(s, le);
      ReverseKeepsDays(rest, le, date);
      DayOrRest(day, rest, s[0].date, date);
      RestOrDay(ReverseDays(rest), day, s[0].date, date);
    }
  }

  lemma {:induction false} ReverseElements(s: seq<Item>)
    ensures forall x :: x in ReverseDays(s) <==> x in s
    decreases |s|
  {
    if s != [] {
      ReverseElements(s[DayLength(s)..]);
    }
  }

  lemma AppendByDate(front: seq<Item>, day: seq<Item>, first: string, le: (string, string) -> bool)
    requires ByDate(front, le) && le(first, first)
    requires forall i :: 0 <= i < |day| ==> day[i].date == first
    requires forall x :: x in front ==> le(x.date, first)
    ensures ByDate(front + day, le)
  {
  }

  lemma {:induction false} ReverseIsByDate(s: seq<Item>, le: (string, string) -> bool, ge: (string, string) -> bool)
    requires DateOrder(le) && ByDate(s, le) && forall a, b :: ge(a, b) <==> le(b, a)
    ensures ByDate(ReverseDays(s), ge)
    decreases |s|
  {
    if s != [] {
      var k := DayLength(s);
      ReverseIsByDate(s[k..], le, ge);
      ReverseElements(s[k..]);
      forall x | x in s[k..] ensures ge(x.date, s[0].date) {
        var i :| k <= i < |s| && s[i] == x;
      }
      assert le(s[0].date, s[0].date);
      AppendByDate(ReverseDays(s[k..]), s[..k], s[0].date, ge);
    }
  }

  /** Within one day the direction does not matter. */
  lemma {:induction false} DaySortsAlike(collate: Collate, s: seq<Item>, date: string)
    requires forall i :: 0 <= i < |s| ==> s[i].date == date
    ensures SortTransactions(collate, s, 1) == SortTransactions(collate, s, -1)
  {
    if s != [] {
      DaySortsAlike(collate, s[1..], date);
      var rest := SortTransactions(collate, s[1..], 1);
      forall x ensures x in rest ==> x.date == date {
        SortElements(s[1..], LedgerLe(collate, 1), x);
      }
      InsertsAlike(collate, s[0], rest);
    }
  }

  lemma {:induction false} InsertsAlike(collate: Collate, x: Item, s: seq<Item>)
    requires forall y :: y in s ==> y.date == x.date
    ensures Insert(x, s, LedgerLe(collate, 1)) == Insert(x, s, LedgerLe(collate, -1))
  {
    if s != [] {
      assert s[0].date == x.date;
      InsertsAlike(collate, x, s[1..]);
    }
  }

  /** Sorting with the newest day first gives the days of the ascending ledger in reverse order, and
      leaves the order inside each day alone. */
  lemma DescendingReversesDays(collate: Collate, items: seq<Item>)
    requires Collation(collate) && Strict(collate)
    ensures SortTransactions(collate, items, -1) == ReverseDays(SortTransactions(collate, items, 1))
  {
    var up, down := SortTransactions(collate, items, 1), SortTransactions(collate, items, -1);
    LedgerOrderIsPreorder(collate, 1);
    LedgerOrderIsPreorder(collate, -1);
    SortSorts(items, LedgerLe(collate, 1));
    SortSorts(items, LedgerLe(collate, -1));
    SortedIsByDate(collate, up, 1);
    SortedIsByDate(collate, down, -1);
    BeforeIsOrder(collate, 1);
    BeforeIsOrder(collate, -1);
    ReverseIsByDate(up, Before(collate, 1), Before(collate, -1));
    forall date ensures Filter(down, OnDay(date)) == Filter(ReverseDays(up), OnDay(date)) {
      SameDay(collate, items, date);
      ReverseKeepsDays(up, Before(collate, 1), date);
    }
    DaysDetermine(down, ReverseDays(up), Before(collate, -1));
  }

  lemma SameDay(collate: Collate, items: seq<Item>, date: string)
    requires Collation(collate) && Strict(collate)
    ensures Filter(SortTransactions(collate, items, -1), OnDay(date))
      == Filter(SortTransactions(collate, items, 1), OnDay(date))
  {
    LedgerOrderIsPreorder(collate, 1);
    LedgerOrderIsPreorder(collate, -1);
    SortFilter(items, LedgerLe(collate, 1), OnDay(date));
    SortFilter(items, LedgerLe(collate, -1), OnDay(date));
    var day := Filter(items, OnDay(date));
    forall i | 0 <= i < |day| ensures day[i].date == date {
      FilterElements(items, OnDay(date), day[i]);
    }
    DaySortsAlike(collate, day, date);
  }
}
