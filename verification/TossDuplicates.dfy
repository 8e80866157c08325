/**
 Duplicate candidates among imported rows (frontend/src/tossImportUtils.js).

 `lower` stands for `toLowerCase`. A missing text field is the empty string. The group id
 `dup-<n>` is the number n.
 */
module TossDuplicates {
  import opened Outcomes
  import opened Sorting
  import Text = DecimalInput

  datatype Exclusion = NoReason | DuplicateCandidate | OtherReason(text: string)

  datatype Details = Details(occurredOn: string, time: string, itemName: string,
                             amount: string, signedAmount: string, balance: string, income: bool)

  datatype Row = Row(details: Details, groupId: Option<nat>, exclusion: Exclusion, included: bool)

  // ---------------------------------------------------------------------------
  // The key of a row
  // ---------------------------------------------------------------------------

  function Trim(s: string): string {
    Text.TrimEnd(Text.TrimStart(s))
  }

  /** Every run of white space becomes one space. */
  function CollapseSpaces(s: string): string {
    if s == [] then []
    else if !Text.IsSpace(s[0]) then [s[0]] + CollapseSpaces(s[1..])
    else if |s| > 1 && Text.IsSpace(s[1]) then CollapseSpaces(s[1..])
    else " " + CollapseSpaces(s[1..])
  }

  function WithoutSign(s: string): string {
    if s != "" && (s[0] == '+' || s[0] == '-') then s[1..] else s
  }

  function SignedAmountPayload(d: Details, amountText: string): string {
    var fallback := Text.StripGrouping(d.signedAmount);
    var magnitude := WithoutSign(if amountText != "" then amountText else fallback);
    if magnitude == "" then fallback else if d.income then magnitude else "-" + magnitude
  }

  /** The five parts of a key. */
  function KeyParts(d: Details, lower: string -> string): seq<string> {
    [Trim(d.occurredOn), Trim(d.time), CollapseSpaces(lower(Trim(d.itemName))),
     SignedAmountPayload(d, Text.StripGrouping(d.amount)), Text.StripGrouping(d.balance)]
  }

  function Join(parts: seq<string>): string {
    if |parts| == 0 then "" else if |parts| == 1 then parts[0] else parts[0] + "|" + Join(parts[1..])
  }

  function TossDuplicateKey(d: Details, lower: string -> string): string {
    var parts := KeyParts(d, lower);
    if parts[0] == "" || parts[1] == "" || parts[2] == "" || parts[3] == "" then "" else Join(parts)
  }

  lemma {:induction false} BarSplits(a: string, x: string, b: string, y: string)
    requires '|' !in a && '|' !in b && a + "|" + x == b + "|" + y
    ensures a == b && x == y
  {
    var l, r := a + "|" + x, b + "|" + y;
    if a == "" {
      assert b == "" by { assert l[0] == r[0]; }
      assert l[1..] == x && r[1..] == y;
    } else {
      assert b != "" by { assert l[0] == r[0]; }
      assert l[0] == a[0] && r[0] == b[0];
      assert l[1..] == a[1..] + "|" + x && r[1..] == b[1..] + "|" + y;
      BarSplits(a[1..], x, b[1..], y);
    }
  }

  lemma {:induction false} JoinInjective(p: seq<string>, q: seq<string>)
    requires |p| == |q| && Join(p) == Join(q)
    requires forall i :: 0 <= i < |p| ==> '|' !in p[i] && '|' !in q[i]
    ensures p == q
  {
    if |p| > 1 {
      BarSplits(p[0], Join(p[1..]), q[0], Join(q[1..]));
      JoinInjective(p[1..], q[1..]);
      assert p == [p[0]] + p[1..] && q == [q[0]] + q[1..];
    }
  }

  /** A key is nonempty exactly when date, time, name and amount are there; and as long as no part
      contains the separator, equal keys mean equal parts. */
  lemma KeyIdentifies(a: Details, b: Details, lower: string -> string)
    ensures TossDuplicateKey(a, lower) != "" <==> forall i :: 0 <= i < 4 ==> KeyParts(a, lower)[i] != ""
    ensures TossDuplicateKey(a, lower) == TossDuplicateKey(b, lower) != ""
      && (forall i :: 0 <= i < 5 ==> '|' !in KeyParts(a, lower)[i] && '|' !in KeyParts(b, lower)[i])
      ==> KeyParts(a, lower) == KeyParts(b, lower)
  {
    var p, q := KeyParts(a, lower), KeyParts(b, lower);
    assert Join(p) == p[0] + "|" + Join(p[1..]);
    if TossDuplicateKey(a, lower) == TossDuplicateKey(b, lower) != ""
      && forall i :: 0 <= i < 5 ==> '|' !in p[i] && '|' !in q[i] {
      JoinInjective(p, q);
    }
  }

  // What the parts of a key are.

  ghost predicate AllSpaces(s: string) { forall i :: 0 <= i < |s| ==> Text.IsSpace(s[i]) }

  ghost predicate NoSpaces(s: string) { forall i :: 0 <= i < |s| ==> !Text.IsSpace(s[i]) }

  ghost predicate CleanEdges(s: string) { s == "" || (!Text.IsSpace(s[0]) && !Text.IsSpace(s[|s| - 1])) }

  lemma {:induction false} TrimStartExactly(s: string) returns (i: nat)
    ensures i <= |s| && AllSpaces(s[..i]) && Text.TrimStart(s) == s[i..] && (i < |s| ==> !Text.IsSpace(s[i]))
  {
    if s != "" && Text.IsSpace(s[0]) {
      i := TrimStartExactly(s[1..]);
      assert s[..i + 1] == [s[0]] + s[1..][..i] && s[1..][i..] == s[i + 1..];
      i := i + 1;
    } else {
      i := 0;
      assert s[0..] == s;
    }
  }

  lemma {:induction false} TrimEndExactly(s: string) returns (j: nat)
    ensures j <= |s| && AllSpaces(s[j..]) && Text.TrimEnd(s) == s[..j] && (j > 0 ==> !Text.IsSpace(s[j - 1]))
  {
    if s != "" && Text.IsSpace(s[|s| - 1]) {
      j := TrimEndExactly(s[..|s| - 1]);
      assert s[j..] == s[..|s| - 1][j..] + [s[|s| - 1]] && s[..|s| - 1][..j] == s[..j];
    } else {
      j := |s|;
      assert s[..|s|] == s;
    }
  }

  /** Trimming leaves what is between the outer spaces. */
  lemma TrimExactly(s: string) returns (i: nat, j: nat)
    ensures i <= j <= |s| && Trim(s) == s[i..j]
    ensures AllSpaces(s[..i]) && AllSpaces(s[j..]) && CleanEdges(Trim(s))
  {
    i := TrimStartExactly(s);
    var k := TrimEndExactly(s[i..]);
    j := i + k;
    assert s[i..][..k] == s[i..j] && s[i..][k..] == s[j..];
    if k > 0 {
      assert s[i..][0] == s[i] && s[i..][k - 1] == s[j - 1];
    }
  }

  lemma {:induction false} CollapseNothing(s: string)
    requires NoSpaces(s)
    ensures CollapseSpaces(s) == s
  {
    if s != "" {
      CollapseNothing(s[1..]);
      assert s == [s[0]] + s[1..];
    }
  }

  lemma {:induction false} CollapseGap(gap: string, v: string)
    requires AllSpaces(gap) && gap != "" && (v == "" || !Text.IsSpace(v[0]))
    ensures CollapseSpaces(gap + v) == " " + CollapseSpaces(v)
  {
    assert (gap + v)[0] == gap[0] && (gap + v)[1..] == gap[1..] + v;
    if |gap| > 1 {
      assert (gap + v)[1] == gap[1];
      CollapseGap(gap[1..], v);
    } else {
      assert gap[1..] + v == v;
    }
  }

  /** Every gap becomes one space, and what is between the gaps stays: with `CollapseNothing` this says what any text
      collapses to. */
  lemma {:induction false} CollapseSplits(u: string, gap: string, v: string)
    requires AllSpaces(gap) && gap != "" && NoSpaces(u) && (v == "" || !Text.IsSpace(v[0]))
    ensures CollapseSpaces(u + gap + v) == u + " " + CollapseSpaces(v)
  {
    if u == "" {
      assert u + gap + v == gap + v;
      CollapseGap(gap, v);
    } else {
      CollapseSplits(u[1..], gap, v);
      assert (u + gap + v)[0] == u[0] && (u + gap + v)[1..] == u[1..] + gap + v;
    }
  }

  /** The parts: date and time trimmed, the name trimmed, in lower case and with its gaps collapsed, the amount or else
      the signed amount without commas and without its sign, with a minus sign unless it is an income, and the balance
      without commas. */
  lemma PartsExactly(d: Details, lower: string -> string)
    ensures var parts := KeyParts(d, lower);
      var amount, signed := Text.StripGrouping(d.amount), Text.StripGrouping(d.signedAmount);
      var text := if amount != "" then amount else signed;
      var unsigned := if text != "" && text[0] in {'+', '-'} then text[1..] else text;
      && |parts| == 5 && parts[0] == Trim(d.occurredOn) && parts[1] == Trim(d.time)
      && parts[2] == CollapseSpaces(lower(Trim(d.itemName)))
      && parts[3] == (if unsigned == "" then signed else if d.income then unsigned else "-" + unsigned)
      && parts[4] == Trim(Filter(d.balance, (c: char) => c != ','))
      && amount == Trim(Filter(d.amount, (c: char) => c != ','))
      && signed == Trim(Filter(d.signedAmount, (c: char) => c != ','))
  {
    WithoutIsFilter(d.balance);
    WithoutIsFilter(d.amount);
    WithoutIsFilter(d.signedAmount);
  }

  lemma {:induction false} WithoutIsFilter(s: string)
    ensures Text.Without(s, ',') == Filter(s, (c: char) => c != ',')
  {
    if s != "" {
      WithoutIsFilter(s[1..]);
    }
  }

  // ---------------------------------------------------------------------------
  // The groups
  // ---------------------------------------------------------------------------

  function Occurrences(keys: seq<string>, k: string): nat {
    if keys == [] then 0 else Occurrences(keys[..|keys| - 1], k) + (if keys[|keys| - 1] == k then 1 else 0)
  }

  /** The different nonempty keys in order of first appearance. */
  function FirstKeys(keys: seq<string>): seq<string> {
    if keys == [] then []
    else
      var front, k := FirstKeys(keys[..|keys| - 1]), keys[|keys| - 1];
      if k == "" || k in front then front else front + [k]
  }

  function Repeated(keys: seq<string>): string -> bool {
    (k: string) => Occurrences(keys, k) > 1
  }

  /** The keys that form a group; the n-th of them is group n. */
  function GroupKeys(keys: seq<string>): seq<string> {
    Filter(FirstKeys(keys), Repeated(keys))
  }

  function IndexOf(s: seq<string>, k: string): (i: nat)
    requires k in s
    ensures i < |s| && s[i] == k && forall j :: 0 <= j < i ==> s[j] != k
  {
    if s[0] == k then 0 else 1 + IndexOf(s[1..], k)
  }

  function GroupOf(keys: seq<string>, k: string): Option<nat> {
    if k in GroupKeys(keys) then Some(IndexOf(GroupKeys(keys), k) + 1) else None
  }

  /** The keys of the rows. What follows holds for every key function; the source uses
      `TossDuplicateKey`. */
  function Keys(rows: seq<Row>, keyOf: Details -> string): seq<string> {
    seq(|rows|, i requires 0 <= i < |rows| => keyOf(rows[i].details))
  }

  function Marked(row: Row, group: Option<nat>): Row {
    if group.Some? then
      row.(groupId := group, exclusion := DuplicateCandidate, included := row.groupId.Some? && row.included)
    else
      row.(groupId := None, exclusion := if row.exclusion.DuplicateCandidate? then NoReason else row.exclusion)
  }

  function Recomputed(rows: seq<Row>, keyOf: Details -> string): seq<Row> {
    var keys := Keys(rows, keyOf);
    seq(|rows|, i requires 0 <= i < |rows| => Marked(rows[i], GroupOf(keys, keys[i])))
  }

  /** The first loop: `order` is the insertion order of the `grouped` map, `counts` the lengths of
      its index lists. */
  method CollectKeys(rows: seq<Row>, keyOf: Details -> string) returns (order: seq<string>, counts: map<string, nat>)
    ensures order == FirstKeys(Keys(rows, keyOf))
    ensures forall k :: k in order ==> k in counts && counts[k] == Occurrences(Keys(rows, keyOf), k)
  {
    ghost var keys := Keys(rows, keyOf);
    order, counts := [], map[];
    for i := 0 to |rows|
      invariant order == FirstKeys(keys[..i])
      invariant Counted(counts, keys[..i])
    {
      KeysNext(keys, i);
      CountedNext(counts, keys, i);
      var key := keyOf(rows[i].details);
      if key != "" {
        if key !in counts {
          order := order + [key];
          counts := counts[key := 1];
        } else {
          counts := counts[key := counts[key] + 1];
        }
      }
    }
    assert keys[..|rows|] == keys;
  }

  /** The second loop. */
  method NumberGroups(order: seq<string>, counts: map<string, nat>, ghost keys: seq<string>)
    returns (groups: map<string, nat>)
    requires order == FirstKeys(keys)
    requires forall k :: k in order ==> k in counts && counts[k] == Occurrences(keys, k)
    ensures GroupsNumbered(groups, GroupKeys(keys))
  {
    var duplicateIndex := 0;
    groups := map[];
    for i := 0 to |order|
      invariant duplicateIndex == |Filter(order[..i], Repeated(keys))|
      invariant GroupsNumbered(groups, Filter(order[..i], Repeated(keys)))
    {
      FilterNext(order, i, Repeated(keys));
      FirstKeysDistinct(keys);
      NotYetNumbered(order, i, Repeated(keys));
      if counts[order[i]] > 1 {
        duplicateIndex := duplicateIndex + 1;
        groups := groups[order[i] := duplicateIndex];
      }
    }
    assert order[..|order|] == order;
  }

  method RecomputeTossDuplicateRows(rows: seq<Row>, keyOf: Details -> string) returns (result: seq<Row>)
    ensures result == Recomputed(rows, keyOf)
  {
    var order, counts := CollectKeys(rows, keyOf);
    ghost var keys := Keys(rows, keyOf);
    var groups := NumberGroups(order, counts, keys);
    result := [];
    for i := 0 to |rows|
      invariant |result| == i && forall j :: 0 <= j < i ==> result[j] == Marked(rows[j], GroupOf(keys, keys[j]))
    {
      var key := keyOf(rows[i].details);
      NumberIsGroup(groups, keys, key);
      var group := if key in groups then Some(groups[key]) else None;
      result := result + [Marked(rows[i], group)];
    }
  }

  ghost predicate Counted(counts: map<string, nat>, keys: seq<string>) {
    && (forall k :: k in counts <==> k in FirstKeys(keys))
    && (forall k :: k in counts ==> counts[k] == Occurrences(keys, k))
  }

  lemma CountedNext(counts: map<string, nat>, keys: seq<string>, i: nat)
    requires i < |keys| && Counted(counts, keys[..i])
    ensures var k := keys[i];
      if k == "" then Counted(counts, keys[..i + 1])
      else Counted(counts[k := if k in counts then counts[k] + 1 else 1], keys[..i + 1])
  {
    KeysNext(keys, i);
    AbsentKey(keys[..i], keys[i]);
  }

  ghost predicate GroupsNumbered(groups: map<string, nat>, order: seq<string>) {
    && (forall k :: k in groups <==> k in order)
    && (forall i :: 0 <= i < |order| ==> order[i] in groups && groups[order[i]] == i + 1)
  }

  lemma KeysNext(keys: seq<string>, i: nat)
    requires i < |keys|
    ensures FirstKeys(keys[..i + 1])
      == if keys[i] == "" || keys[i] in FirstKeys(keys[..i]) then FirstKeys(keys[..i])
        else FirstKeys(keys[..i]) + [keys[i]]
    ensures forall k :: Occurrences(keys[..i + 1], k) == Occurrences(keys[..i], k) + (if keys[i] == k then 1 else 0)
  {
    assert keys[..i + 1][..i] == keys[..i];
  }

  lemma {:induction false} AbsentKey(keys: seq<string>, k: string)
    ensures k != "" ==> (k in FirstKeys(keys) <==> k in keys)
    ensures Occurrences(keys, k) > 0 <==> k in keys
    ensures "" !in FirstKeys(keys)
  {
    if keys != [] {
      AbsentKey(keys[..|keys| - 1], k);
      assert keys == keys[..|keys| - 1] + [keys[|keys| - 1]];
    }
  }

  lemma FilterNext(s: seq<string>, i: nat, p: string -> bool)
    requires i < |s|
    ensures Filter(s[..i + 1], p) == Filter(s[..i], p) + (if p(s[i]) then [s[i]] else [])
  {
    assert s[..i + 1] == s[..i] + [s[i]];
    FilterAppend(s[..i], [s[i]], p);
  }

  lemma NotYetNumbered(s: seq<string>, i: nat, p: string -> bool)
    requires i < |s| && Distinct(s)
    ensures s[i] !in Filter(s[..i], p)
  {
    FilterElements(s[..i], p, s[i]);
  }

  lemma {:induction false} FirstKeysDistinct(keys: seq<string>)
    ensures Distinct(FirstKeys(keys))
  {
    if keys != [] {
      FirstKeysDistinct(keys[..|keys| - 1]);
    }
  }

  lemma {:induction false} FilterDistinct(s: seq<string>, p: string -> bool)
    requires Distinct(s)
    ensures Distinct(Filter(s, p))
  {
    if s != [] {
      FilterDistinct(s[1..], p);
      FilterElements(s[1..], p, s[0]);
    }
  }

  lemma NumberIsGroup(groups: map<string, nat>, keys: seq<string>, k: string)
    requires GroupsNumbered(groups, GroupKeys(keys))
    ensures GroupOf(keys, k) == if k in groups then Some(groups[k]) else None
  {
  }

  // ---------------------------------------------------------------------------
  // What the groups mean
  // ---------------------------------------------------------------------------

  lemma {:induction false} TwoOccurrences(keys: seq<string>, k: string, i: nat)
    requires i < |keys| && keys[i] == k
    ensures Occurrences(keys, k) > 1 <==> exists j :: 0 <= j < |keys| && j != i && keys[j] == k
  {
    var n := |keys| - 1;
    var front := keys[..n];
    if i < n {
      TwoOccurrences(front, k, i);
      AbsentKey(front, k);
      assert front[i] == k;
      assert forall j :: 0 <= j < n ==> front[j] == keys[j];
      if keys[n] != k && exists j :: 0 <= j < |keys| && j != i && keys[j] == k {
        var j :| 0 <= j < |keys| && j != i && keys[j] == k;
        assert front[j] == k;
      }
    } else {
      AbsentKey(front, k);
      if k in front {
        var j :| 0 <= j < |front| && front[j] == k;
        assert keys[j] == k;
      }
    }
  }

  lemma GroupKeysAre(keys: seq<string>, k: string)
    ensures k in GroupKeys(keys) <==> k != "" && Occurrences(keys, k) > 1
  {
    FilterElements(FirstKeys(keys), Repeated(keys), k);
    AbsentKey(keys, k);
  }

  /** A row is grouped exactly when another row has the same nonempty key. */
  lemma GroupedExactlyWhenShared(rows: seq<Row>, keyOf: Details -> string, i: nat)
    requires i < |rows|
    ensures var keys := Keys(rows, keyOf);
      Recomputed(rows, keyOf)[i].groupId.Some?
      <==> (keys[i] != "" && exists j :: 0 <= j < |rows| && j != i && keys[j] == keys[i])
  {
    var keys := Keys(rows, keyOf);
    GroupKeysAre(keys, keys[i]);
    TwoOccurrences(keys, keys[i], i);
  }

  /** Two different rows share a group exactly when their keys are equal and nonempty. */
  lemma SameGroupExactlyWhenSameKey(rows: seq<Row>, keyOf: Details -> string, i: nat, j: nat)
    requires i < |rows| && j < |rows| && i != j
    ensures var keys, r := Keys(rows, keyOf), Recomputed(rows, keyOf);
      r[i].groupId.Some? && r[i].groupId == r[j].groupId <==> keys[i] == keys[j] != ""
  {
    var keys := Keys(rows, keyOf);
    GroupedExactlyWhenShared(rows, keyOf, i);
    GroupedExactlyWhenShared(rows, keyOf, j);
  }

  /** The keys before a key in the list of first keys have all appeared before that key does. */
  lemma {:induction false} EarlierKeys(keys: seq<string>, a: nat, b: nat, j: nat)
    requires a < b < |FirstKeys(keys)| && j < |keys| && keys[j] == FirstKeys(keys)[b]
    ensures FirstKeys(keys)[a] in keys[..j]
  {
    var n := |keys| - 1;
    var front := keys[..n];
    AbsentKey(front, FirstKeys(keys)[a]);
    AbsentKey(front, FirstKeys(keys)[b]);
    if j < n {
      FirstKeysDistinct(keys);
      assert front[j] == keys[j] && keys[j] in front;
      if b < |FirstKeys(front)| {
        EarlierKeys(front, a, b, j);
        assert front[..j] == keys[..j];
      }
    } else if b < |FirstKeys(front)| {
      assert FirstKeys(front)[a] in FirstKeys(front);
      assert front == keys[..j];
    } else {
      assert FirstKeys(front)[a] in FirstKeys(front);
    }
  }

  lemma {:induction false} FilterOrder(s: seq<string>, p: string -> bool, a: nat, b: nat) returns (c: nat, d: nat)
    requires a < b < |Filter(s, p)|
    ensures c < d < |s| && s[c] == Filter(s, p)[a] && s[d] == Filter(s, p)[b]
  {
    if !p(s[0]) {
      c, d := FilterOrder(s[1..], p, a, b);
      c, d := c + 1, d + 1;
    } else if a > 0 {
      c, d := FilterOrder(s[1..], p, a - 1, b - 1);
      c, d := c + 1, d + 1;
    } else {
      c := 0;
      FilterElements(s[1..], p, Filter(s[1..], p)[b - 1]);
      d :| 1 <= d < |s| && s[1..][d - 1] == Filter(s[1..], p)[b - 1];
    }
  }

  lemma RecomputedAt(rows: seq<Row>, keyOf: Details -> string, i: nat)
    requires i < |rows|
    ensures Recomputed(rows, keyOf)[i].groupId == GroupOf(Keys(rows, keyOf), Keys(rows, keyOf)[i])
  {
  }

  /** The n-th group key has number n. */
  lemma GroupNumber(keys: seq<string>, n: nat)
    requires 1 <= n <= |GroupKeys(keys)|
    ensures GroupOf(keys, GroupKeys(keys)[n - 1]) == Some(n)
  {
    FirstKeysDistinct(keys);
    FilterDistinct(FirstKeys(keys), Repeated(keys));
  }

  lemma EarlierGroups(keys: seq<string>, j: nat, m: nat)
    requires j < |keys| && GroupOf(keys, keys[j]).Some? && 1 <= m < GroupOf(keys, keys[j]).value
    ensures exists i :: 0 <= i < j && GroupOf(keys, keys[i]) == Some(m)
  {
    var n := GroupOf(keys, keys[j]).value;
    var a, b := FilterOrder(FirstKeys(keys), Repeated(keys), m - 1, n - 1);
    EarlierKeys(keys, a, b, j);
    GroupNumber(keys, m);
    var i :| 0 <= i < j && keys[i] == GroupKeys(keys)[m - 1];
  }

  /** Groups are numbered by first appearance, without gaps: numbers run from 1 up to the number of
      groups, and every smaller number is found on an earlier row. */
  lemma NumberedByFirstAppearance(rows: seq<Row>, keyOf: Details -> string, j: nat, m: nat)
    requires j < |rows| && Recomputed(rows, keyOf)[j].groupId.Some?
    ensures var r := Recomputed(rows, keyOf);
      && 1 <= r[j].groupId.value <= |GroupKeys(Keys(rows, keyOf))|
      && (1 <= m < r[j].groupId.value ==> exists i :: 0 <= i < j && r[i].groupId == Some(m))
  {
    var keys := Keys(rows, keyOf);
    RecomputedAt(rows, keyOf, j);
    if 1 <= m < GroupOf(keys, keys[j]).value {
      EarlierGroups(keys, j, m);
      var i :| 0 <= i < j && GroupOf(keys, keys[i]) == Some(m);
      RecomputedAt(rows, keyOf, i);
    }
  }

  /** Each number up to the number of groups is used. */
  lemma EveryNumberUsed(rows: seq<Row>, keyOf: Details -> string, n: nat)
    requires 1 <= n <= |GroupKeys(Keys(rows, keyOf))|
    ensures exists i :: 0 <= i < |rows| && Recomputed(rows, keyOf)[i].groupId == Some(n)
  {
    var keys := Keys(rows, keyOf);
    var k := GroupKeys(keys)[n - 1];
    GroupKeysAre(keys, k);
    AbsentKey(keys, k);
    var i :| 0 <= i < |keys| && keys[i] == k;
    GroupNumber(keys, n);
    RecomputedAt(rows, keyOf, i);
  }

  /** Recomputing a second time changes nothing. */
  lemma RecomputeIdempotent(rows: seq<Row>, keyOf: Details -> string)
    ensures Recomputed(Recomputed(rows, keyOf), keyOf) == Recomputed(rows, keyOf)
  {
    assert Keys(Recomputed(rows, keyOf), keyOf) == Keys(rows, keyOf);
  }

  /** What becomes of a row: in a group it is excluded as a candidate, and stays included only if it was in a group
      before; outside it loses that reason and keeps its choice. */
  lemma RowExactly(rows: seq<Row>, keyOf: Details -> string, i: nat)
    requires i < |rows|
    ensures var r, row := Recomputed(rows, keyOf), rows[i];
      && |r| == |rows| && r[i].details == row.details
      && (r[i].groupId.Some? ==>
            r[i].exclusion == DuplicateCandidate && (r[i].included <==> row.included && row.groupId.Some?))
      && (r[i].groupId.None? ==>
            && r[i].included == row.included
            && r[i].exclusion == (if row.exclusion == DuplicateCandidate then NoReason else row.exclusion))
  {
  }

  /** Details and order of the rows are kept, and an excluded row is never turned into an included one. */
  lemma NeverIncludes(rows: seq<Row>, keyOf: Details -> string, i: nat)
    requires i < |rows|
    ensures var r := Recomputed(rows, keyOf);
      && |r| == |rows| && r[i].details == rows[i].details
      && (r[i].included ==> rows[i].included)
      && (r[i].groupId.None? ==> r[i].included == rows[i].included)
      && (r[i].groupId.Some? <==> r[i].exclusion.DuplicateCandidate?)
  {
  }
}
