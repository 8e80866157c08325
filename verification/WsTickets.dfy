/**
 One-time WebSocket tickets (backend/app/main.py, `_validate_ws_ticket`).

 The used-ticket table has one row per ticket id, holding the ticket's expiry. Expired rows are
 purged by every validation that gets as far as the database. Decoding a ticket is not modelled: a
 validation starts from the ticket id and whether the ticket names the right household; `expiry`
 gives the expiry a ticket id was issued with.
 */
module WsTickets {
  import opened Outcomes
  import opened Sorting

  type Jti = string

  function Purged(used: map<Jti, int>, now: int): map<Jti, int> {
    map j | j in used && used[j] > now :: used[j]
  }

  /** What is checked before the database is opened. */
  predicate Presentable(householdMatches: bool, jti: Jti, exp: int, now: int) {
    householdMatches && jti != "" && exp > 0 && exp > now
  }

  /** Delete the expired rows and insert the ticket; a duplicate key rolls both back. */
  function Committed(used: map<Jti, int>, now: int, jti: Jti, exp: int): (map<Jti, int>, bool) {
    if jti in Purged(used, now) then (used, false) else (Purged(used, now)[jti := exp], true)
  }

  function Validated(used: map<Jti, int>, householdMatches: bool, jti: Jti, exp: int, now: int): (map<Jti, int>, bool) {
    if Presentable(householdMatches, jti, exp, now) then Committed(used, now, jti, exp) else (used, false)
  }

  class UsedTickets {
    var used: map<Jti, int>

    constructor ()
      ensures used == map[]
    {
      used := map[];
    }

    method ValidateWsTicket(householdMatches: bool, jti: Jti, exp: int, now: int) returns (accepted: bool)
      modifies this
      ensures (used, accepted) == Validated(old(used), householdMatches, jti, exp, now)
    {
      if !householdMatches || jti == "" || exp <= 0 || exp <= now {
        return false;
      }
      var before := used;
      used := map j | j in used && used[j] > now :: used[j];
      if jti in used {
        used := before;
        return false;
      }
      used := used[jti := exp];
      accepted := true;
    }
  }

  // ---------------------------------------------------------------------------
  // Clock read and transaction in one step
  // ---------------------------------------------------------------------------

  datatype Request = Request(householdMatches: bool, jti: Jti, now: int)

  function TableAfter(expiry: Jti -> int, requests: seq<Request>): map<Jti, int> {
    if requests == [] then map[]
    else
      var r := requests[|requests| - 1];
      Validated(TableAfter(expiry, requests[..|requests| - 1]), r.householdMatches, r.jti, expiry(r.jti), r.now).0
  }

  predicate Accepted(expiry: Jti -> int, requests: seq<Request>, i: nat)
    requires i < |requests|
  {
    var r := requests[i];
    Validated(TableAfter(expiry, requests[..i]), r.householdMatches, r.jti, expiry(r.jti), r.now).1
  }

  ghost predicate Ordered(requests: seq<Request>) {
    forall i, j :: 0 <= i <= j < |requests| ==> requests[i].now <= requests[j].now
  }

  ghost predicate AcceptedBefore(expiry: Jti -> int, requests: seq<Request>, n: nat, jti: Jti)
    requires n <= |requests|
  {
    exists i :: 0 <= i < n && requests[i].jti == jti && Accepted(expiry, requests, i)
  }

  /** The table a request finds. */
  function TableAt(expiry: Jti -> int, requests: seq<Request>, n: nat): map<Jti, int>
    requires n <= |requests|
  {
    TableAfter(expiry, requests[..n])
  }

  lemma BeforeNext(expiry: Jti -> int, requests: seq<Request>, n: nat, jti: Jti)
    requires n < |requests|
    ensures AcceptedBefore(expiry, requests, n + 1, jti)
      <==> (AcceptedBefore(expiry, requests, n, jti) || (requests[n].jti == jti && Accepted(expiry, requests, n)))
    ensures var r := requests[n];
      TableAt(expiry, requests, n + 1)
        == Validated(TableAt(expiry, requests, n), r.householdMatches, r.jti, expiry(r.jti), r.now).0
  {
    assert requests[..n + 1][..n] == requests[..n];
    if requests[n].jti == jti && Accepted(expiry, requests, n) {
      assert AcceptedBefore(expiry, requests, n + 1, jti);
    }
  }

  /** Every row of the table is an accepted ticket with its own expiry. */
  lemma {:induction false} RowsWereAccepted(expiry: Jti -> int, requests: seq<Request>, n: nat, jti: Jti)
    requires n <= |requests| && jti in TableAt(expiry, requests, n)
    ensures TableAt(expiry, requests, n)[jti] == expiry(jti) && AcceptedBefore(expiry, requests, n, jti)
  {
    if n > 0 {
      BeforeNext(expiry, requests, n - 1, jti);
      if jti in TableAt(expiry, requests, n - 1) {
        RowsWereAccepted(expiry, requests, n - 1, jti);
      }
    }
  }

  /** An accepted ticket that has not expired yet still has its row. */
  lemma {:induction false} AcceptedHaveRows(expiry: Jti -> int, requests: seq<Request>, n: nat, jti: Jti, time: int)
    requires n <= |requests| && AcceptedBefore(expiry, requests, n, jti)
    requires expiry(jti) > time && forall i :: 0 <= i < n ==> requests[i].now <= time
    ensures jti in TableAt(expiry, requests, n) && TableAt(expiry, requests, n)[jti] == expiry(jti)
  {
    if n > 0 {
      BeforeNext(expiry, requests, n - 1, jti);
      if AcceptedBefore(expiry, requests, n - 1, jti) {
        AcceptedHaveRows(expiry, requests, n - 1, jti, time);
      }
    }
  }

  /** A ticket is accepted exactly when it is of the household, has an id, has not expired and was never accepted
      before, over any unbounded run, although expired rows are deleted. */
  lemma AcceptedExactlyOnce(expiry: Jti -> int, requests: seq<Request>, i: nat)
    requires i < |requests| && Ordered(requests)
    ensures var r := requests[i];
      Accepted(expiry, requests, i)
      <==> r.householdMatches && r.jti != "" && expiry(r.jti) > 0 && expiry(r.jti) > r.now
           && !AcceptedBefore(expiry, requests, i, r.jti)
  {
    var r := requests[i];
    if Presentable(r.householdMatches, r.jti, expiry(r.jti), r.now) {
      if AcceptedBefore(expiry, requests, i, r.jti) {
        AcceptedHaveRows(expiry, requests, i, r.jti, r.now);
      } else if r.jti in TableAt(expiry, requests, i) {
        RowsWereAccepted(expiry, requests, i, r.jti);
      }
    }
  }

  // ---------------------------------------------------------------------------
  // Clock read and transaction as two steps
  // ---------------------------------------------------------------------------

  type Call = nat

  datatype Pending = Pending(jti: Jti, now: int)

  datatype Event =
    | ReadClock(call: Call, householdMatches: bool, jti: Jti, time: int)
    | Commit(call: Call, time: int)

  datatype State = State(used: map<Jti, int>, pending: map<Call, Pending>, accepted: seq<Jti>)

  function Exec(expiry: Jti -> int, s: State, e: Event): State {
    match e
    case ReadClock(c, householdMatches, jti, time) =>
      if c in s.pending || !Presentable(householdMatches, jti, expiry(jti), time) then s
      else s.(pending := s.pending[c := Pending(jti, time)])
    case Commit(c, time) =>
      if c !in s.pending then s
      else
        var p := s.pending[c];
        var (used, ok) := Committed(s.used, p.now, p.jti, expiry(p.jti));
        State(used, s.pending - {c}, if ok then s.accepted + [p.jti] else s.accepted)
  }

  function Run(expiry: Jti -> int, events: seq<Event>): State {
    if events == [] then State(map[], map[], [])
    else Exec(expiry, Run(expiry, events[..|events| - 1]), events[|events| - 1])
  }

  /** The waiting validation that the event commits, if it commits one. */
  function Committing(expiry: Jti -> int, events: seq<Event>, j: nat): Option<Pending>
    requires j < |events|
  {
    var s := Run(expiry, events[..j]);
    if events[j].Commit? && events[j].call in s.pending then Some(s.pending[events[j].call]) else None
  }

  predicate Commits(expiry: Jti -> int, events: seq<Event>, j: nat, jti: Jti)
    requires j < |events|
  {
    Committing(expiry, events, j).Some? && Committing(expiry, events, j).value.jti == jti
  }

  /** The event commits a validation of this ticket, which is accepted. */
  predicate Takes(expiry: Jti -> int, events: seq<Event>, j: nat, jti: Jti)
    requires j < |events|
  {
    && Commits(expiry, events, j, jti)
    && Committed(Run(expiry, events[..j]).used, Committing(expiry, events, j).value.now, jti, expiry(jti)).1
  }

  /** An accepted commit, of any ticket, whose clock read is no earlier than this ticket's expiry: its purge deletes
      the ticket's row. */
  predicate Clears(expiry: Jti -> int, events: seq<Event>, k: nat, jti: Jti)
    requires k < |events|
  {
    && Committing(expiry, events, k).Some?
    && Takes(expiry, events, k, Committing(expiry, events, k).value.jti)
    && Committing(expiry, events, k).value.now >= expiry(jti)
  }

  lemma RunNext(expiry: Jti -> int, events: seq<Event>, n: nat)
    requires n < |events|
    ensures Run(expiry, events[..n + 1]) == Exec(expiry, Run(expiry, events[..n]), events[n])
  {
    assert events[..n + 1][..n] == events[..n];
  }

  /** A validation of the right household, with a ticket id and before the ticket's expiry, reads the clock. */
  ghost predicate Reads(expiry: Jti -> int, events: seq<Event>, i: nat, c: Call, jti: Jti, time: int)
    requires i < |events|
  {
    && events[i] == ReadClock(c, true, jti, time) && jti != "" && expiry(jti) > 0 && time < expiry(jti)
    && c !in Run(expiry, events[..i]).pending
  }

  /** It has not committed before n. */
  ghost predicate Waits(expiry: Jti -> int, events: seq<Event>, i: nat, n: nat, c: Call, jti: Jti, time: int)
    requires i < n <= |events|
  {
    Reads(expiry, events, i, c, jti, time) && forall k :: i < k < n ==> !(events[k].Commit? && events[k].call == c)
  }

  ghost predicate Waiting(expiry: Jti -> int, events: seq<Event>, n: nat, c: Call, jti: Jti, time: int)
    requires n <= |events|
  {
    exists i :: 0 <= i < n && Waits(expiry, events, i, n, c, jti, time)
  }

  lemma WaitingNext(expiry: Jti -> int, events: seq<Event>, n: nat, c: Call, jti: Jti, time: int)
    requires n < |events|
    ensures Waiting(expiry, events, n + 1, c, jti, time)
      <==> || Reads(expiry, events, n, c, jti, time)
           || (Waiting(expiry, events, n, c, jti, time) && !(events[n].Commit? && events[n].call == c))
  {
    if Waiting(expiry, events, n + 1, c, jti, time) && !Reads(expiry, events, n, c, jti, time) {
      var i :| 0 <= i < n + 1 && Waits(expiry, events, i, n + 1, c, jti, time);
      assert Waits(expiry, events, i, n, c, jti, time);
    }
    if Reads(expiry, events, n, c, jti, time) {
      assert Waits(expiry, events, n, n + 1, c, jti, time);
    } else if Waiting(expiry, events, n, c, jti, time) && !(events[n].Commit? && events[n].call == c) {
      var i :| 0 <= i < n && Waits(expiry, events, i, n, c, jti, time);
      assert Waits(expiry, events, i, n + 1, c, jti, time);
    }
  }

  /** A validation waits for its transaction exactly from such a clock read to its commit. */
  lemma {:induction false} WaitingExactly(expiry: Jti -> int, events: seq<Event>, n: nat, c: Call, jti: Jti, time: int)
    requires n <= |events|
    ensures c in Run(expiry, events[..n]).pending && Run(expiry, events[..n]).pending[c] == Pending(jti, time)
      <==> Waiting(expiry, events, n, c, jti, time)
  {
    if n > 0 {
      WaitingExactly(expiry, events, n - 1, c, jti, time);
      RunNext(expiry, events, n - 1);
      WaitingNext(expiry, events, n - 1, c, jti, time);
    }
  }

  /** Waiting validations read the clock before their ticket expired, and rows carry their ticket's expiry. */
  ghost predicate Good(expiry: Jti -> int, s: State) {
    && (forall c :: c in s.pending ==> s.pending[c].now < expiry(s.pending[c].jti))
    && (forall t :: t in s.used ==> s.used[t] == expiry(t))
  }

  lemma {:induction false} RunGood(expiry: Jti -> int, events: seq<Event>, n: nat)
    requires n <= |events|
    ensures Good(expiry, Run(expiry, events[..n]))
  {
    if n > 0 {
      RunGood(expiry, events, n - 1);
      RunNext(expiry, events, n - 1);
    }
  }

  /** The row that the commit at `i` put there is not deleted before `n`. */
  ghost predicate Stays(expiry: Jti -> int, events: seq<Event>, i: nat, n: nat, jti: Jti)
    requires i < n <= |events|
  {
    Takes(expiry, events, i, jti) && forall k :: i < k < n ==> !Clears(expiry, events, k, jti)
  }

  ghost predicate HasRow(expiry: Jti -> int, events: seq<Event>, n: nat, jti: Jti)
    requires n <= |events|
  {
    exists i :: 0 <= i < n && Stays(expiry, events, i, n, jti)
  }

  lemma HasRowNext(expiry: Jti -> int, events: seq<Event>, n: nat, jti: Jti)
    requires n < |events|
    ensures HasRow(expiry, events, n + 1, jti)
      <==> Takes(expiry, events, n, jti) || (HasRow(expiry, events, n, jti) && !Clears(expiry, events, n, jti))
  {
    if HasRow(expiry, events, n + 1, jti) && !Takes(expiry, events, n, jti) {
      var i :| 0 <= i < n + 1 && Stays(expiry, events, i, n + 1, jti);
      assert Stays(expiry, events, i, n, jti);
    }
    if Takes(expiry, events, n, jti) {
      assert Stays(expiry, events, n, n + 1, jti);
    } else if HasRow(expiry, events, n, jti) && !Clears(expiry, events, n, jti) {
      var i :| 0 <= i < n && Stays(expiry, events, i, n, jti);
      assert Stays(expiry, events, i, n + 1, jti);
    }
  }

  /** One event inserts the row, deletes it or leaves it. */
  lemma RowNext(expiry: Jti -> int, events: seq<Event>, n: nat, jti: Jti)
    requires n < |events|
    ensures jti in Run(expiry, events[..n + 1]).used
      <==> Takes(expiry, events, n, jti) || (jti in Run(expiry, events[..n]).used && !Clears(expiry, events, n, jti))
  {
    RunGood(expiry, events, n);
    RunNext(expiry, events, n);
  }

  /** A ticket has a row exactly when it was accepted and its row has not been deleted since. */
  lemma {:induction false} RowsExactly(expiry: Jti -> int, events: seq<Event>, n: nat, jti: Jti)
    requires n <= |events|
    ensures jti in Run(expiry, events[..n]).used <==> HasRow(expiry, events, n, jti)
  {
    if n > 0 {
      RowsExactly(expiry, events, n - 1, jti);
      RowNext(expiry, events, n - 1, jti);
      HasRowNext(expiry, events, n - 1, jti);
    }
  }

  /** A waiting validation is accepted exactly when its ticket's row is not there when it commits. */
  lemma TakesWithoutRow(expiry: Jti -> int, events: seq<Event>, j: nat, jti: Jti)
    requires j < |events| && Commits(expiry, events, j, jti)
    ensures Takes(expiry, events, j, jti) <==> !HasRow(expiry, events, j, jti)
  {
    RunGood(expiry, events, j);
    RowsExactly(expiry, events, j, jti);
  }

  /** In every interleaving a waiting validation is accepted exactly when each earlier acceptance of its ticket was
      followed by a commit that deleted the row. */
  lemma AcceptedExactlyWhenCleared(expiry: Jti -> int, events: seq<Event>, j: nat, jti: Jti)
    requires j < |events| && Commits(expiry, events, j, jti)
    ensures Takes(expiry, events, j, jti)
      <==> (forall i :: 0 <= i < j && Takes(expiry, events, i, jti)
              ==> exists k :: i < k < j && Clears(expiry, events, k, jti))
  {
    TakesWithoutRow(expiry, events, j, jti);
    if HasRow(expiry, events, j, jti) {
      var i :| 0 <= i < j && Stays(expiry, events, i, j, jti);
    } else {
      forall i | 0 <= i < j && Takes(expiry, events, i, jti)
        ensures exists k :: i < k < j && Clears(expiry, events, k, jti)
      {
        assert !Stays(expiry, events, i, j, jti);
      }
    }
  }

  // How often a ticket was accepted.

  function Times(takes: nat -> bool, n: nat): nat {
    if n == 0 then 0 else Times(takes, n - 1) + if takes(n - 1) then 1 else 0
  }

  lemma {:induction false} TimesOnce(takes: nat -> bool, n: nat)
    ensures Times(takes, n) >= 1 <==> exists i :: 0 <= i < n && takes(i)
  {
    if n > 0 {
      TimesOnce(takes, n - 1);
    }
  }

  lemma {:induction false} TimesTwice(takes: nat -> bool, n: nat)
    ensures Times(takes, n) >= 2 <==> exists i, j :: 0 <= i < j < n && takes(i) && takes(j)
  {
    if n > 0 {
      TimesTwice(takes, n - 1);
      TimesOnce(takes, n - 1);
    }
  }

  function TakesOf(expiry: Jti -> int, events: seq<Event>, jti: Jti): nat -> bool {
    (i: nat) => i < |events| && Takes(expiry, events, i, jti)
  }

  lemma AcceptedNext(expiry: Jti -> int, events: seq<Event>, n: nat, jti: Jti)
    requires n < |events|
    ensures multiset(Run(expiry, events[..n + 1]).accepted)[jti]
      == multiset(Run(expiry, events[..n]).accepted)[jti] + if TakesOf(expiry, events, jti)(n) then 1 else 0
  {
    RunNext(expiry, events, n);
  }

  lemma {:induction false} AcceptedTimes(expiry: Jti -> int, events: seq<Event>, n: nat, jti: Jti)
    requires n <= |events|
    ensures multiset(Run(expiry, events[..n]).accepted)[jti] == Times(TakesOf(expiry, events, jti), n)
  {
    if n > 0 {
      AcceptedTimes(expiry, events, n - 1, jti);
      AcceptedNext(expiry, events, n - 1, jti);
    }
  }

  ghost predicate TakenTwice(expiry: Jti -> int, events: seq<Event>, jti: Jti) {
    exists i, j :: 0 <= i < j < |events| && Takes(expiry, events, i, jti) && Takes(expiry, events, j, jti)
  }

  lemma AcceptedTwice(expiry: Jti -> int, events: seq<Event>, jti: Jti)
    ensures multiset(Run(expiry, events).accepted)[jti] >= 2 <==> TakenTwice(expiry, events, jti)
  {
    assert events[..|events|] == events;
    var takes := TakesOf(expiry, events, jti);
    AcceptedTimes(expiry, events, |events|, jti);
    TimesTwice(takes, |events|);
    if TakenTwice(expiry, events, jti) {
      var i, j :| 0 <= i < j < |events| && Takes(expiry, events, i, jti) && Takes(expiry, events, j, jti);
      assert takes(i) && takes(j);
    }
  }

  /** A commit that deletes the ticket's row falls between an acceptance and a later commit of the same ticket. */
  ghost predicate ClearedBetween(expiry: Jti -> int, events: seq<Event>, i: nat, k: nat, j: nat, jti: Jti)
    requires i < k < j < |events|
  {
    Takes(expiry, events, i, jti) && Clears(expiry, events, k, jti) && Commits(expiry, events, j, jti)
  }

  ghost predicate Reopened(expiry: Jti -> int, events: seq<Event>, jti: Jti) {
    exists i, k, j :: 0 <= i < k < j < |events| && ClearedBetween(expiry, events, i, k, j, jti)
  }

  lemma ReopenedIsTakenTwice(expiry: Jti -> int, events: seq<Event>, i: nat, k: nat, j: nat, jti: Jti)
    requires i < k < j < |events| && ClearedBetween(expiry, events, i, k, j, jti)
    ensures TakenTwice(expiry, events, jti)
  {
    if !Takes(expiry, events, j, jti) {
      TakesWithoutRow(expiry, events, j, jti);
      var l :| 0 <= l < j && Stays(expiry, events, l, j, jti);
      RunGood(expiry, events, k);
      assert l != k && !(l < k);
    }
  }

  /** A ticket is accepted twice exactly when a commit that deletes its row falls between an acceptance and a later
      commit of it. */
  lemma AcceptedTwiceExactly(expiry: Jti -> int, events: seq<Event>, jti: Jti)
    ensures multiset(Run(expiry, events).accepted)[jti] >= 2 <==> Reopened(expiry, events, jti)
  {
    AcceptedTwice(expiry, events, jti);
    if TakenTwice(expiry, events, jti) {
      var i, j :| 0 <= i < j < |events| && Takes(expiry, events, i, jti) && Takes(expiry, events, j, jti);
      AcceptedExactlyWhenCleared(expiry, events, j, jti);
      var k :| i < k < j && Clears(expiry, events, k, jti);
      assert ClearedBetween(expiry, events, i, k, j, jti);
    }
    if Reopened(expiry, events, jti) {
      var i, k, j :| 0 <= i < k < j < |events| && ClearedBetween(expiry, events, i, k, j, jti);
      ReopenedIsTakenTwice(expiry, events, i, k, j, jti);
    }
  }

  /** No ticket is accepted twice exactly in the runs where no row is deleted between an acceptance and a later
      commit of its ticket. */
  lemma AcceptOnceExactly(expiry: Jti -> int, events: seq<Event>)
    ensures NoRepeats(Run(expiry, events).accepted) <==> forall jti :: !Reopened(expiry, events, jti)
  {
    forall jti ensures multiset(Run(expiry, events).accepted)[jti] <= 1 <==> !Reopened(expiry, events, jti) {
      AcceptedTwiceExactly(expiry, events, jti);
    }
  }

  /** Time does not go back, and each validation commits before its own ticket expires. */
  ghost predicate Prompt(expiry: Jti -> int, events: seq<Event>) {
    && (forall i, j :: 0 <= i <= j < |events| ==> events[i].time <= events[j].time)
    && (forall j, jti :: 0 <= j < |events| && Commits(expiry, events, j, jti) ==> events[j].time < expiry(jti))
  }

  lemma {:induction false} ReadBefore(expiry: Jti -> int, events: seq<Event>, n: nat, c: Call)
    requires forall i, j :: 0 <= i <= j < |events| ==> events[i].time <= events[j].time
    requires n < |events| && c in Run(expiry, events[..n]).pending
    ensures Run(expiry, events[..n]).pending[c].now <= events[n].time
  {
    if n > 0 {
      RunNext(expiry, events, n - 1);
      if c in Run(expiry, events[..n - 1]).pending {
        ReadBefore(expiry, events, n - 1, c);
      }
    }
  }

  /** If every validation commits before its own ticket expires, no ticket is accepted twice, however
      the clock reads and transactions of concurrent validations interleave. */
  lemma PromptCommitsAcceptOnce(expiry: Jti -> int, events: seq<Event>)
    requires Prompt(expiry, events)
    ensures NoRepeats(Run(expiry, events).accepted)
  {
    forall jti ensures !Reopened(expiry, events, jti) {
      forall i, k, j | 0 <= i < k < j < |events| ensures !ClearedBetween(expiry, events, i, k, j, jti) {
        if ClearedBetween(expiry, events, i, k, j, jti) {
          ReadBefore(expiry, events, k, events[k].call);
        }
      }
    }
    AcceptOnceExactly(expiry, events);
  }

  /** The condition is needed: any ticket is accepted twice when one of its validations reads the
      clock in time but commits after another validation has purged its expired row. */
  lemma LateCommitAcceptsTwice(expiry: Jti -> int, jti: Jti, other: Jti)
    requires jti != other && jti != "" && other != "" && 0 < expiry(jti) < expiry(other)
    ensures Run(expiry, LateRun(expiry, jti, other)).accepted == [jti, other, jti]
  {
    var events, states := LateRun(expiry, jti, other), LateStates(expiry, jti, other);
    LateSteps(expiry, jti, other);
    RunThrough(expiry, events, states, 6);
    assert events[..6] == events;
  }

  function LateRun(expiry: Jti -> int, jti: Jti, other: Jti): seq<Event> {
    var t := expiry(jti);
    [ReadClock(0, true, jti, t - 1), ReadClock(1, true, jti, t - 1), Commit(0, t - 1),
     ReadClock(2, true, other, t), Commit(2, t), Commit(1, t)]
  }

  function LateStates(expiry: Jti -> int, jti: Jti, other: Jti): seq<State> {
    var t, u := expiry(jti), expiry(other);
    var p := Pending(jti, t - 1);
    [State(map[], map[], []),
     State(map[], map[0 := p], []),
     State(map[], map[0 := p, 1 := p], []),
     State(map[jti := t], map[1 := p], [jti]),
     State(map[jti := t], map[1 := p, 2 := Pending(other, t)], [jti]),
     State(map[other := u], map[1 := p], [jti, other]),
     State(map[other := u, jti := t], map[], [jti, other, jti])]
  }

  lemma LateSteps(expiry: Jti -> int, jti: Jti, other: Jti)
    requires jti != other && jti != "" && other != "" && 0 < expiry(jti) < expiry(other)
    ensures var states := LateStates(expiry, jti, other);
      forall k :: 0 <= k < 6 ==> states[k + 1] == Exec(expiry, states[k], LateRun(expiry, jti, other)[k])
  {
    var events, states := LateRun(expiry, jti, other), LateStates(expiry, jti, other);
    assert states[1] == Exec(expiry, states[0], events[0]);
    assert states[2] == Exec(expiry, states[1], events[1]);
    assert states[3] == Exec(expiry, states[2], events[2]);
    assert states[4] == Exec(expiry, states[3], events[3]);
    assert states[5] == Exec(expiry, states[4], events[4]);
    assert states[6] == Exec(expiry, states[5], events[5]);
  }

  /** States that follow each other from the initial one are the states of the run. */
  lemma {:induction false} RunThrough(expiry: Jti -> int, events: seq<Event>, states: seq<State>, n: nat)
    requires n <= |events| && |states| == |events| + 1 && states[0] == Run(expiry, [])
    requires forall k :: 0 <= k < |events| ==> states[k + 1] == Exec(expiry, states[k], events[k])
    ensures Run(expiry, events[..n]) == states[n]
  {
    if n > 0 {
      RunThrough(expiry, events, states, n - 1);
      assert events[..n][..n - 1] == events[..n - 1];
      assert states[n] == Exec(expiry, states[n - 1], events[n - 1]);
    }
  }
}
