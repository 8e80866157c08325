/**
 Overlapping dashboard refreshes (frontend/src/App.jsx: `refreshData`, `refreshDataByKinds`,
 `beginTransactionLedgerRequest`, `isTransactionLedgerRequestCurrent`, and the part of the logout
 that touches the same variables).

 JavaScript runs each piece of code between two `await`s without interruption, so a run is a
 sequence of such pieces in any order. A filter stands for the query text it resolves to.
 */
module LedgerRefresh {
  import opened Outcomes

  type Filter = int
  type Call = int

  /** A refresh waiting for its responses; `ledger` is its ledger request, if it has one. */
  datatype Refresh = Refresh(silent: bool, ledger: Option<Ledger>)

  datatype Ledger = Ledger(id: nat, txQuery: Filter)

  datatype State = State(
    filter: Filter,               // what `resolveFilterQuery()` gives now
    requestId: nat,               // transactionLedgerRequestRef
    loadingCount: int,            // dashboardRequestCountRef
    loading: bool,                // dashboardLoading
    waiting: map<Call, Refresh>,  // refreshes between their first and last piece
    applied: seq<Ledger>)         // ledger responses put on screen, in order

  datatype Step =
    | StartStep(call: Call, silent: bool, withLedger: bool, override: Option<Filter>)
    | FinishStep(call: Call, ok: bool)   // all responses arrived, or one of the requests failed
    | FilterStep(filter: Filter)
    | LogoutStep(filter: Filter)         // the filter the logout resets to

  predicate Current(s: State, request: Ledger) {
    request.id == s.requestId && s.filter == request.txQuery
  }

  function Started(s: State, call: Call, silent: bool, withLedger: bool, override: Option<Filter>): State {
    var txQuery := if override.Some? then override.value else s.filter;
    var id := if withLedger then s.requestId + 1 else s.requestId;
    s.(loadingCount := if silent then s.loadingCount else s.loadingCount + 1,
       loading := s.loading || !silent,
       requestId := id,
       waiting := s.waiting[call := Refresh(silent, if withLedger then Some(Ledger(id, txQuery)) else None)])
  }

  function Finished(s: State, call: Call, ok: bool): State
    requires call in s.waiting
  {
    var r := s.waiting[call];
    var count := if r.silent then s.loadingCount else if s.loadingCount - 1 > 0 then s.loadingCount - 1 else 0;
    s.(waiting := s.waiting - {call},
       applied := if ok && r.ledger.Some? && Current(s, r.ledger.value) then s.applied + [r.ledger.value]
                  else s.applied,
       loadingCount := count,
       loading := if !r.silent && count == 0 then false else s.loading)
  }

  function LoggedOut(s: State, filter: Filter): State {
    s.(filter := filter, loadingCount := 0, loading := false)
  }

  class Dashboard {
    var filter: Filter
    var requestId: nat
    var loadingCount: int
    var loading: bool
    var waiting: map<Call, Refresh>
    var applied: seq<Ledger>

    ghost function View(): State
      reads this
    {
      State(filter, requestId, loadingCount, loading, waiting, applied)
    }

    constructor (filter: Filter)
      ensures View() == Initial(filter)
    {
      this.filter := filter;
      requestId, loadingCount, loading, waiting, applied := 0, 0, false, map[], [];
    }

    method BeginTransactionLedgerRequest(txQuery: Filter) returns (request: Ledger)
      modifies this`requestId
      ensures requestId == old(requestId) + 1 && request == Ledger(requestId, txQuery)
    {
      requestId := requestId + 1;
      request := Ledger(requestId, txQuery);
    }

    /** Up to the first `await`. */
    method StartRefresh(call: Call, silent: bool, withLedger: bool, override: Option<Filter>)
      modifies this
      ensures View() == Started(old(View()), call, silent, withLedger, override)
    {
      if !silent {
        loadingCount := loadingCount + 1;
        loading := true;
      }
      var txQuery := if override.Some? then override.value else filter;
      var ledger: Option<Ledger> := None;
      if withLedger {
        var request := BeginTransactionLedgerRequest(txQuery);
        ledger := Some(request);
      }
      waiting := waiting[call := Refresh(silent, ledger)];
    }

    /** From the settled responses to the end of the `finally` block. */
    method FinishRefresh(call: Call, ok: bool)
      requires call in waiting
      modifies this
      ensures View() == Finished(old(View()), call, ok)
    {
      var r := waiting[call];
      waiting := waiting - {call};
      if ok && r.ledger.Some? && r.ledger.value.id == requestId && filter == r.ledger.value.txQuery {
        applied := applied + [r.ledger.value];
      }
      if !r.silent {
        loadingCount := if loadingCount - 1 > 0 then loadingCount - 1 else 0;
        if loadingCount == 0 {
          loading := false;
        }
      }
    }

    method Logout(resetFilter: Filter)
      modifies this
      ensures View() == LoggedOut(old(View()), resetFilter)
    {
      loadingCount := 0;
      loading := false;
      filter := resetFilter;
    }
  }

  // ---------------------------------------------------------------------------
  // Runs
  // ---------------------------------------------------------------------------

  function Initial(filter: Filter): State {
    State(filter, 0, 0, false, map[], [])
  }

  function Exec(s: State, step: Step): State {
    match step
    case StartStep(call, silent, withLedger, override) =>
      if call in s.waiting then s else Started(s, call, silent, withLedger, override)
    case FinishStep(call, ok) => if call in s.waiting then Finished(s, call, ok) else s
    case FilterStep(filter) => s.(filter := filter)
    case LogoutStep(filter) => LoggedOut(s, filter)
  }

  function Run(filter: Filter, steps: seq<Step>): State {
    if steps == [] then Initial(filter)
    else Exec(Run(filter, steps[..|steps| - 1]), steps[|steps| - 1])
  }

  // ---------------------------------------------------------------------------
  // Latest request wins
  // ---------------------------------------------------------------------------

  ghost predicate Increasing(applied: seq<Ledger>) {
    forall i, j :: 0 <= i < j < |applied| ==> applied[i].id < applied[j].id
  }

  ghost predicate Requested(s: State, c: Call, id: nat) {
    c in s.waiting && s.waiting[c].ledger.Some? && s.waiting[c].ledger.value.id == id
  }

  /** Every waiting ledger request has an id that was handed out, and no two have the same. */
  ghost predicate WaitingInv(s: State) {
    && (forall c, id: nat :: Requested(s, c, id) ==> 0 < id <= s.requestId)
    && (forall c, d, id: nat :: Requested(s, c, id) && Requested(s, d, id) ==> c == d)
  }

  /** Applied ids were handed out, increase, and do not wait any more. */
  ghost predicate AppliedInv(s: State) {
    && (forall i :: 0 <= i < |s.applied| ==> s.applied[i].id <= s.requestId)
    && (forall c, id: nat :: Requested(s, c, id) ==> NotApplied(s.applied, id))
    && Increasing(s.applied)
  }

  ghost predicate NotApplied(applied: seq<Ledger>, id: nat) {
    forall i :: 0 <= i < |applied| ==> applied[i].id != id
  }

  ghost predicate RequestsInv(s: State) { WaitingInv(s) && AppliedInv(s) }

  lemma StartKeepsRequests(s: State, call: Call, silent: bool, withLedger: bool, override: Option<Filter>)
    requires RequestsInv(s) && call !in s.waiting
    ensures RequestsInv(Started(s, call, silent, withLedger, override))
  {
    var s' := Started(s, call, silent, withLedger, override);
    forall c, id: nat | Requested(s', c, id)
      ensures (c == call && id == s.requestId + 1) || (c != call && Requested(s, c, id)) { }
  }

  lemma AppliedGrows(applied: seq<Ledger>, last: Ledger)
    requires Increasing(applied) && NotApplied(applied, last.id)
    requires forall i :: 0 <= i < |applied| ==> applied[i].id <= last.id
    ensures Increasing(applied + [last])
  {
  }

  lemma FinishKeepsRequests(s: State, call: Call, ok: bool)
    requires RequestsInv(s) && call in s.waiting
    ensures RequestsInv(Finished(s, call, ok))
  {
    var s' := Finished(s, call, ok);
    forall c, id: nat | Requested(s', c, id) ensures c != call && Requested(s, c, id) { }
    if s'.applied != s.applied {
      var request := s.waiting[call].ledger.value;
      assert Requested(s, call, request.id);
      AppliedGrows(s.applied, request);
    }
  }

  lemma ExecKeepsRequests(s: State, step: Step)
    requires RequestsInv(s)
    ensures RequestsInv(Exec(s, step))
  {
    match step {
      case StartStep(call, silent, withLedger, override) =>
        if call !in s.waiting {
          StartKeepsRequests(s, call, silent, withLedger, override);
        }
      case FinishStep(call, ok) =>
        if call in s.waiting {
          FinishKeepsRequests(s, call, ok);
        }
      case _ => assert forall c, id: nat :: Requested(Exec(s, step), c, id) <==> Requested(s, c, id);
    }
  }

  lemma {:induction false} RunRequests(filter: Filter, steps: seq<Step>)
    ensures RequestsInv(Run(filter, steps))
  {
    if steps != [] {
      RunRequests(filter, steps[..|steps| - 1]);
      ExecKeepsRequests(Run(filter, steps[..|steps| - 1]), steps[|steps| - 1]);
    }
  }

  /** In every run the ids of the applied responses strictly increase, and a step puts a response on
      screen only if it is that of the most recently started ledger request and its query is that of
      the filter in force. */
  lemma LatestRequestWins(filter: Filter, steps: seq<Step>, step: Step)
    ensures var s, s' := Run(filter, steps), Run(filter, steps + [step]);
      && Increasing(s'.applied)
      && (s'.applied == s.applied ||
          (s'.applied == s.applied + [Ledger(s.requestId, s.filter)] && step.FinishStep? && step.ok))
  {
    RunRequests(filter, steps + [step]);
    assert (steps + [step])[..|steps|] == steps;
  }

  /** A finished refresh of the latest ledger request, under an unchanged filter, is applied. */
  lemma LatestRequestIsApplied(filter: Filter, steps: seq<Step>, call: Call)
    requires var s := Run(filter, steps);
      call in s.waiting && s.waiting[call].ledger == Some(Ledger(s.requestId, s.filter))
    ensures var s := Run(filter, steps);
      Run(filter, steps + [FinishStep(call, true)]).applied == s.applied + [Ledger(s.requestId, s.filter)]
  {
    assert (steps + [FinishStep(call, true)])[..|steps|] == steps;
  }

  // ---------------------------------------------------------------------------
  // Which responses are applied, read off the steps
  // ---------------------------------------------------------------------------

  /** The filter is that of the last change of the filter or logout. */
  lemma FilterInForce(filter: Filter, steps: seq<Step>, step: Step)
    ensures Run(filter, []).filter == filter
    ensures Run(filter, steps + [step]).filter
      == if step.FilterStep? || step.LogoutStep? then step.filter else Run(filter, steps).filter
  {
    assert (steps + [step])[..|steps|] == steps;
  }

  lemma RunNext(filter: Filter, steps: seq<Step>, n: nat)
    requires n < |steps|
    ensures Run(filter, steps[..n + 1]) == Exec(Run(filter, steps[..n]), steps[n])
  {
    assert steps[..n + 1][..n] == steps[..n];
  }

  /** Step i starts a refresh of this call. */
  ghost predicate Begins(filter: Filter, steps: seq<Step>, i: nat, call: Call)
    requires i < |steps|
  {
    steps[i].StartStep? && steps[i].call == call && call !in Run(filter, steps[..i]).waiting
  }

  /** Step i starts a refresh with a ledger request. */
  ghost predicate Requests(filter: Filter, steps: seq<Step>, i: nat)
    requires i < |steps|
  {
    steps[i].StartStep? && steps[i].withLedger && Begins(filter, steps, i, steps[i].call)
  }

  /** The refresh that step i started has not finished before n. */
  ghost predicate RunsSince(filter: Filter, steps: seq<Step>, i: nat, n: nat, call: Call)
    requires i < n <= |steps|
  {
    Begins(filter, steps, i, call) && forall k :: i < k < n ==> !(steps[k].FinishStep? && steps[k].call == call)
  }

  /** The query of the refresh that step i starts: the one it is given, or that of the filter then in force. */
  ghost function QueryAt(filter: Filter, steps: seq<Step>, i: nat): Filter
    requires i < |steps| && steps[i].StartStep?
  {
    if steps[i].override.Some? then steps[i].override.value else Run(filter, steps[..i]).filter
  }

  /** A refresh waits with what it was started with. */
  lemma {:induction false} WaitsAsStarted(filter: Filter, steps: seq<Step>, i: nat, n: nat, call: Call)
    requires i < n <= |steps| && RunsSince(filter, steps, i, n, call)
    ensures var s := Run(filter, steps[..n]);
      && call in s.waiting && s.waiting[call].silent == steps[i].silent
      && (if steps[i].withLedger then
            s.waiting[call].ledger == Some(Ledger(Run(filter, steps[..i]).requestId + 1, QueryAt(filter, steps, i)))
          else s.waiting[call].ledger == None)
    decreases n
  {
    RunNext(filter, steps, n - 1);
    if i < n - 1 {
      WaitsAsStarted(filter, steps, i, n - 1, call);
    }
  }

  /** And only a refresh that was started and has not finished waits. */
  lemma {:induction false} OnlyStartedWait(filter: Filter, steps: seq<Step>, n: nat, call: Call) returns (i: nat)
    requires n <= |steps| && call in Run(filter, steps[..n]).waiting
    ensures i < n && RunsSince(filter, steps, i, n, call)
  {
    RunNext(filter, steps, n - 1);
    if call in Run(filter, steps[..n - 1]).waiting {
      i := OnlyStartedWait(filter, steps, n - 1, call);
    } else {
      i := n - 1;
    }
  }

  /** Every ledger request, and nothing else, takes the next id. */
  lemma RequestTakesId(filter: Filter, steps: seq<Step>, i: nat)
    requires i < |steps|
    ensures Run(filter, steps[..i + 1]).requestId
      == Run(filter, steps[..i]).requestId + if Requests(filter, steps, i) then 1 else 0
  {
    RunNext(filter, steps, i);
  }

  lemma {:induction false} IdsCountRequests(filter: Filter, steps: seq<Step>, i: nat, n: nat)
    requires i <= n <= |steps|
    ensures Run(filter, steps[..n]).requestId >= Run(filter, steps[..i]).requestId
    ensures Run(filter, steps[..n]).requestId == Run(filter, steps[..i]).requestId
      <==> forall j :: i <= j < n ==> !Requests(filter, steps, j)
    decreases n
  {
    if i < n {
      RequestTakesId(filter, steps, n - 1);
      IdsCountRequests(filter, steps, i, n - 1);
    }
  }

  /** The response of a refresh is put on screen exactly when it arrived well, the refresh made a ledger request, none
      was made since, and the filter in force is the one it asked for. */
  lemma AppliedExactly(filter: Filter, steps: seq<Step>, i: nat, call: Call, ok: bool)
    requires i < |steps| && RunsSince(filter, steps, i, |steps|, call)
    ensures var s := Run(filter, steps);
      Run(filter, steps + [FinishStep(call, ok)]).applied
      == s.applied
         + if ok && steps[i].withLedger && (forall j :: i < j < |steps| ==> !Requests(filter, steps, j))
              && s.filter == QueryAt(filter, steps, i)
           then [Ledger(s.requestId, s.filter)] else []
  {
    var all := steps + [FinishStep(call, ok)];
    assert all[..|steps|] == steps && steps[..|steps|] == steps;
    WaitsAsStarted(filter, steps, i, |steps|, call);
    if steps[i].withLedger {
      RequestTakesId(filter, steps, i);
      IdsCountRequests(filter, steps, i + 1, |steps|);
    }
  }

  // ---------------------------------------------------------------------------
  // The loading indicator
  // ---------------------------------------------------------------------------

  ghost function Loud(s: State): set<Call> {
    set c | c in s.waiting && !s.waiting[c].silent
  }

  ghost predicate LoadingInv(s: State) {
    0 <= s.loadingCount <= |Loud(s)| && (s.loading <==> s.loadingCount > 0)
  }

  lemma LoudAfter(s: State, step: Step)
    ensures var s' := Exec(s, step);
      match step
      case StartStep(call, silent, _, _) =>
        Loud(s') == (if call in s.waiting || silent then Loud(s) else Loud(s) + {call})
      case FinishStep(call, _) => Loud(s') == Loud(s) - {call}
      case _ => Loud(s') == Loud(s)
  {
  }

  ghost predicate Exact(s: State) {
    s.loadingCount == |Loud(s)|
  }

  lemma ExecKeepsLoading(s: State, step: Step)
    requires LoadingInv(s)
    ensures LoadingInv(Exec(s, step))
    ensures Exact(s) ==> (Exact(Exec(s, step)) <==> (step.LogoutStep? ==> Loud(s) == {}))
  {
    LoudAfter(s, step);
  }

  /** In every run, also with logouts, the flag is up exactly while the counter is positive, and the
      counter never exceeds the number of unfinished non-silent refreshes. */
  lemma {:induction false} LoadingBounded(filter: Filter, steps: seq<Step>)
    ensures LoadingInv(Run(filter, steps))
  {
    if steps != [] {
      LoadingBounded(filter, steps[..|steps| - 1]);
      ExecKeepsLoading(Run(filter, steps[..|steps| - 1]), steps[|steps| - 1]);
    } else {
      assert Loud(Initial(filter)) == {};
    }
  }

  /** Throughout the run the counter is the number of unfinished non-silent refreshes. */
  ghost predicate AlwaysExact(filter: Filter, steps: seq<Step>) {
    Exact(Run(filter, steps)) && (steps != [] ==> AlwaysExact(filter, steps[..|steps| - 1]))
  }

  /** No logout happens while a non-silent refresh is unfinished. */
  ghost predicate QuietLogouts(filter: Filter, steps: seq<Step>) {
    steps != [] ==>
      var front := steps[..|steps| - 1];
      QuietLogouts(filter, front) && (steps[|steps| - 1].LogoutStep? ==> Loud(Run(filter, front)) == {})
  }

  /** The counter stays exact exactly in the runs where no logout cuts off a running refresh; the
      flag is then up exactly while some non-silent refresh is unfinished. */
  lemma {:induction false} ExactUnlessLogoutInterrupts(filter: Filter, steps: seq<Step>)
    ensures AlwaysExact(filter, steps) <==> QuietLogouts(filter, steps)
    ensures AlwaysExact(filter, steps) ==> (Run(filter, steps).loading <==> Loud(Run(filter, steps)) != {})
  {
    LoadingBounded(filter, steps);
    if steps != [] {
      var front := steps[..|steps| - 1];
      ExactUnlessLogoutInterrupts(filter, front);
      LoadingBounded(filter, front);
      ExecKeepsLoading(Run(filter, front), steps[|steps| - 1]);
    } else {
      assert Loud(Initial(filter)) == {};
    }
  }

  /** Runs without a logout are among them. */
  lemma {:induction false} NoLogoutIsQuiet(filter: Filter, steps: seq<Step>)
    requires forall i :: 0 <= i < |steps| ==> !steps[i].LogoutStep?
    ensures AlwaysExact(filter, steps)
  {
    ExactUnlessLogoutInterrupts(filter, steps);
    if steps != [] {
      NoLogoutIsQuiet(filter, steps[..|steps| - 1]);
      ExactUnlessLogoutInterrupts(filter, steps[..|steps| - 1]);
    }
  }

  /** After a step the counter is exact exactly when no non-silent refresh is unfinished, or it was exact before and
      the step is no logout. */
  lemma ExactAfter(s: State, step: Step)
    requires LoadingInv(s)
    ensures Exact(Exec(s, step)) <==> Loud(Exec(s, step)) == {} || (Exact(s) && !step.LogoutStep?)
  {
    LoudAfter(s, step);
  }

  /** Step i is a logout while a non-silent refresh is unfinished. */
  ghost predicate Interrupts(filter: Filter, steps: seq<Step>, i: nat)
    requires i < |steps|
  {
    steps[i].LogoutStep? && Loud(Run(filter, steps[..i])) != {}
  }

  /** After the first n steps no non-silent refresh is unfinished. */
  ghost predicate IdleAt(filter: Filter, steps: seq<Step>, n: nat)
    requires n <= |steps|
  {
    Loud(Run(filter, steps[..n])) == {}
  }

  /** Every interrupting logout was followed by a moment at which no non-silent refresh was unfinished. */
  ghost predicate Recovered(filter: Filter, steps: seq<Step>) {
    forall i :: 0 <= i < |steps| && Interrupts(filter, steps, i)
      ==> exists n :: i < n <= |steps| && IdleAt(filter, steps, n)
  }

  lemma RecoveredAfter(filter: Filter, steps: seq<Step>)
    requires steps != []
    ensures var last := |steps| - 1;
      Recovered(filter, steps)
      <==> Loud(Run(filter, steps)) == {}
           || (Recovered(filter, steps[..last]) && !Interrupts(filter, steps, last))
  {
    var last := |steps| - 1;
    var front := steps[..last];
    assert steps[..|steps|] == steps;
    assert forall n :: 0 <= n <= last ==> front[..n] == steps[..n];
    assert forall i :: 0 <= i < last ==> (Interrupts(filter, steps, i) <==> Interrupts(filter, front, i));
    assert forall n :: 0 <= n <= last ==> (IdleAt(filter, steps, n) <==> IdleAt(filter, front, n));
    if Loud(Run(filter, steps)) == {} {
      assert IdleAt(filter, steps, |steps|);
    } else {
      assert !IdleAt(filter, steps, |steps|);
    }
  }

  /** In every run the counter is exact exactly when each logout that interrupted a refresh was followed by a moment
      at which no non-silent refresh was unfinished: until then it stays wrong, whatever is started or finished. */
  lemma {:induction false} ExactExactly(filter: Filter, steps: seq<Step>)
    ensures Exact(Run(filter, steps)) <==> Recovered(filter, steps)
  {
    if steps == [] {
      assert Loud(Initial(filter)) == {};
    } else {
      var front, last := steps[..|steps| - 1], steps[|steps| - 1];
      ExactExactly(filter, front);
      LoadingBounded(filter, front);
      ExactAfter(Run(filter, front), last);
      LoudAfter(Run(filter, front), last);
      RecoveredAfter(filter, steps);
    }
  }

  /** The counter need not be exact: a logout during a refresh resets it while the refresh still runs. A refresh
      started after the logout keeps it wrong, also when the interrupted one is over: then the flag is down although
      the second one is running. */
  lemma LogoutInterrupts(filter: Filter, first: Call, second: Call)
    requires first != second
    ensures
      var begun := [StartStep(first, false, false, None), LogoutStep(filter)];
      var overlapped := begun + [StartStep(second, false, false, None), FinishStep(first, true)];
      && !Exact(Run(filter, begun)) && !Run(filter, begun).loading && Loud(Run(filter, begun)) == {first}
      && !Exact(Run(filter, overlapped)) && !Run(filter, overlapped).loading
      && Loud(Run(filter, overlapped)) == {second}
  {
    var start, logout := StartStep(first, false, false, None), LogoutStep(filter);
    var again, finish := StartStep(second, false, false, None), FinishStep(first, true);
    var begun := [start, logout];
    var overlapped := begun + [again, finish];
    assert begun[..1] == [start] && [start][..0] == [];
    assert overlapped[..3][..2] == begun;
    var s1 := Exec(Initial(filter), start);
    var s2 := Exec(s1, logout);
    var s3 := Exec(s2, again);
    assert Run(filter, [start]) == s1;
    assert Run(filter, begun) == s2;
    assert Run(filter, overlapped[..3]) == s3;
    assert overlapped[..|overlapped| - 1] == overlapped[..3];
    assert Run(filter, overlapped) == Exec(s3, finish);
    assert Loud(Initial(filter)) == {};
    LoudAfter(Initial(filter), start);
    LoudAfter(s1, logout);
    LoudAfter(s2, again);
    LoudAfter(s3, finish);
  }

  /** Whatever happened before, once no non-silent refresh is unfinished the counter is exact and the flag down. */
  lemma IdleIsExact(filter: Filter, steps: seq<Step>)
    requires Loud(Run(filter, steps)) == {}
    ensures Exact(Run(filter, steps)) && !Run(filter, steps).loading
  {
    LoadingBounded(filter, steps);
  }
}
