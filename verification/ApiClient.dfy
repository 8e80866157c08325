/**
 Request retry with a shared session refresh (frontend/src/App.jsx, `api`).

 A run is any interleaving of the pieces of code between two `await`s, over any number of calls.
 Each call keeps a log of what happened to it.
 */
module ApiClient {
  import opened Outcomes

  type Call = int
  type Promise = nat

  datatype Response =
    | Success
    | HouseholdForbidden   // 403 with code HOUSEHOLD_ACCESS_FORBIDDEN
    | Unauthorized         // 401
    | OtherFailure         // any other status
    | NetworkError         // `fetch` rejects

  /** How the refresh request ends: an ok response, another response, or a rejection. */
  datatype RefreshOutcome = RefreshOk | RefreshRefused | RefreshRejected

  /** `household` says whether the request carried the household header. */
  datatype Event =
    | Sent(household: bool) | Answered(response: Response) | RefreshAwaited | Refreshed(outcome: RefreshOutcome)

  datatype Phase = AwaitingResponse | AwaitingRefresh(promise: Promise) | Done

  /** `safe` holds for GET and HEAD; `skipRefresh` for the authentication routes that never refresh. */
  datatype CallState = CallState(
    safe: bool, skipRefresh: bool, allowRefresh: bool, allowHouseholdRetry: bool,
    hasHouseholdHeader: bool, phase: Phase, log: seq<Event>)

  /** `inFlight` holds the refresh requests on the wire, `shared` is `refreshSessionPromise`. */
  datatype State = State(
    calls: map<Call, CallState>, shared: Option<Promise>, inFlight: set<Promise>,
    settled: map<Promise, RefreshOutcome>, nextPromise: Promise)

  function Opened(safe: bool, skipRefresh: bool, allowRefresh: bool, allowHouseholdRetry: bool,
                  header: bool): CallState {
    CallState(safe, skipRefresh, allowRefresh, allowHouseholdRetry, header, AwaitingResponse, [Sent(header)])
  }

  predicate RetriesWithoutHousehold(c: CallState, response: Response) {
    response.HouseholdForbidden? && c.allowHouseholdRetry && c.hasHouseholdHeader && c.safe
  }

  predicate WantsRefresh(c: CallState, response: Response) {
    response.Unauthorized? && c.allowRefresh && !c.skipRefresh
  }

  /** The rest of `api` after the response: a retry without the household header happens at once, a
      401 waits for a refresh, anything else ends the call. */
  function AfterResponse(c: CallState, response: Response, promise: Promise): CallState {
    var log := c.log + [Answered(response)];
    if RetriesWithoutHousehold(c, response) then
      c.(allowHouseholdRetry := false, hasHouseholdHeader := false, log := log + [Sent(false)])
    else if WantsRefresh(c, response) then
      c.(phase := AwaitingRefresh(promise), log := log + [RefreshAwaited])
    else c.(phase := Done, log := log)
  }

  /** The rest of `api` after the awaited refresh; `header` says whether a household is active then. */
  function AfterRefresh(c: CallState, outcome: RefreshOutcome, header: bool): CallState {
    var log := c.log + [Refreshed(outcome)];
    if outcome.RefreshOk? then
      c.(allowRefresh := false, hasHouseholdHeader := header, phase := AwaitingResponse,
        log := log + [Sent(header)])
    else c.(phase := Done, log := log)
  }

  function Responded(s: State, call: Call, response: Response): State
    requires call in s.calls
  {
    var c := s.calls[call];
    if WantsRefresh(c, response) && s.shared.None? then
      var p := s.nextPromise;
      s.(calls := s.calls[call := AfterResponse(c, response, p)],
         shared := Some(p), inFlight := s.inFlight + {p}, nextPromise := p + 1)
    else
      s.(calls := s.calls[call := AfterResponse(c, response, if s.shared.Some? then s.shared.value else 0)])
  }

  function Settled(s: State, p: Promise, outcome: RefreshOutcome): State {
    s.(shared := None, inFlight := s.inFlight - {p}, settled := s.settled[p := outcome])
  }

  class Api {
    var calls: map<Call, CallState>
    var shared: Option<Promise>
    var inFlight: set<Promise>
    var settled: map<Promise, RefreshOutcome>
    var nextPromise: Promise

    ghost function View(): State
      reads this
    {
      State(calls, shared, inFlight, settled, nextPromise)
    }

    constructor ()
      ensures View() == Initial()
    {
      calls, shared, inFlight, settled, nextPromise := map[], None, {}, map[], 0;
    }

    /** Up to the first `fetch`. */
    method Request(call: Call, safe: bool, skipRefresh: bool, allowRefresh: bool, allowHouseholdRetry: bool,
                   header: bool)
      modifies this
      ensures var c := Opened(safe, skipRefresh, allowRefresh, allowHouseholdRetry, header);
        View() == old(View()).(calls := old(calls)[call := c])
    {
      calls := calls[call := Opened(safe, skipRefresh, allowRefresh, allowHouseholdRetry, header)];
    }

    /** From the response to the next `await` or to the end. */
    method OnResponse(call: Call, response: Response)
      requires call in calls
      modifies this
      ensures View() == Responded(old(View()), call, response)
    {
      var c := calls[call];
      var log := c.log + [Answered(response)];
      if response.HouseholdForbidden? && c.allowHouseholdRetry && c.hasHouseholdHeader && c.safe {
        calls := calls[call := c.(allowHouseholdRetry := false, hasHouseholdHeader := false,
                                  log := log + [Sent(false)])];
      } else if response.Unauthorized? && c.allowRefresh && !c.skipRefresh {
        if shared.None? {
          shared := Some(nextPromise);
          inFlight := inFlight + {nextPromise};
          nextPromise := nextPromise + 1;
        }
        calls := calls[call := c.(phase := AwaitingRefresh(shared.value), log := log + [RefreshAwaited])];
      } else {
        calls := calls[call := c.(phase := Done, log := log)];
      }
    }

    /** The `finally` handler of the refresh request. */
    method OnRefreshSettled(p: Promise, outcome: RefreshOutcome)
      modifies this
      ensures View() == Settled(old(View()), p, outcome)
    {
      shared := None;
      inFlight := inFlight - {p};
      settled := settled[p := outcome];
    }

    /** From the awaited refresh to the retry or to the end. */
    method OnRefreshed(call: Call, header: bool)
      requires call in calls && calls[call].phase.AwaitingRefresh? && calls[call].phase.promise in settled
      modifies this
      ensures View() == old(View()).(calls := old(calls)[call :=
        AfterRefresh(old(calls)[call], old(settled)[old(calls)[call].phase.promise], header)])
    {
      var c := calls[call];
      var outcome := settled[c.phase.promise];
      if outcome.RefreshOk? {
        calls := calls[call := c.(allowRefresh := false, hasHouseholdHeader := header, phase := AwaitingResponse,
                                  log := c.log + [Refreshed(outcome)] + [Sent(header)])];
      } else {
        calls := calls[call := c.(phase := Done, log := c.log + [Refreshed(outcome)])];
      }
    }
  }

  // ---------------------------------------------------------------------------
  // Runs
  // ---------------------------------------------------------------------------

  datatype Step =
    | RequestStep(call: Call, safe: bool, skipRefresh: bool, allowRefresh: bool, allowHouseholdRetry: bool,
                  header: bool)
    | ResponseStep(call: Call, response: Response)
    | SettleStep(promise: Promise, outcome: RefreshOutcome)
    | RefreshedStep(call: Call, header: bool)

  function Initial(): State {
    State(map[], None, {}, map[], 0)
  }

  predicate Enabled(s: State, step: Step) {
    match step
    case RequestStep(call, _, _, _, _, _) => call !in s.calls
    case ResponseStep(call, _) => call in s.calls && s.calls[call].phase.AwaitingResponse?
    case SettleStep(p, _) => p in s.inFlight
    case RefreshedStep(call, _) =>
      call in s.calls && s.calls[call].phase.AwaitingRefresh? && s.calls[call].phase.promise in s.settled
  }

  /** A step that cannot happen yet changes nothing, so every sequence of steps is a run. */
  function Exec(s: State, step: Step): State {
    if !Enabled(s, step) then s
    else match step
      case RequestStep(call, safe, skipRefresh, allowRefresh, allowHouseholdRetry, header) =>
        s.(calls := s.calls[call := Opened(safe, skipRefresh, allowRefresh, allowHouseholdRetry, header)])
      case ResponseStep(call, response) => Responded(s, call, response)
      case SettleStep(p, outcome) => Settled(s, p, outcome)
      case RefreshedStep(call, header) =>
        s.(calls := s.calls[call := AfterRefresh(s.calls[call], s.settled[s.calls[call].phase.promise], header)])
  }

  function Run(steps: seq<Step>): State {
    if steps == [] then Initial() else Exec(Run(steps[..|steps| - 1]), steps[|steps| - 1])
  }

  // ---------------------------------------------------------------------------
  // Single flight
  // ---------------------------------------------------------------------------

  ghost predicate FlightInv(s: State) {
    && s.inFlight == (if s.shared.Some? then {s.shared.value} else {})
    && (s.shared.Some? ==> s.shared.value < s.nextPromise)
    && (forall c :: c in s.calls && s.calls[c].phase.AwaitingRefresh? ==>
          s.calls[c].phase.promise in s.inFlight || s.calls[c].phase.promise in s.settled)
    && (forall p :: p in s.settled ==> p !in s.inFlight && p < s.nextPromise)
  }

  lemma ExecKeepsFlight(s: State, step: Step)
    requires FlightInv(s)
    ensures FlightInv(Exec(s, step))
  {
  }

  /** At most one refresh is on the wire over any number of concurrent calls, and a call that waits for
      a refresh waits for one that is on the wire or has already settled. */
  lemma {:induction false} SingleFlight(steps: seq<Step>)
    ensures FlightInv(Run(steps)) && |Run(steps).inFlight| <= 1
  {
    if steps != [] {
      SingleFlight(steps[..|steps| - 1]);
      ExecKeepsFlight(Run(steps[..|steps| - 1]), steps[|steps| - 1]);
    }
  }

  // ---------------------------------------------------------------------------
  // What one call does
  // ---------------------------------------------------------------------------

  function Sends(log: seq<Event>): nat {
    if log == [] then 0 else Sends(log[..|log| - 1]) + (if log[|log| - 1].Sent? then 1 else 0)
  }

  function Waits(log: seq<Event>): nat {
    if log == [] then 0 else Waits(log[..|log| - 1]) + (if log[|log| - 1].RefreshAwaited? then 1 else 0)
  }

  function Bit(b: bool): nat { if b then 1 else 0 }

  /** Why a request may be sent at position i of the log. */
  ghost predicate SendJustified(safe: bool, log: seq<Event>, i: nat)
    requires i < |log|
  {
    || i == 0
    || (log[i - 1] == Answered(HouseholdForbidden) && safe)
    || (i >= 3 && log[i - 1] == Refreshed(RefreshOk) && log[i - 2] == RefreshAwaited
        && log[i - 3] == Answered(Unauthorized))
  }

  ghost predicate SendsJustified(safe: bool, log: seq<Event>) {
    forall i :: 0 <= i < |log| && log[i].Sent? ==> SendJustified(safe, log, i)
  }

  /** The counts of the log against the permissions that are left. */
  ghost predicate CountsInv(c: CallState) {
    && Sends(c.log) <= 3 - Bit(c.allowRefresh) - Bit(c.allowHouseholdRetry)
    && (!c.safe ==> Sends(c.log) <= 2 - Bit(c.allowRefresh))
    && Waits(c.log) <= (if c.phase.AwaitingResponse? then 1 - Bit(c.allowRefresh) else 1)
    && (c.phase.AwaitingRefresh? ==> c.allowRefresh)
  }

  ghost predicate EndsInRefresh(log: seq<Event>) {
    |log| >= 2 && log[|log| - 1] == RefreshAwaited && log[|log| - 2] == Answered(Unauthorized)
  }

  ghost predicate CallInv(c: CallState) {
    CountsInv(c) && SendsJustified(c.safe, c.log) && (c.phase.AwaitingRefresh? ==> EndsInRefresh(c.log))
  }

  lemma Logged(log: seq<Event>, e: Event)
    ensures Sends(log + [e]) == Sends(log) + (if e.Sent? then 1 else 0)
    ensures Waits(log + [e]) == Waits(log) + (if e.RefreshAwaited? then 1 else 0)
  {
    assert (log + [e])[..|log|] == log;
  }

  lemma JustifiedAppend(safe: bool, log: seq<Event>, e: Event)
    requires SendsJustified(safe, log)
    requires e.Sent? ==> SendJustified(safe, log + [e], |log|)
    ensures SendsJustified(safe, log + [e])
  {
    forall i | 0 <= i < |log| + 1 && (log + [e])[i].Sent? ensures SendJustified(safe, log + [e], i) {
      if i < |log| {
        assert log[i].Sent? && SendJustified(safe, log, i);
      }
    }
  }

  lemma ResponseKeepsCounts(c: CallState, response: Response, p: Promise)
    requires CountsInv(c) && c.phase.AwaitingResponse?
    ensures CountsInv(AfterResponse(c, response, p))
  {
    var log := c.log + [Answered(response)];
    Logged(c.log, Answered(response));
    Logged(log, Sent(false));
    Logged(log, RefreshAwaited);
  }

  lemma ResponseKeepsCall(c: CallState, response: Response, p: Promise)
    requires CallInv(c) && c.phase.AwaitingResponse?
    ensures CallInv(AfterResponse(c, response, p))
  {
    ResponseKeepsCounts(c, response, p);
    var log := c.log + [Answered(response)];
    JustifiedAppend(c.safe, c.log, Answered(response));
    if RetriesWithoutHousehold(c, response) {
      JustifiedAppend(c.safe, log, Sent(false));
    } else if WantsRefresh(c, response) {
      JustifiedAppend(c.safe, log, RefreshAwaited);
    }
  }

  lemma RefreshKeepsCounts(c: CallState, outcome: RefreshOutcome, header: bool)
    requires CountsInv(c) && c.phase.AwaitingRefresh?
    ensures CountsInv(AfterRefresh(c, outcome, header))
  {
    Logged(c.log, Refreshed(outcome));
    Logged(c.log + [Refreshed(outcome)], Sent(header));
  }

  lemma RefreshKeepsCall(c: CallState, outcome: RefreshOutcome, header: bool)
    requires CallInv(c) && c.phase.AwaitingRefresh?
    ensures CallInv(AfterRefresh(c, outcome, header))
  {
    RefreshKeepsCounts(c, outcome, header);
    var log := c.log + [Refreshed(outcome)];
    JustifiedAppend(c.safe, c.log, Refreshed(outcome));
    if outcome.RefreshOk? {
      assert log[|log| - 2] == RefreshAwaited && log[|log| - 3] == Answered(Unauthorized);
      JustifiedAppend(c.safe, log, Sent(header));
    }
  }

  lemma OpenedCall(safe: bool, skipRefresh: bool, allowRefresh: bool, allowHouseholdRetry: bool, header: bool)
    ensures CallInv(Opened(safe, skipRefresh, allowRefresh, allowHouseholdRetry, header))
  {
    Logged([], Sent(header));
    assert [] + [Sent(header)] == [Sent(header)];
  }

  lemma {:induction false} RunCalls(steps: seq<Step>, call: Call)
    requires call in Run(steps).calls
    ensures CallInv(Run(steps).calls[call])
  {
    var front, step := steps[..|steps| - 1], steps[|steps| - 1];
    var s := Run(front);
    if call in s.calls {
      RunCalls(front, call);
      if Enabled(s, step) && step.ResponseStep? && step.call == call {
        ResponseKeepsCall(s.calls[call], step.response, 0);
        if s.shared.Some? {
          ResponseKeepsCall(s.calls[call], step.response, s.shared.value);
        }
        ResponseKeepsCall(s.calls[call], step.response, s.nextPromise);
      } else if Enabled(s, step) && step.RefreshedStep? && step.call == call {
        RefreshKeepsCall(s.calls[call], s.settled[s.calls[call].phase.promise], step.header);
      }
    } else {
      OpenedCall(step.safe, step.skipRefresh, step.allowRefresh, step.allowHouseholdRetry, step.header);
    }
  }

  /** In every run each call sends its request at most three times and waits for at most one refresh;
      a request other than GET or HEAD is sent at most twice, and again only right after a 401 and
      a successful refresh. */
  lemma BoundedRetries(steps: seq<Step>, call: Call, i: nat)
    requires call in Run(steps).calls
    ensures var c := Run(steps).calls[call];
      && Sends(c.log) <= 3
      && Waits(c.log) <= 1
      && (!c.safe ==> Sends(c.log) <= 2)
      && (0 < i < |c.log| && c.log[i].Sent? && !c.safe ==>
            i >= 3 && c.log[i - 1] == Refreshed(RefreshOk) && c.log[i - 3] == Answered(Unauthorized))
  {
    RunCalls(steps, call);
    var c := Run(steps).calls[call];
    if i < |c.log| && c.log[i].Sent? {
      assert SendJustified(c.safe, c.log, i);
    }
  }

  // ---------------------------------------------------------------------------
  // The log of a call is determined by how it was opened and what was answered
  // ---------------------------------------------------------------------------

  /** At position i a 403 for the household answers a safe request that carried the header, for the first time. */
  ghost predicate RetryDue(opening: Step, log: seq<Event>, i: nat)
    requires opening.RequestStep? && i < |log|
  {
    && log[i] == Answered(HouseholdForbidden) && opening.safe && opening.allowHouseholdRetry
    && i > 0 && log[i - 1] == Sent(true) && Answered(HouseholdForbidden) !in log[..i]
  }

  /** At position i a 401 answers a call that may refresh and has not yet. */
  ghost predicate RefreshDue(opening: Step, log: seq<Event>, i: nat)
    requires opening.RequestStep? && i < |log|
  {
    && log[i] == Answered(Unauthorized) && opening.allowRefresh && !opening.skipRefresh
    && RefreshAwaited !in log[..i]
  }

  /** What stands after position i: a retry without the header where it is due, else a refresh where that is due, and a
      new request after every successful refresh. Nothing follows any other answer or a failed refresh. */
  ghost predicate Follows(opening: Step, log: seq<Event>, i: nat)
    requires opening.RequestStep? && i + 1 < |log|
  {
    if RetryDue(opening, log, i) then log[i + 1] == Sent(false)
    else if RefreshDue(opening, log, i) then log[i + 1] == RefreshAwaited
    else match log[i]
      case Sent(_) => log[i + 1].Answered?
      case RefreshAwaited => log[i + 1].Refreshed?
      case Refreshed(outcome) => outcome.RefreshOk? && log[i + 1].Sent?
      case Answered(_) => false
  }

  /** The phase fits the last event; a call is done exactly when nothing may follow it. */
  ghost predicate PhaseFits(opening: Step, c: CallState)
    requires opening.RequestStep? && c.log != []
  {
    var last := |c.log| - 1;
    match c.log[last]
    case Sent(_) => c.phase.AwaitingResponse?
    case RefreshAwaited => c.phase.AwaitingRefresh?
    case Refreshed(outcome) => c.phase.Done? && !outcome.RefreshOk?
    case Answered(_) => c.phase.Done? && !RetryDue(opening, c.log, last) && !RefreshDue(opening, c.log, last)
  }

  ghost predicate Determined(opening: Step, c: CallState)
    requires opening.RequestStep?
  {
    && c.log != [] && c.log[0] == Sent(opening.header)
    && (forall i :: 0 <= i < |c.log| - 1 ==> Follows(opening, c.log, i))
    && PhaseFits(opening, c)
  }

  /** The permissions that an unfinished call has left, read off its log. */
  ghost predicate PermissionsFit(opening: Step, c: CallState)
    requires opening.RequestStep?
  {
    && c.safe == opening.safe && c.skipRefresh == opening.skipRefresh
    && (!c.phase.Done? ==>
          (c.allowHouseholdRetry <==> opening.allowHouseholdRetry && Answered(HouseholdForbidden) !in c.log))
    && (c.phase.AwaitingResponse? ==>
          && (c.allowRefresh <==> opening.allowRefresh && RefreshAwaited !in c.log)
          && c.log != [] && c.log[|c.log| - 1] == Sent(c.hasHouseholdHeader))
  }

  lemma FollowsAppend(opening: Step, log: seq<Event>, e: Event)
    requires opening.RequestStep? && log != []
    requires forall i :: 0 <= i < |log| - 1 ==> Follows(opening, log, i)
    requires Follows(opening, log + [e], |log| - 1)
    ensures forall i :: 0 <= i < |log + [e]| - 1 ==> Follows(opening, log + [e], i)
  {
    forall i | 0 <= i < |log| ensures Follows(opening, log + [e], i) {
      if i < |log| - 1 {
        assert Follows(opening, log, i);
        assert (log + [e])[..i] == log[..i];
      }
    }
  }

  /** The answer of a waiting call is due a retry or a refresh exactly when the call takes it so. */
  lemma DueExactly(opening: Step, c: CallState, response: Response)
    requires opening.RequestStep? && Determined(opening, c) && PermissionsFit(opening, c) && c.phase.AwaitingResponse?
    ensures var log := c.log + [Answered(response)];
      && (RetryDue(opening, log, |c.log|) <==> RetriesWithoutHousehold(c, response))
      && (RefreshDue(opening, log, |c.log|) <==> WantsRefresh(c, response))
      && (forall i :: 0 <= i < |c.log| ==> Follows(opening, log, i))
  {
    assert (c.log + [Answered(response)])[..|c.log|] == c.log;
    FollowsAppend(opening, c.log, Answered(response));
  }

  lemma AnswerLogged(opening: Step, c: CallState, response: Response, next: Event)
    requires opening.RequestStep? && c.log != []
    requires var log := c.log + [Answered(response)];
      && (forall i :: 0 <= i < |c.log| ==> Follows(opening, log, i))
      && (next == Sent(false) ==> RetryDue(opening, log, |c.log|))
      && (next == RefreshAwaited ==> RefreshDue(opening, log, |c.log|) && !RetryDue(opening, log, |c.log|))
    requires next == Sent(false) || next == RefreshAwaited
    ensures var log := c.log + [Answered(response)] + [next];
      forall i :: 0 <= i < |log| - 1 ==> Follows(opening, log, i)
  {
    var log := c.log + [Answered(response)];
    assert (log + [next])[..|c.log|] == log[..|c.log|];
    FollowsAppend(opening, log, next);
  }

  lemma ResponseDetermined(opening: Step, c: CallState, response: Response, p: Promise)
    requires opening.RequestStep? && Determined(opening, c) && PermissionsFit(opening, c) && c.phase.AwaitingResponse?
    ensures Determined(opening, AfterResponse(c, response, p)) && PermissionsFit(opening, AfterResponse(c, response, p))
  {
    DueExactly(opening, c, response);
    if RetriesWithoutHousehold(c, response) {
      AnswerLogged(opening, c, response, Sent(false));
    } else if WantsRefresh(c, response) {
      AnswerLogged(opening, c, response, RefreshAwaited);
    }
  }

  lemma RefreshDetermined(opening: Step, c: CallState, outcome: RefreshOutcome, header: bool)
    requires opening.RequestStep? && Determined(opening, c) && PermissionsFit(opening, c) && c.phase.AwaitingRefresh?
    ensures Determined(opening, AfterRefresh(c, outcome, header))
    ensures PermissionsFit(opening, AfterRefresh(c, outcome, header))
  {
    var log := c.log + [Refreshed(outcome)];
    FollowsAppend(opening, c.log, Refreshed(outcome));
    if outcome.RefreshOk? {
      assert c.log[|c.log| - 1] == RefreshAwaited;
      FollowsAppend(opening, log, Sent(header));
    }
  }

  /** Step k opens the call: its first request step. */
  ghost predicate Opens(steps: seq<Step>, k: nat, call: Call)
    requires k < |steps|
  {
    && steps[k].RequestStep? && steps[k].call == call
    && forall j :: 0 <= j < k ==> !(steps[j].RequestStep? && steps[j].call == call)
  }

  lemma {:induction false} OpenedExactly(steps: seq<Step>, n: nat, call: Call)
    requires n <= |steps|
    ensures call in Run(steps[..n]).calls <==> exists k :: 0 <= k < n && steps[k].RequestStep? && steps[k].call == call
  {
    if n > 0 {
      OpenedExactly(steps, n - 1, call);
      assert steps[..n][..n - 1] == steps[..n - 1];
    }
  }

  /** One step leaves a call alone, or takes it through a response or a refresh. */
  lemma StepDetermined(s: State, step: Step, call: Call, opening: Step)
    requires call in s.calls && opening.RequestStep?
    requires Determined(opening, s.calls[call]) && PermissionsFit(opening, s.calls[call])
    ensures call in Exec(s, step).calls
    ensures Determined(opening, Exec(s, step).calls[call]) && PermissionsFit(opening, Exec(s, step).calls[call])
  {
    var c := s.calls[call];
    if Enabled(s, step) && step.ResponseStep? && step.call == call {
      var p :| Exec(s, step).calls[call] == AfterResponse(c, step.response, p);
      ResponseDetermined(opening, c, step.response, p);
    } else if Enabled(s, step) && step.RefreshedStep? && step.call == call {
      RefreshDetermined(opening, c, s.settled[c.phase.promise], step.header);
    }
  }

  /** In every run the log of a call is determined by how it was opened and what was answered: in particular the request
      is repeated after every successful refresh, a refresh is awaited after a 401 exactly when it is still permitted,
      a 403 for the household is retried exactly when that is, and the call ends at the first event that none of
      these follows. */
  lemma {:induction false} CallDetermined(steps: seq<Step>, n: nat, k: nat, call: Call)
    requires k < n <= |steps| && Opens(steps, k, call)
    ensures call in Run(steps[..n]).calls
    ensures Determined(steps[k], Run(steps[..n]).calls[call]) && PermissionsFit(steps[k], Run(steps[..n]).calls[call])
  {
    var s, step := Run(steps[..n - 1]), steps[n - 1];
    assert steps[..n][..n - 1] == steps[..n - 1];
    if k == n - 1 {
      OpenedExactly(steps, k, call);
      assert Run(steps[..n]).calls[call].log == [Sent(step.header)];
    } else {
      CallDetermined(steps, n - 1, k, call);
      StepDetermined(s, step, call, steps[k]);
    }
  }

  /** A call that comes to wait waits for the refresh on the wire: the one that was there, or a new one if there was
      none. */
  ghost predicate WaitsForCurrent(s: State, s': State, call: Call)
    requires call in s.calls && call in s'.calls
  {
    !s.calls[call].phase.AwaitingRefresh? && s'.calls[call].phase.AwaitingRefresh? ==>
      && s'.inFlight == {s'.calls[call].phase.promise}
      && (if s.inFlight == {} then s'.calls[call].phase.promise !in s.settled else s'.inFlight == s.inFlight)
  }

  /** A waiting call goes on when its refresh has settled, and logs how it ended. */
  ghost predicate GoesOnAsSettled(c: CallState, c': CallState, settled: map<Promise, RefreshOutcome>, step: Step) {
    c.phase.AwaitingRefresh? ==>
      if c'.phase.AwaitingRefresh? then c' == c
      else
        && step.RefreshedStep? && c.phase.promise in settled
        && c'.log == c.log + [Refreshed(settled[c.phase.promise])]
                     + (if c'.phase.AwaitingResponse? then [Sent(step.header)] else [])
  }

  lemma StepWaits(s: State, step: Step, call: Call)
    requires FlightInv(s) && call in s.calls
    ensures call in Exec(s, step).calls && WaitsForCurrent(s, Exec(s, step), call)
  {
  }

  lemma StepGoesOn(s: State, step: Step, call: Call)
    requires call in s.calls
    ensures call in Exec(s, step).calls
    ensures GoesOnAsSettled(s.calls[call], Exec(s, step).calls[call], s.settled, step)
  {
  }

  lemma WaitsForSharedRefresh(steps: seq<Step>, step: Step, call: Call)
    requires call in Run(steps).calls
    ensures var s, s' := Run(steps), Run(steps + [step]);
      call in s'.calls && WaitsForCurrent(s, s', call)
      && GoesOnAsSettled(s.calls[call], s'.calls[call], s.settled, step)
  {
    assert (steps + [step])[..|steps|] == steps;
    SingleFlight(steps);
    StepWaits(Run(steps), step, call);
    StepGoesOn(Run(steps), step, call);
  }

  /** A response is always taken, and a settled refresh always lets the call that waits for it go on. */
  lemma AnswersAreTaken(steps: seq<Step>, call: Call, response: Response, header: bool)
    requires call in Run(steps).calls
    ensures var c := Run(steps).calls[call];
      && (c.phase.AwaitingResponse? ==>
            && call in Run(steps + [ResponseStep(call, response)]).calls
            && c.log + [Answered(response)] <= Run(steps + [ResponseStep(call, response)]).calls[call].log)
      && (c.phase.AwaitingRefresh? && c.phase.promise in Run(steps).settled ==>
            && call in Run(steps + [RefreshedStep(call, header)]).calls
            && !Run(steps + [RefreshedStep(call, header)]).calls[call].phase.AwaitingRefresh?)
  {
    assert (steps + [ResponseStep(call, response)])[..|steps|] == steps;
    assert (steps + [RefreshedStep(call, header)])[..|steps|] == steps;
  }

  /** A refresh has settled exactly as the network first answered it while it was on the wire. */
  lemma SettledAsAnswered(steps: seq<Step>, p: Promise, outcome: RefreshOutcome)
    ensures var s, s' := Run(steps), Run(steps + [SettleStep(p, outcome)]);
      if p in s.inFlight then
        s'.inFlight == {} && s'.shared == None && s'.settled == s.settled[p := outcome] && s'.calls == s.calls
      else s' == s
  {
    assert (steps + [SettleStep(p, outcome)])[..|steps|] == steps;
    SingleFlight(steps);
  }

  // ---------------------------------------------------------------------------
  // Termination
  // ---------------------------------------------------------------------------

  /** The remaining permissions, three for each, and the phase. */
  function Rank(c: CallState): nat {
    3 * (Bit(c.allowRefresh) + Bit(c.allowHouseholdRetry))
    + (match c.phase case AwaitingResponse => 2 case AwaitingRefresh(_) => 1 case Done => 0)
  }

  /** Every step of a call uses up some of it, and no other step adds any: a call ends after at most
      eight steps. */
  lemma CallTerminates(steps: seq<Step>, step: Step, call: Call)
    requires call in Run(steps).calls
    ensures var before, after := Run(steps).calls[call], Run(steps + [step]).calls;
      && call in after && Rank(before) <= 8
      && (after[call] == before || Rank(after[call]) < Rank(before))
  {
    assert (steps + [step])[..|steps|] == steps;
    RunCalls(steps, call);
  }

  /** A call that is not done can always take a step as soon as the network answers. */
  lemma NeverStuck(steps: seq<Step>, call: Call)
    requires call in Run(steps).calls && !Run(steps).calls[call].phase.Done?
    ensures var s := Run(steps);
      || (forall response :: Enabled(s, ResponseStep(call, response)))
      || (forall header :: Enabled(s, RefreshedStep(call, header)))
      || (exists p :: s.calls[call].phase == AwaitingRefresh(p) && forall outcome :: Enabled(s, SettleStep(p, outcome)))
  {
    SingleFlight(steps);
  }
}
