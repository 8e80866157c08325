/**
 Ownership of the warm browser engines of one worker capsule (scripts/e2e_scheduler/browser_pool.py).

 A handle is an opaque value standing for one started browser server. `failing` names the handles
 whose `close()` raises a cleanup error during one call.
 */
module BrowserPool {
  import opened Outcomes
  import opened Sorting

  datatype Engine = Chromium | Firefox | Webkit

  type Handle = int

  /** `started` and `closed` record, in order, every successful start and every successful close;
      `attempts` records every call of `close()`. */
  datatype Pool = Pool(handles: map<Engine, Handle>, order: seq<Engine>,
                       started: seq<Handle>, closed: seq<Handle>, attempts: seq<Handle>)

  /** The order list is duplicate-free and holds exactly the engines that have a handle. */
  ghost predicate Consistent(handles: map<Engine, Handle>, order: seq<Engine>) {
    Distinct(order) && forall e :: e in handles <==> e in order
  }

  // ---------------------------------------------------------------------------
  // Retiring engines, most recently acquired first
  // ---------------------------------------------------------------------------

  /** An engine stays if it is the retained one or its close fails. */
  predicate Stays(handles: map<Engine, Handle>, keep: Option<Engine>, failing: set<Handle>, e: Engine) {
    keep == Some(e) || (e in handles && handles[e] in failing)
  }

  function Kept(handles: map<Engine, Handle>, order: seq<Engine>, keep: Option<Engine>,
                failing: set<Handle>): seq<Engine> {
    if order == [] then []
    else (if Stays(handles, keep, failing, order[0]) then [order[0]] else []) + Kept(handles, order[1..], keep, failing)
  }

  /** The handles of `order` that get a close attempt, last acquired first, filtered to the
      successful ones if `successful`. */
  function Attempted(handles: map<Engine, Handle>, order: seq<Engine>, keep: Option<Engine>,
                     failing: set<Handle>, successful: bool): seq<Handle>
    requires forall e :: e in order ==> e in handles
  {
    if order == [] then []
    else
      var h := handles[order[0]];
      Attempted(handles, order[1..], keep, failing, successful)
      + (if keep == Some(order[0]) || (successful && h in failing) then [] else [h])
  }

  /** The failure that is raised: that of the most recently acquired failing engine. */
  function LastFailing(handles: map<Engine, Handle>, order: seq<Engine>, keep: Option<Engine>,
                       failing: set<Handle>): Option<Engine> {
    if order == [] then None
    else
      var later := LastFailing(handles, order[1..], keep, failing);
      if later.Some? then later
      else if keep != Some(order[0]) && order[0] in handles && handles[order[0]] in failing then Some(order[0])
      else None
  }

  function Restricted(handles: map<Engine, Handle>, keys: seq<Engine>): map<Engine, Handle> {
    map e | e in handles && e in keys :: handles[e]
  }

  ghost function Retired(p: Pool, keep: Option<Engine>, failing: set<Handle>): Pool
    requires Consistent(p.handles, p.order)
  {
    var left := Kept(p.handles, p.order, keep, failing);
    Pool(Restricted(p.handles, left), left, p.started,
         p.closed + Attempted(p.handles, p.order, keep, failing, true),
         p.attempts + Attempted(p.handles, p.order, keep, failing, false))
  }

  ghost function Failure(p: Pool, keep: Option<Engine>, failing: set<Handle>): Option<Engine> {
    LastFailing(p.handles, p.order, keep, failing)
  }

  ghost function Added(p: Pool, e: Engine, h: Handle): Pool {
    p.(handles := p.handles[e := h], order := p.order + [e], started := p.started + [h])
  }

  // ---------------------------------------------------------------------------
  // The pool object
  // ---------------------------------------------------------------------------

  datatype PoolError = OwnedProcessCleanupError(engine: Engine) | StartFailed(engine: Engine)

  /** `list.remove`: drops the first occurrence. */
  function Remove(s: seq<Engine>, e: Engine): seq<Engine> {
    if s == [] then [] else if s[0] == e then s[1..] else [s[0]] + Remove(s[1..], e)
  }

  class BrowserServerPool {
    var handles: map<Engine, Handle>
    var order: seq<Engine>
    var started: seq<Handle>
    var closed: seq<Handle>
    var attempts: seq<Handle>

    ghost function View(): Pool
      reads this
    {
      Pool(handles, order, started, closed, attempts)
    }

    ghost predicate Valid()
      reads this
    {
      Consistent(handles, order)
    }

    constructor (initialEngine: Engine, initial: Handle)
      ensures Valid() && View() == Pool(map[initialEngine := initial], [initialEngine], [initial], [], [])
    {
      handles, order := map[initialEngine := initial], [initialEngine];
      started, closed, attempts := [initial], [], [];
    }

    /** One close attempt: on success the engine leaves the pool. */
    method CloseAndDrop(engine: Engine, failing: set<Handle>) returns (ok: bool)
      requires engine in handles
      modifies this
      ensures ok <==> old(handles)[engine] !in failing
      ensures View() == if ok then Dropped(old(View()), engine, old(handles)[engine])
                        else old(View()).(attempts := old(attempts) + [old(handles)[engine]])
    {
      var handle := handles[engine];
      attempts := attempts + [handle];
      if handle in failing {
        return false;
      }
      closed := closed + [handle];
      handles := handles - {engine};
      order := Remove(order, engine);
      ok := true;
    }

    /** The loop `_retire_except` (with an engine to keep) and `close` (with none) share. */
    method Retire(keep: Option<Engine>, failing: set<Handle>) returns (firstFailure: Option<Engine>)
      requires Valid()
      modifies this
      ensures Valid() && View() == Retired(old(View()), keep, failing)
      ensures firstFailure == Failure(old(View()), keep, failing)
    {
      var engines := order;
      ghost var before := View();
      firstFailure := None;
      var i := |engines|;
      PartialStart(before, keep, failing);
      while i > 0
        invariant 0 <= i <= |engines|
        invariant View() == Partial(before, i, keep, failing)
        invariant firstFailure == LastFailing(before.handles, engines[i..], keep, failing)
      {
        i := i - 1;
        PartialStep(before, i, keep, failing);
        if keep == Some(engines[i]) {
          continue;
        }
        var ok := CloseAndDrop(engines[i], failing);
        if !ok && firstFailure.None? {
          firstFailure := Some(engines[i]);
        }
      }
      PartialEnd(before, keep, failing);
    }

    method RetireExcept(retained: Engine, failing: set<Handle>) returns (r: Result<(), PoolError>)
      requires Valid()
      modifies this
      ensures Valid() && View() == Retired(old(View()), Some(retained), failing)
      ensures r == match Failure(old(View()), Some(retained), failing)
        case None => Ok(()) case Some(e) => Err(OwnedProcessCleanupError(e))
    {
      var failure := Retire(Some(retained), failing);
      r := if failure.Some? then Err(OwnedProcessCleanupError(failure.value)) else Ok(());
    }

    method Close(failing: set<Handle>) returns (r: Result<(), PoolError>)
      requires Valid()
      modifies this
      ensures Valid() && View() == Retired(old(View()), None, failing)
      ensures r == match Failure(old(View()), None, failing)
        case None => Ok(()) case Some(e) => Err(OwnedProcessCleanupError(e))
    {
      var failure := Retire(None, failing);
      r := if failure.Some? then Err(OwnedProcessCleanupError(failure.value)) else Ok(());
    }

    /** `launch` is what starting a server for the engine gives, if it is needed: a handle or a failure. */
    method EndpointFor(engine: Engine, retireOthers: bool, failing: set<Handle>, launch: Option<Handle>)
      returns (r: Result<Handle, PoolError>)
      requires Valid()
      modifies this
      ensures Valid() && View() == AfterEndpoint(old(View()), engine, retireOthers, failing, launch)
      ensures r == EndpointResult(old(View()), engine, retireOthers, failing, launch)
    {
      ghost var before := View();
      if retireOthers {
        var retired := RetireExcept(engine, failing);
        if retired.Err? {
          return Err(retired.error);
        }
      }
      NarrowedKeeps(before, engine, retireOthers, failing);
      if engine in handles {
        return Ok(handles[engine]);
      }
      if launch.None? {
        return Err(StartFailed(engine));
      }
      handles := handles[engine := launch.value];
      order := order + [engine];
      started := started + [launch.value];
      r := Ok(launch.value);
    }
  }

  ghost function Narrowed(p: Pool, e: Engine, retireOthers: bool, failing: set<Handle>): Pool
    requires Consistent(p.handles, p.order)
  {
    if retireOthers then Retired(p, Some(e), failing) else p
  }

  lemma NarrowedKeeps(p: Pool, e: Engine, retireOthers: bool, failing: set<Handle>)
    requires Consistent(p.handles, p.order)
    ensures var q := Narrowed(p, e, retireOthers, failing);
      && Consistent(q.handles, q.order)
      && (e in q.handles <==> e in p.handles) && (e in p.handles ==> q.handles[e] == p.handles[e])
  {
    KeptExactly(p.handles, p.order, Some(e), failing, e);
    KeptIsConsistent(p.handles, p.order, Some(e), failing);
  }

  ghost function EndpointResult(p: Pool, e: Engine, retireOthers: bool, failing: set<Handle>,
                                launch: Option<Handle>): Result<Handle, PoolError>
    requires Consistent(p.handles, p.order)
  {
    var failure := Failure(p, Some(e), failing);
    if retireOthers && failure.Some? then Err(OwnedProcessCleanupError(failure.value))
    else if e in p.handles then Ok(p.handles[e])
    else if launch.None? then Err(StartFailed(e))
    else Ok(launch.value)
  }

  ghost function AfterEndpoint(p: Pool, e: Engine, retireOthers: bool, failing: set<Handle>,
                               launch: Option<Handle>): Pool
    requires Consistent(p.handles, p.order)
  {
    var q := Narrowed(p, e, retireOthers, failing);
    if EndpointResult(p, e, retireOthers, failing, launch).Ok? && e !in q.handles && launch.Some?
    then Added(q, e, launch.value)
    else q
  }

  // ---------------------------------------------------------------------------
  // Lemmas about retiring
  // ---------------------------------------------------------------------------

  lemma {:induction false} KeptExactly(handles: map<Engine, Handle>, order: seq<Engine>, keep: Option<Engine>,
                                       failing: set<Handle>, e: Engine)
    ensures e in Kept(handles, order, keep, failing) <==> e in order && Stays(handles, keep, failing, e)
  {
    if order != [] {
      KeptExactly(handles, order[1..], keep, failing, e);
    }
  }

  lemma {:induction false} KeptDistinct(handles: map<Engine, Handle>, order: seq<Engine>, keep: Option<Engine>,
                                        failing: set<Handle>)
    requires Distinct(order)
    ensures Distinct(Kept(handles, order, keep, failing))
  {
    if order != [] {
      KeptDistinct(handles, order[1..], keep, failing);
      KeptExactly(handles, order[1..], keep, failing, order[0]);
    }
  }

  lemma KeptIsConsistent(handles: map<Engine, Handle>, order: seq<Engine>, keep: Option<Engine>, failing: set<Handle>)
    requires Consistent(handles, order)
    ensures var left := Kept(handles, order, keep, failing); Consistent(Restricted(handles, left), left)
  {
    KeptDistinct(handles, order, keep, failing);
    forall e ensures e in Kept(handles, order, keep, failing) ==> e in handles {
      KeptExactly(handles, order, keep, failing, e);
    }
  }

  lemma {:induction false} RemoveAt(engines: seq<Engine>, i: nat, tail: seq<Engine>)
    requires i < |engines| && Distinct(engines)
    ensures Remove(engines[..i] + [engines[i]] + tail, engines[i]) == engines[..i] + tail
  {
    var s, e := engines[..i] + [engines[i]] + tail, engines[i];
    if i == 0 {
      assert s[1..] == tail && engines[..0] + tail == tail;
    } else {
      var rest := engines[1..];
      RemoveAt(rest, i - 1, tail);
      assert s[1..] == rest[..i - 1] + [e] + tail;
      assert [s[0]] + (rest[..i - 1] + tail) == engines[..i] + tail;
    }
  }

  /** The pool once the engines from position i on have been dealt with. */
  ghost function Partial(p: Pool, i: nat, keep: Option<Engine>, failing: set<Handle>): Pool
    requires Consistent(p.handles, p.order) && i <= |p.order|
  {
    var left := p.order[..i] + Kept(p.handles, p.order[i..], keep, failing);
    Pool(Restricted(p.handles, left), left, p.started,
         p.closed + Attempted(p.handles, p.order[i..], keep, failing, true),
         p.attempts + Attempted(p.handles, p.order[i..], keep, failing, false))
  }

  lemma PartialStart(p: Pool, keep: Option<Engine>, failing: set<Handle>)
    requires Consistent(p.handles, p.order)
    ensures Partial(p, |p.order|, keep, failing) == p
    ensures LastFailing(p.handles, p.order[|p.order|..], keep, failing) == None
  {
    assert p.order[|p.order|..] == [];
  }

  lemma PartialEnd(p: Pool, keep: Option<Engine>, failing: set<Handle>)
    requires Consistent(p.handles, p.order)
    ensures Partial(p, 0, keep, failing) == Retired(p, keep, failing)
    ensures p.order[0..] == p.order
    ensures var q := Retired(p, keep, failing); Consistent(q.handles, q.order)
  {
    assert p.order[0..] == p.order;
    KeptIsConsistent(p.handles, p.order, keep, failing);
  }

  ghost function Dropped(q: Pool, e: Engine, h: Handle): Pool {
    Pool(q.handles - {e}, Remove(q.order, e), q.started, q.closed + [h], q.attempts + [h])
  }

  /** The specification functions on the engines from position i on. */
  lemma SuffixStep(handles: map<Engine, Handle>, order: seq<Engine>, i: nat, keep: Option<Engine>, failing: set<Handle>)
    requires i < |order| && forall e :: e in order ==> e in handles
    ensures Kept(handles, order[i..], keep, failing)
         == (if Stays(handles, keep, failing, order[i]) then [order[i]] else [])
           + Kept(handles, order[i + 1..], keep, failing)
    ensures var later := LastFailing(handles, order[i + 1..], keep, failing);
      LastFailing(handles, order[i..], keep, failing)
        == if later.None? && keep != Some(order[i]) && handles[order[i]] in failing then Some(order[i]) else later
  {
    assert order[i..][0] == order[i] && order[i..][1..] == order[i + 1..];
  }

  lemma StayingStep(p: Pool, i: nat, keep: Option<Engine>, failing: set<Handle>)
    requires Consistent(p.handles, p.order) && i < |p.order| && Stays(p.handles, keep, failing, p.order[i])
    ensures Partial(p, i, keep, failing).order == Partial(p, i + 1, keep, failing).order
  {
    SuffixStep(p.handles, p.order, i, keep, failing);
    var tail := Kept(p.handles, p.order[i + 1..], keep, failing);
    assert p.order[..i + 1] + tail == p.order[..i] + ([p.order[i]] + tail);
  }

  lemma DroppingStep(p: Pool, i: nat, keep: Option<Engine>, failing: set<Handle>)
    requires Consistent(p.handles, p.order) && i < |p.order| && !Stays(p.handles, keep, failing, p.order[i])
    ensures var q := Partial(p, i + 1, keep, failing);
      && Partial(p, i, keep, failing).order == Remove(q.order, p.order[i])
      && Partial(p, i, keep, failing).handles == q.handles - {p.order[i]}
  {
    var e, tail := p.order[i], Kept(p.handles, p.order[i + 1..], keep, failing);
    var q, q' := Partial(p, i + 1, keep, failing), Partial(p, i, keep, failing);
    SuffixStep(p.handles, p.order, i, keep, failing);
    assert q'.order == p.order[..i] + tail;
    assert q.order == p.order[..i] + [e] + tail;
    RemoveAt(p.order, i, tail);
    KeptExactly(p.handles, p.order[i + 1..], keep, failing, e);
    KeyDropped(p.handles, p.order[..i], e, tail);
  }

  lemma KeyDropped(handles: map<Engine, Handle>, front: seq<Engine>, e: Engine, tail: seq<Engine>)
    requires e !in front && e !in tail
    ensures Restricted(handles, front + [e] + tail) - {e} == Restricted(handles, front + tail)
  {
  }

  /** One turn of the loop. */
  lemma PartialStep(p: Pool, i: nat, keep: Option<Engine>, failing: set<Handle>)
    requires Consistent(p.handles, p.order) && i < |p.order|
    ensures var q, e, h := Partial(p, i + 1, keep, failing), p.order[i], p.handles[p.order[i]];
      && e in q.handles && q.handles[e] == h
      && Partial(p, i, keep, failing)
         == (if keep == Some(e) then q else if h in failing then q.(attempts := q.attempts + [h]) else Dropped(q, e, h))
    ensures var later := LastFailing(p.handles, p.order[i + 1..], keep, failing);
      LastFailing(p.handles, p.order[i..], keep, failing)
        == if later.None? && keep != Some(p.order[i]) && p.handles[p.order[i]] in failing then Some(p.order[i])
           else later
  {
    SuffixStep(p.handles, p.order, i, keep, failing);
    assert p.order[i] in p.order[..i + 1];
    if Stays(p.handles, keep, failing, p.order[i]) {
      StayingStep(p, i, keep, failing);
    } else {
      DroppingStep(p, i, keep, failing);
    }
    AppendAssociates(p, i, keep, failing);
  }

  lemma AppendAssociates(p: Pool, i: nat, keep: Option<Engine>, failing: set<Handle>)
    requires Consistent(p.handles, p.order) && i < |p.order|
    ensures var q, h := Partial(p, i + 1, keep, failing), p.handles[p.order[i]];
      && Partial(p, i, keep, failing).attempts == (if keep == Some(p.order[i]) then q.attempts else q.attempts + [h])
      && Partial(p, i, keep, failing).closed
        == (if keep == Some(p.order[i]) || h in failing then q.closed else q.closed + [h])
  {
    assert p.order[i..][0] == p.order[i] && p.order[i..][1..] == p.order[i + 1..];
  }

  // ---------------------------------------------------------------------------
  // What the calls promise
  // ---------------------------------------------------------------------------

  lemma {:induction false} OnlyRetainedLeft(handles: map<Engine, Handle>, order: seq<Engine>, e: Engine,
                                            failing: set<Handle>)
    requires Distinct(order) && LastFailing(handles, order, Some(e), failing).None?
    ensures Kept(handles, order, Some(e), failing) == if e in order then [e] else []
  {
    if order != [] {
      OnlyRetainedLeft(handles, order[1..], e, failing);
    }
  }

  lemma RestrictedToOne(handles: map<Engine, Handle>, e: Engine)
    ensures Restricted(handles, [e]) == if e in handles then map[e := handles[e]] else map[]
    ensures Restricted(handles, []) == map[]
  {
  }

  lemma RetiredToOne(p: Pool, e: Engine, failing: set<Handle>)
    requires Consistent(p.handles, p.order) && Failure(p, Some(e), failing).None?
    ensures var q := Retired(p, Some(e), failing);
      && q.order == (if e in p.handles then [e] else [])
      && q.handles == (if e in p.handles then map[e := p.handles[e]] else map[])
  {
    OnlyRetainedLeft(p.handles, p.order, e, failing);
    RestrictedToOne(p.handles, e);
  }

  /** A successful `endpoint_for(e, retire_others=True)` leaves exactly `e`, with the handle returned. */
  lemma RetiringEndpointLeavesOne(p: Pool, e: Engine, failing: set<Handle>, launch: Option<Handle>)
    requires Consistent(p.handles, p.order)
    requires EndpointResult(p, e, true, failing, launch).Ok?
    ensures var q := AfterEndpoint(p, e, true, failing, launch);
      q.order == [e] && q.handles == map[e := EndpointResult(p, e, true, failing, launch).value]
  {
    RetiredToOne(p, e, failing);
  }

  lemma {:induction false} FailingSplit(handles: map<Engine, Handle>, order: seq<Engine>, failing: set<Handle>)
    ensures LastFailing(handles, order, None, failing).None? <==> Kept(handles, order, None, failing) == []
    ensures var left := Kept(handles, order, None, failing);
      left != [] ==> LastFailing(handles, order, None, failing) == Some(left[|left| - 1])
  {
    if order != [] {
      FailingSplit(handles, order[1..], failing);
    }
  }

  lemma {:induction false} AllAttempted(handles: map<Engine, Handle>, order: seq<Engine>, failing: set<Handle>)
    requires forall e :: e in order ==> e in handles
    ensures var tried := Attempted(handles, order, None, failing, false);
      |tried| == |order| && forall i :: 0 <= i < |order| ==> tried[|order| - 1 - i] == handles[order[i]]
  {
    if order != [] {
      AllAttempted(handles, order[1..], failing);
    }
  }

  /** `close` leaves exactly the failing engines and raises the failure of the most recently
      acquired one of them. */
  lemma CloseLeavesFailing(p: Pool, failing: set<Handle>, e: Engine)
    requires Consistent(p.handles, p.order)
    ensures var q := Retired(p, None, failing);
      && (e in q.order <==> e in p.order && p.handles[e] in failing)
      && (Failure(p, None, failing) == if q.order == [] then None else Some(q.order[|q.order| - 1]))
  {
    KeptExactly(p.handles, p.order, None, failing, e);
    FailingSplit(p.handles, p.order, failing);
  }

  /** `close` attempts every handle, latest first. */
  lemma CloseAttemptsAll(p: Pool, failing: set<Handle>)
    requires Consistent(p.handles, p.order)
    ensures var attempts := Retired(p, None, failing).attempts;
      && |attempts| == |p.attempts| + |p.order| && p.attempts <= attempts
      && forall i :: 0 <= i < |p.order| ==> attempts[|p.attempts|..][|p.order| - 1 - i] == p.handles[p.order[i]]
  {
    AllAttempted(p.handles, p.order, failing);
    var tried := Attempted(p.handles, p.order, None, failing, false);
    assert (p.attempts + tried)[|p.attempts|..] == tried;
  }

  /** Retiring keeps the acquisition order of what is left. */
  lemma {:induction false} KeptInOrder(handles: map<Engine, Handle>, order: seq<Engine>, keep: Option<Engine>,
                                       failing: set<Handle>, i: nat, j: nat)
    returns (a: nat, b: nat)
    requires i < j < |Kept(handles, order, keep, failing)|
    ensures a < b < |order|
    ensures order[a] == Kept(handles, order, keep, failing)[i] && order[b] == Kept(handles, order, keep, failing)[j]
  {
    if Stays(handles, keep, failing, order[0]) {
      if i == 0 {
        a := 0;
        KeptExactly(handles, order[1..], keep, failing, Kept(handles, order[1..], keep, failing)[j - 1]);
        b :| 0 < b < |order| && order[b] == order[1..][b - 1] == Kept(handles, order[1..], keep, failing)[j - 1];
      } else {
        a, b := KeptInOrder(handles, order[1..], keep, failing, i - 1, j - 1);
        a, b := a + 1, b + 1;
      }
    } else {
      a, b := KeptInOrder(handles, order[1..], keep, failing, i, j);
      a, b := a + 1, b + 1;
    }
  }

  // ---------------------------------------------------------------------------
  // What retiring and acquiring do, exactly
  // ---------------------------------------------------------------------------

  /** The engines that retiring tries to close, those whose close works, and those whose close fails. */
  function Others(keep: Option<Engine>): Engine -> bool { (e: Engine) => keep != Some(e) }

  function Closing(handles: map<Engine, Handle>, keep: Option<Engine>, failing: set<Handle>): Engine -> bool {
    (e: Engine) => keep != Some(e) && e in handles && handles[e] !in failing
  }

  function Failing(handles: map<Engine, Handle>, keep: Option<Engine>, failing: set<Handle>): Engine -> bool {
    (e: Engine) => keep != Some(e) && e in handles && handles[e] in failing
  }

  function Staying(handles: map<Engine, Handle>, keep: Option<Engine>, failing: set<Handle>): Engine -> bool {
    (e: Engine) => !(keep != Some(e) && e in handles && handles[e] !in failing)
  }

  /** The handles of these engines, last first. */
  ghost predicate HandlesBackwards(tried: seq<Handle>, handles: map<Engine, Handle>, engines: seq<Engine>) {
    && |tried| == |engines|
    && forall i :: 0 <= i < |engines| ==> engines[i] in handles && tried[|engines| - 1 - i] == handles[engines[i]]
  }

  lemma {:induction false} AttemptedBackwards(handles: map<Engine, Handle>, order: seq<Engine>, keep: Option<Engine>,
                                              failing: set<Handle>)
    requires forall e :: e in order ==> e in handles
    ensures HandlesBackwards(Attempted(handles, order, keep, failing, false), handles, Filter(order, Others(keep)))
    ensures HandlesBackwards(Attempted(handles, order, keep, failing, true), handles,
                             Filter(order, Closing(handles, keep, failing)))
  {
    if order != [] {
      AttemptedBackwards(handles, order[1..], keep, failing);
    }
  }

  lemma {:induction false} KeptIsFilter(handles: map<Engine, Handle>, order: seq<Engine>, keep: Option<Engine>,
                                        failing: set<Handle>)
    requires forall e :: e in order ==> e in handles
    ensures Kept(handles, order, keep, failing) == Filter(order, Staying(handles, keep, failing))
    ensures var bad := Filter(order, Failing(handles, keep, failing));
      LastFailing(handles, order, keep, failing) == if bad == [] then None else Some(bad[|bad| - 1])
  {
    if order != [] {
      KeptIsFilter(handles, order[1..], keep, failing);
    }
  }

  /** Retiring tries to close every engine but the retained one, last acquired first; those whose close works leave the
      pool, the others stay in their order, and the failure reported is the first one met. */
  lemma RetiredExactly(p: Pool, keep: Option<Engine>, failing: set<Handle>)
    requires Consistent(p.handles, p.order)
    ensures var q, bad := Retired(p, keep, failing), Filter(p.order, Failing(p.handles, keep, failing));
      && q.order == Filter(p.order, Staying(p.handles, keep, failing))
      && (forall e :: e in q.handles <==> e in q.order) && (forall e :: e in q.handles ==> q.handles[e] == p.handles[e])
      && q.started == p.started
      && p.attempts <= q.attempts && p.closed <= q.closed
      && HandlesBackwards(q.attempts[|p.attempts|..], p.handles, Filter(p.order, Others(keep)))
      && HandlesBackwards(q.closed[|p.closed|..], p.handles, Filter(p.order, Closing(p.handles, keep, failing)))
      && Failure(p, keep, failing) == if bad == [] then None else Some(bad[|bad| - 1])
  {
    var q := Retired(p, keep, failing);
    AttemptedBackwards(p.handles, p.order, keep, failing);
    KeptIsFilter(p.handles, p.order, keep, failing);
    KeptIsConsistent(p.handles, p.order, keep, failing);
    assert q.attempts[|p.attempts|..] == Attempted(p.handles, p.order, keep, failing, false);
    assert q.closed[|p.closed|..] == Attempted(p.handles, p.order, keep, failing, true);
  }

  /** `endpoint_for` on the pool that is left after retiring, if that was asked and worked: a running engine is reused,
      any other is started and comes last in the order, and a failing start leaves the pool as it is. */
  lemma EndpointExactly(p: Pool, e: Engine, retireOthers: bool, failing: set<Handle>, launch: Option<Handle>)
    requires Consistent(p.handles, p.order)
    ensures var q := if retireOthers then Retired(p, Some(e), failing) else p;
      var r, after := EndpointResult(p, e, retireOthers, failing, launch),
                      AfterEndpoint(p, e, retireOthers, failing, launch);
      if retireOthers && Failure(p, Some(e), failing).Some? then
        r == Err(OwnedProcessCleanupError(Failure(p, Some(e), failing).value)) && after == q
      else if e in p.handles then r == Ok(p.handles[e]) && after == q
      else if launch.None? then r == Err(StartFailed(e)) && after == q
      else
        && r == Ok(launch.value)
        && after == Pool(q.handles[e := launch.value], q.order + [e], q.started + [launch.value], q.closed, q.attempts)
  {
    NarrowedKeeps(p, e, retireOthers, failing);
  }

  // ---------------------------------------------------------------------------
  // Runs: no handle is lost and none is closed twice
  // ---------------------------------------------------------------------------

  datatype Step =
    | EndpointStep(engine: Engine, retireOthers: bool, failing: set<Handle>, launch: Option<Handle>)
    | CloseStep(failing: set<Handle>)

  function Held(handles: map<Engine, Handle>, order: seq<Engine>): seq<Handle>
    requires forall e :: e in order ==> e in handles
  {
    if order == [] then [] else [handles[order[0]]] + Held(handles, order[1..])
  }

  ghost predicate Owned(p: Pool) {
    && Consistent(p.handles, p.order)
    && Distinct(p.started)
    && multiset(p.started) == multiset(Held(p.handles, p.order)) + multiset(p.closed)
  }

  /** Every start gives a handle never seen before; a step claiming otherwise does not happen. */
  ghost function Exec(p: Pool, step: Step): Pool
    requires Consistent(p.handles, p.order)
  {
    match step
    case EndpointStep(e, retireOthers, failing, launch) =>
      if launch.Some? && launch.value in p.started then p else AfterEndpoint(p, e, retireOthers, failing, launch)
    case CloseStep(failing) => Retired(p, None, failing)
  }

  lemma {:induction false} HeldRestricted(handles: map<Engine, Handle>, order: seq<Engine>, keys: seq<Engine>)
    requires forall e :: e in order ==> e in handles && e in keys
    ensures Held(Restricted(handles, keys), order) == Held(handles, order)
  {
    if order != [] {
      HeldRestricted(handles, order[1..], keys);
    }
  }

  lemma {:induction false} HeldAppend(handles: map<Engine, Handle>, order: seq<Engine>, e: Engine, h: Handle)
    requires (forall x :: x in order ==> x in handles) && e !in order
    ensures Held(handles[e := h], order + [e]) == Held(handles, order) + [h]
  {
    if order != [] {
      HeldAppend(handles, order[1..], e, h);
      assert (order + [e])[1..] == order[1..] + [e];
    }
  }

  lemma {:induction false} RetireSplits(handles: map<Engine, Handle>, order: seq<Engine>, keep: Option<Engine>,
                                        failing: set<Handle>)
    requires forall e :: e in order ==> e in handles
    ensures forall e :: e in Kept(handles, order, keep, failing) ==> e in handles
    ensures multiset(Held(handles, order))
         == multiset(Held(handles, Kept(handles, order, keep, failing)))
           + multiset(Attempted(handles, order, keep, failing, true))
  {
    KeptHaveHandles(handles, order, keep, failing);
    if order != [] {
      RetireSplits(handles, order[1..], keep, failing);
      var h, rest := handles[order[0]], Kept(handles, order[1..], keep, failing);
      var held, tried := Held(handles, rest), Attempted(handles, order[1..], keep, failing, true);
      assert Held(handles, order) == [h] + Held(handles, order[1..]);
      if Stays(handles, keep, failing, order[0]) {
        HeldCons(handles, order[0], rest);
        CountOnce(h, Held(handles, order[1..]), [h] + held, tried + [], held, tried);
      } else {
        assert Kept(handles, order, keep, failing) == rest;
        CountOnce(h, Held(handles, order[1..]), held, tried + [h], held, tried);
      }
    }
  }

  lemma CountOnce(h: Handle, all: seq<Handle>, a': seq<Handle>, b': seq<Handle>, a: seq<Handle>, b: seq<Handle>)
    requires multiset(all) == multiset(a) + multiset(b)
    requires (a' == [h] + a && b' == b + []) || (a' == a && b' == b + [h])
    ensures multiset([h] + all) == multiset(a') + multiset(b')
  {
  }

  lemma HeldCons(handles: map<Engine, Handle>, e: Engine, rest: seq<Engine>)
    requires e in handles && forall x :: x in rest ==> x in handles
    ensures Held(handles, [e] + rest) == [handles[e]] + Held(handles, rest)
    ensures [] + rest == rest
  {
    assert ([e] + rest)[1..] == rest;
  }

  lemma KeptHaveHandles(handles: map<Engine, Handle>, order: seq<Engine>, keep: Option<Engine>, failing: set<Handle>)
    requires forall e :: e in order ==> e in handles
    ensures forall e :: e in Kept(handles, order, keep, failing) ==> e in handles
  {
    forall e ensures e in Kept(handles, order, keep, failing) ==> e in handles {
      KeptExactly(handles, order, keep, failing, e);
    }
  }

  lemma RetiredOwned(p: Pool, keep: Option<Engine>, failing: set<Handle>)
    requires Owned(p)
    ensures Owned(Retired(p, keep, failing))
  {
    var left := Kept(p.handles, p.order, keep, failing);
    KeptIsConsistent(p.handles, p.order, keep, failing);
    RetireSplits(p.handles, p.order, keep, failing);
    HeldRestricted(p.handles, left, left);
  }

  lemma AddedOwned(p: Pool, e: Engine, h: Handle)
    requires Owned(p) && e !in p.handles && h !in p.started
    ensures Owned(Added(p, e, h))
  {
    HeldAppend(p.handles, p.order, e, h);
  }

  /** Every operation keeps ownership exact: each handle ever started is either in the pool or has
      been closed successfully, and exactly once. */
  lemma OwnershipKept(p: Pool, step: Step)
    requires Owned(p)
    ensures Owned(Exec(p, step))
  {
    match step {
      case CloseStep(failing) => RetiredOwned(p, None, failing);
      case EndpointStep(e, retireOthers, failing, launch) =>
        RetiredOwned(p, Some(e), failing);
        var q := Narrowed(p, e, retireOthers, failing);
        if launch.Some? && launch.value !in p.started && e !in q.handles {
          AddedOwned(q, e, launch.value);
        }
    }
  }

  ghost function Run(initialEngine: Engine, initial: Handle, steps: seq<Step>): (p: Pool)
    ensures Consistent(p.handles, p.order)
  {
    if steps == [] then Pool(map[initialEngine := initial], [initialEngine], [initial], [], [])
    else
      var p := Run(initialEngine, initial, steps[..|steps| - 1]);
      ExecConsistent(p, steps[|steps| - 1]);
      Exec(p, steps[|steps| - 1])
  }

  lemma ExecConsistent(p: Pool, step: Step)
    requires Consistent(p.handles, p.order)
    ensures var q := Exec(p, step); Consistent(q.handles, q.order)
  {
    match step {
      case CloseStep(failing) => KeptIsConsistent(p.handles, p.order, None, failing);
      case EndpointStep(e, _, failing, _) => KeptIsConsistent(p.handles, p.order, Some(e), failing);
    }
  }

  lemma {:induction false} RunOwned(initialEngine: Engine, initial: Handle, steps: seq<Step>)
    ensures Owned(Run(initialEngine, initial, steps))
  {
    if steps == [] {
      var order := [initialEngine];
      assert order[1..] == [];
    } else {
      RunOwned(initialEngine, initial, steps[..|steps| - 1]);
      OwnershipKept(Run(initialEngine, initial, steps[..|steps| - 1]), steps[|steps| - 1]);
    }
  }

  /** In every run, a handle that was started is in the pool or closed, never both, and closed at most once. */
  lemma StartedHeldOrClosed(initialEngine: Engine, initial: Handle, steps: seq<Step>, h: Handle)
    ensures var p := Run(initialEngine, initial, steps);
      && (h in p.started <==> h in Held(p.handles, p.order) || h in p.closed)
      && !(h in Held(p.handles, p.order) && h in p.closed)
      && multiset(p.closed)[h] <= 1
  {
    RunOwned(initialEngine, initial, steps);
    var p := Run(initialEngine, initial, steps);
    DistinctCounts(p.started, h);
    assert multiset(p.started)[h] == multiset(Held(p.handles, p.order))[h] + multiset(p.closed)[h];
  }
}
