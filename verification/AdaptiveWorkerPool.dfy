/**
 Cold-reserve activation and worker gating (scripts/e2e_scheduler/adaptive_worker_pool.py).

 Starting a capsule is an operation that may fail: `fails` names the workers whose `start()`
 raises during one call. The capacity the controller asks for is the parameter `desired`.
 */
module AdaptiveWorkerPool {
  import opened Numbers
  import opened Outcomes
  import opened Sorting

  type WorkerId = int  // an opaque name: only equality matters

  ghost function Members(s: seq<WorkerId>): set<WorkerId> {
    set x | x in s
  }

  /** The slice `order[:capacity]`, with Python's reading of a negative bound. */
  function Leading(order: seq<WorkerId>, capacity: int): seq<WorkerId> {
    if capacity >= 0 then order[..Min(capacity, |order|)] else order[..Max(0, |order| + capacity)]
  }

  predicate Enabled(order: seq<WorkerId>, active: set<WorkerId>, worker: WorkerId, capacity: int) {
    worker in active && worker in Leading(order, capacity)
  }

  // ---------------------------------------------------------------------------
  // One capacity call
  // ---------------------------------------------------------------------------

  /** The first cold reserve in capacity order, looking from position i on. */
  function NextReserve(order: seq<WorkerId>, i: nat, reserves: set<WorkerId>,
                       active: set<WorkerId>): (r: Option<WorkerId>)
    requires i <= |order|
    ensures r.Some? ==> r.value in reserves && r.value !in active
    decreases |order| - i
  {
    if i == |order| then None
    else if order[i] !in active && order[i] in reserves then Some(order[i])
    else NextReserve(order, i + 1, reserves, active)
  }

  /** What one call does: the active set it leaves, the capsules it started in order, and the
      worker whose start failed, if one did. */
  datatype Growth = Growth(active: set<WorkerId>, started: seq<WorkerId>, failed: Option<WorkerId>)

  function Grow(order: seq<WorkerId>, reserves: set<WorkerId>, active: set<WorkerId>, desired: int,
                fails: set<WorkerId>): Growth
    decreases reserves - active
  {
    if |active| >= desired then Growth(active, [], None)
    else
      var next := NextReserve(order, 0, reserves, active);
      if next.None? then Growth(active, [], None)
      else if next.value in fails then Growth(active, [], next)
      else
        assert next.value in reserves - active;
        StartedFirst(next.value, Grow(order, reserves, active + {next.value}, desired, fails))
  }

  function StartedFirst(worker: WorkerId, rest: Growth): Growth {
    Growth(rest.active, [worker] + rest.started, rest.failed)
  }

  function After(started: seq<WorkerId>, rest: Growth): Growth {
    Growth(rest.active, started + rest.started, rest.failed)
  }

  lemma AfterOneMore(started: seq<WorkerId>, worker: WorkerId, rest: Growth)
    ensures After(started, StartedFirst(worker, rest)) == After(started + [worker], rest)
  {
  }

  datatype WorkerLoopError = WorkerLoopError(worker: WorkerId)

  class AdaptiveWorkerPool {
    const order: seq<WorkerId>
    const reserves: set<WorkerId>
    var active: set<WorkerId>
    var stopped: bool
    var started: seq<WorkerId>  // every successful capsule start, in order
    var wakeups: nat     // how often notify_all() ran

    constructor (warm: seq<WorkerId>, reserves: set<WorkerId>, order: seq<WorkerId>)
      ensures this.order == order && this.reserves == reserves
      ensures active == Members(warm) && !stopped && started == [] && wakeups == 0
    {
      this.order, this.reserves := order, reserves;
      active, stopped, started, wakeups := set x | x in warm, false, [], 0;
    }

    method AssignmentCapacity(desired: int, fails: set<WorkerId>) returns (r: Result<int, WorkerLoopError>)
      modifies this
      ensures var g := Grow(order, reserves, old(active), desired, fails);
        && active == g.active && started == old(started) + g.started
        && wakeups == old(wakeups) + |g.started| && stopped == old(stopped)
        && r == if g.failed.Some? then Err(WorkerLoopError(g.failed.value))
                else Ok(Min(desired, |g.active|))
    {
      ghost var whole := Grow(order, reserves, active, desired, fails);
      ghost var newly := [];
      while |active| < desired
        invariant started == old(started) + newly
        invariant wakeups == old(wakeups) + |newly| && stopped == old(stopped)
        invariant whole == After(newly, Grow(order, reserves, active, desired, fails))
        decreases reserves - active
      {
        var next := NextReserve(order, 0, reserves, active);
        if next.None? {
          break;
        }
        if next.value in fails {
          return Err(WorkerLoopError(next.value));
        }
        AfterOneMore(newly, next.value, Grow(order, reserves, active + {next.value}, desired, fails));
        active := active + {next.value};
        started := started + [next.value];
        wakeups := wakeups + 1;
        newly := newly + [next.value];
      }
      r := Ok(Min(desired, |active|));
    }

    method WorkerIsEnabled(worker: WorkerId, capacity: int) returns (r: bool)
      ensures r == Enabled(order, active, worker, capacity)
    {
      r := worker in active && worker in Leading(order, capacity);
    }

    method StopWaiters()
      modifies this
      ensures stopped && active == old(active) && started == old(started) && wakeups == old(wakeups) + 1
    {
      stopped := true;
      wakeups := wakeups + 1;
    }
  }

  // ---------------------------------------------------------------------------
  // The layout the runner builds: warm workers lead the capacity order
  // ---------------------------------------------------------------------------

  /** worker_affinity.py: the last warm worker leads, the reserves trail. */
  function CapacityWorkerOrder(warm: seq<WorkerId>, reserve: seq<WorkerId>): seq<WorkerId> {
    if warm == [] then reserve
    else [warm[|warm| - 1]] + warm[..|warm| - 1] + reserve
  }

  ghost predicate Laid(order: seq<WorkerId>, reserves: set<WorkerId>, warm: nat) {
    && warm <= |order| && Distinct(order) && reserves == Members(order[warm..])
  }

  /** The first k workers of the order. */
  ghost function Prefix(order: seq<WorkerId>, k: nat): set<WorkerId>
    requires k <= |order|
  {
    if k == 0 then {} else Prefix(order, k - 1) + {order[k - 1]}
  }

  lemma {:induction false} PrefixMembers(order: seq<WorkerId>, k: nat, w: WorkerId)
    requires k <= |order|
    ensures w in Prefix(order, k) <==> w in order[..k]
  {
    if k > 0 {
      PrefixMembers(order, k - 1, w);
      assert order[..k] == order[..k - 1] + [order[k - 1]];
    }
  }

  lemma {:induction false} PrefixSize(order: seq<WorkerId>, k: nat)
    requires k <= |order| && Distinct(order)
    ensures |Prefix(order, k)| == k
  {
    if k > 0 {
      PrefixSize(order, k - 1);
      PrefixMembers(order, k - 1, order[k - 1]);
    }
  }

  lemma {:induction false} NextIsInOrder(order: seq<WorkerId>, i: nat, reserves: set<WorkerId>, active: set<WorkerId>,
                                         k: nat)
    requires i <= k <= |order|
    requires forall j :: i <= j < k ==> order[j] in active
    requires k < |order| ==> order[k] !in active && order[k] in reserves
    ensures NextReserve(order, i, reserves, active) == if k < |order| then Some(order[k]) else None
    decreases k - i
  {
    if i < k {
      NextIsInOrder(order, i + 1, reserves, active, k);
    }
  }

  /** The order the runner builds from its warm and reserve workers has the layout the pool needs. */
  lemma RunnerLayout(warm: seq<WorkerId>, reserve: seq<WorkerId>)
    requires Distinct(warm + reserve)
    ensures Laid(CapacityWorkerOrder(warm, reserve), Members(reserve), |warm|)
  {
    assert CapacityWorkerOrder(warm, reserve)[|warm|..] == reserve;
    RotatedDistinct(warm, reserve);
  }

  /** Its leading workers are the warm ones. */
  lemma WarmWorkersLead(warm: seq<WorkerId>, reserve: seq<WorkerId>, w: WorkerId)
    ensures w in Prefix(CapacityWorkerOrder(warm, reserve), |warm|) <==> w in warm
  {
    PrefixMembers(CapacityWorkerOrder(warm, reserve), |warm|, w);
    RotatedMembers(warm, reserve, w);
  }

  lemma RotatedMembers(warm: seq<WorkerId>, reserve: seq<WorkerId>, w: WorkerId)
    ensures w in CapacityWorkerOrder(warm, reserve)[..|warm|] <==> w in warm
  {
    if warm != [] {
      var last := |warm| - 1;
      assert CapacityWorkerOrder(warm, reserve)[..|warm|] == [warm[last]] + warm[..last];
      assert warm == warm[..last] + [warm[last]];
    }
  }

  lemma RotatedDistinct(warm: seq<WorkerId>, reserve: seq<WorkerId>)
    requires Distinct(warm + reserve)
    ensures Distinct(CapacityWorkerOrder(warm, reserve))
  {
    var order, all := CapacityWorkerOrder(warm, reserve), warm + reserve;
    if warm == [] {
      assert all == reserve;
    } else {
      var n := |warm|;
      forall i, j | 0 <= i < j < |order| ensures order[i] != order[j] {
        assert order[i] == all[if i == 0 then n - 1 else if i < n then i - 1 else i];
        assert order[j] == all[if j < n then j - 1 else j];
      }
    }
  }

  /** With the first k workers active there are k of them, and the next reserve is the k-th worker. */
  ghost predicate InLine(order: seq<WorkerId>, reserves: set<WorkerId>, k: nat)
    requires k <= |order|
  {
    && |Prefix(order, k)| == k
    && NextReserve(order, 0, reserves, Prefix(order, k)) == if k < |order| then Some(order[k]) else None
  }

  ghost predicate Lined(order: seq<WorkerId>, reserves: set<WorkerId>, warm: nat) {
    warm <= |order| && forall k :: warm <= k <= |order| ==> InLine(order, reserves, k)
  }

  lemma LaidIsLined(order: seq<WorkerId>, reserves: set<WorkerId>, warm: nat)
    requires Laid(order, reserves, warm)
    ensures Lined(order, reserves, warm)
  {
    forall k | warm <= k <= |order| ensures InLine(order, reserves, k) {
      PrefixSize(order, k);
      forall i | 0 <= i < k ensures order[i] in Prefix(order, k) {
        PrefixMembers(order, k, order[i]);
      }
      if k < |order| {
        PrefixMembers(order, k, order[k]);
        assert order[warm..][k - warm] == order[k];
      }
      NextIsInOrder(order, 0, reserves, Prefix(order, k), k);
    }
  }

  /** The length the active prefix reaches: the demand or the first failing worker stops it. */
  ghost function Reach(order: seq<WorkerId>, k: nat, desired: int, fails: set<WorkerId>): (r: nat)
    requires k <= |order|
    ensures k <= r <= |order| && (r > k ==> r <= desired)
    decreases |order| - k
  {
    if k < desired && k < |order| && order[k] !in fails then Reach(order, k + 1, desired, fails) else k
  }

  lemma {:induction false} ReachStopsAtFailure(order: seq<WorkerId>, k: nat, desired: int, fails: set<WorkerId>)
    requires k <= |order|
    ensures var r := Reach(order, k, desired, fails);
      (forall i :: k <= i < r ==> order[i] !in fails) && (r < Min(desired, |order|) ==> order[r] in fails)
    decreases |order| - k
  {
    if k < desired && k < |order| && order[k] !in fails {
      ReachStopsAtFailure(order, k + 1, desired, fails);
    }
  }

  /** One turn of the loop, from the first k workers. */
  lemma GrowthStep(order: seq<WorkerId>, reserves: set<WorkerId>, k: nat, desired: int, fails: set<WorkerId>)
    requires k <= |order| && InLine(order, reserves, k)
    ensures Grow(order, reserves, Prefix(order, k), desired, fails)
      == if k >= desired || k == |order| then Growth(Prefix(order, k), [], None)
         else if order[k] in fails then Growth(Prefix(order, k), [], Some(order[k]))
         else StartedFirst(order[k], Grow(order, reserves, Prefix(order, k + 1), desired, fails))
  {
  }

  /** One capacity call from a prefix ends at a prefix, having started exactly the capsules in
      between, in capacity order; it raises exactly when it stopped short of the demand. */
  lemma {:induction false} GrowthIsPrefix(
    order: seq<WorkerId>, reserves: set<WorkerId>, warm: nat, k: nat, desired: int, fails: set<WorkerId>)
    requires Lined(order, reserves, warm) && warm <= k <= |order|
    ensures var r := Reach(order, k, desired, fails);
      Grow(order, reserves, Prefix(order, k), desired, fails)
        == Growth(Prefix(order, r), order[k..r], if r < Min(desired, |order|) then Some(order[r]) else None)
    decreases |order| - k
  {
    assert InLine(order, reserves, k);
    GrowthStep(order, reserves, k, desired, fails);
    if k < desired && k < |order| && order[k] !in fails {
      GrowthIsPrefix(order, reserves, warm, k + 1, desired, fails);
      SliceJoin(order, k, k + 1, Reach(order, k + 1, desired, fails));
    }
  }

  lemma SliceJoin(s: seq<WorkerId>, i: nat, j: nat, k: nat)
    requires i <= j <= k <= |s|
    ensures s[i..j] + s[j..k] == s[i..k]
    ensures j == i + 1 ==> s[i..j] == [s[i]]
  {
  }

  // ---------------------------------------------------------------------------
  // Interleavings of capacity calls, waiters and stop
  // ---------------------------------------------------------------------------

  type Thread = nat

  datatype Waiter = Waiter(worker: WorkerId, status: Status)

  datatype Status = Blocked(notified: bool) | Returned(result: bool)

  datatype Machine = Machine(active: set<WorkerId>, stopped: bool, started: seq<WorkerId>, waiters: map<Thread, Waiter>)

  datatype Step =
    | CapacityStep(desired: int, fails: set<WorkerId>)
    | EnterStep(thread: Thread, worker: WorkerId)   // wait_until_active takes the lock for the first time
    | WakeStep(thread: Thread)               // a blocked waiter gets the lock back, for any reason
    | StopStep

  function Looked(active: set<WorkerId>, stopped: bool, worker: WorkerId): Waiter {
    Waiter(worker, if worker in active || stopped then Returned(worker in active) else Blocked(false))
  }

  function NotifyAll(waiters: map<Thread, Waiter>): map<Thread, Waiter> {
    map t | t in waiters :: if waiters[t].status.Blocked? then waiters[t].(status := Blocked(true)) else waiters[t]
  }

  function Exec(order: seq<WorkerId>, reserves: set<WorkerId>, m: Machine, step: Step): Machine {
    match step
    case CapacityStep(desired, fails) =>
      var g := Grow(order, reserves, m.active, desired, fails);
      Machine(g.active, m.stopped, m.started + g.started,
              if g.started != [] then NotifyAll(m.waiters) else m.waiters)
    case EnterStep(t, w) =>
      if t in m.waiters then m
      else m.(waiters := m.waiters[t := Looked(m.active, m.stopped, w)])
    case WakeStep(t) =>
      if t !in m.waiters || m.waiters[t].status.Returned? then m
      else m.(waiters := m.waiters[t := Looked(m.active, m.stopped, m.waiters[t].worker)])
    case StopStep => m.(stopped := true, waiters := NotifyAll(m.waiters))
  }

  function Run(order: seq<WorkerId>, reserves: set<WorkerId>, warm: set<WorkerId>, steps: seq<Step>): Machine {
    if steps == [] then Machine(warm, false, [], map[])
    else Exec(order, reserves, Run(order, reserves, warm, steps[..|steps| - 1]), steps[|steps| - 1])
  }

  /** The run of a pool laid out by the runner: the first `warm` workers start active. */
  ghost function PoolRun(order: seq<WorkerId>, warm: nat, steps: seq<Step>): Machine
    requires warm <= |order|
  {
    Run(order, Members(order[warm..]), Prefix(order, warm), steps)
  }

  ghost predicate WaiterSound(m: Machine, t: Thread)
    requires t in m.waiters
  {
    var w := m.waiters[t];
    && (w.status == Blocked(false) ==> w.worker !in m.active && !m.stopped)
    && (w.status == Returned(true) ==> w.worker in m.active)
    && (w.status == Returned(false) ==> m.stopped)
  }

  /** The active workers are a prefix of the capacity order, and the successful starts are exactly
      the reserves of that prefix, each once and in order. */
  ghost predicate AtPrefix(order: seq<WorkerId>, warm: nat, m: Machine) {
    var k := warm + |m.started|;
    k <= |order| && m.active == Prefix(order, k) && m.started == order[warm..k]
  }

  lemma CapacityStepKeepsPrefix(order: seq<WorkerId>, warm: nat, m: Machine, desired: int, fails: set<WorkerId>)
    requires warm <= |order| && Lined(order, Members(order[warm..]), warm) && AtPrefix(order, warm, m)
    ensures AtPrefix(order, warm, Exec(order, Members(order[warm..]), m, CapacityStep(desired, fails)))
  {
    var k := warm + |m.started|;
    GrowthIsPrefix(order, Members(order[warm..]), warm, k, desired, fails);
    SliceJoin(order, warm, k, Reach(order, k, desired, fails));
  }

  lemma {:induction false} LinedRunAtPrefix(order: seq<WorkerId>, warm: nat, steps: seq<Step>)
    requires warm <= |order| && Lined(order, Members(order[warm..]), warm)
    ensures AtPrefix(order, warm, PoolRun(order, warm, steps))
  {
    if steps != [] {
      var front, step := steps[..|steps| - 1], steps[|steps| - 1];
      LinedRunAtPrefix(order, warm, front);
      if step.CapacityStep? {
        CapacityStepKeepsPrefix(order, warm, PoolRun(order, warm, front), step.desired, step.fails);
      }
    }
  }

  lemma RunAtPrefix(order: seq<WorkerId>, warm: nat, steps: seq<Step>)
    requires warm <= |order| && Distinct(order)
    ensures AtPrefix(order, warm, PoolRun(order, warm, steps))
  {
    LaidIsLined(order, Members(order[warm..]), warm);
    LinedRunAtPrefix(order, warm, steps);
  }

  /** No blocked waiter has missed a notification, and every waiter that returned told the truth. */
  lemma {:induction false} WaitersSound(order: seq<WorkerId>, warm: nat, steps: seq<Step>, t: Thread)
    requires warm <= |order| && t in PoolRun(order, warm, steps).waiters
    ensures WaiterSound(PoolRun(order, warm, steps), t)
  {
    var front, step := steps[..|steps| - 1], steps[|steps| - 1];
    var m := PoolRun(order, warm, front);
    if t in m.waiters {
      WaitersSound(order, warm, front, t);
    }
    if step.CapacityStep? {
      GrowthKeeps(order, Members(order[warm..]), m.active, step.desired, step.fails);
    }
  }

  /** A call never deactivates a worker, and without a start it changes nothing. */
  lemma {:induction false} GrowthKeeps(order: seq<WorkerId>, reserves: set<WorkerId>, active: set<WorkerId>,
                                       desired: int, fails: set<WorkerId>)
    ensures var g := Grow(order, reserves, active, desired, fails);
      active <= g.active && (g.started == [] ==> g.active == active)
    decreases reserves - active
  {
    var next := NextReserve(order, 0, reserves, active);
    if |active| < desired && next.Some? && next.value !in fails {
      assert next.value in reserves - active;
      GrowthKeeps(order, reserves, active + {next.value}, desired, fails);
    }
  }

  /** The active set and the starts only grow. */
  lemma {:induction false} PoolGrows(order: seq<WorkerId>, warm: nat, steps: seq<Step>, n: nat)
    requires warm <= |order| && n <= |steps|
    ensures PoolRun(order, warm, steps[..n]).started <= PoolRun(order, warm, steps).started
    ensures PoolRun(order, warm, steps[..n]).active <= PoolRun(order, warm, steps).active
    decreases |steps|
  {
    if n == |steps| {
      assert steps[..n] == steps;
    } else {
      var front, step := steps[..|steps| - 1], steps[|steps| - 1];
      PoolGrows(order, warm, front, n);
      assert front[..n] == steps[..n];
      if step.CapacityStep? {
        GrowthKeeps(order, Members(order[warm..]), PoolRun(order, warm, front).active, step.desired, step.fails);
      }
    }
  }

  lemma ReachFallsShort(order: seq<WorkerId>, k: nat, desired: int, fails: set<WorkerId>)
    requires k <= |order|
    ensures Reach(order, k, desired, fails) < Min(desired, |order|)
      <==> exists i :: k <= i < Min(desired, |order|) && order[i] in fails
  {
    ReachStopsAtFailure(order, k, desired, fails);
  }

  /** A capacity call raises exactly when a worker it needed failed to start; otherwise it returns
      min(desired, workers) and leaves at least that many leading workers active. */
  lemma CapacityCallOutcome(order: seq<WorkerId>, warm: nat, m: Machine, desired: int, fails: set<WorkerId>)
    requires warm <= |order| && Distinct(order) && AtPrefix(order, warm, m) && desired >= 0
    ensures var g := Grow(order, Members(order[warm..]), m.active, desired, fails);
      var c := Min(desired, |order|);
      && (g.failed.Some? <==> exists i :: warm + |m.started| <= i < c && order[i] in fails)
      && (g.failed.None? ==> Min(desired, |g.active|) == c && Prefix(order, c) <= g.active)
  {
    var k, c := warm + |m.started|, Min(desired, |order|);
    var r := Reach(order, k, desired, fails);
    LaidIsLined(order, Members(order[warm..]), warm);
    GrowthIsPrefix(order, Members(order[warm..]), warm, k, desired, fails);
    ReachFallsShort(order, k, desired, fails);
    if c <= r {
      PrefixSize(order, r);
      PrefixGrows(order, c, r);
    }
  }

  lemma {:induction false} PrefixGrows(order: seq<WorkerId>, i: nat, j: nat)
    requires i <= j <= |order|
    ensures Prefix(order, i) <= Prefix(order, j)
  {
    if i < j {
      PrefixGrows(order, i, j - 1);
    }
  }

  /** From the return of a capacity call on, whatever happens next, the workers enabled at the
      returned capacity are exactly the first ones of the order. */
  lemma ReturnedCapacityIsBacked(order: seq<WorkerId>, warm: nat, steps: seq<Step>, n: nat, c: int, w: WorkerId)
    requires warm <= |order| && Distinct(order) && n < |steps|
    requires steps[n].CapacityStep? && steps[n].desired >= 0
    requires var before := PoolRun(order, warm, steps[..n]);
      var g := Grow(order, Members(order[warm..]), before.active, steps[n].desired, steps[n].fails);
      g.failed.None? && c == Min(steps[n].desired, |g.active|)
    ensures Enabled(order, PoolRun(order, warm, steps).active, w, c)
      <==> w in order[..Min(steps[n].desired, |order|)]
  {
    RunAtPrefix(order, warm, steps[..n]);
    CapacityCallOutcome(order, warm, PoolRun(order, warm, steps[..n]), steps[n].desired, steps[n].fails);
    assert steps[..n + 1][..n] == steps[..n];
    PoolGrows(order, warm, steps, n + 1);
    PrefixMembers(order, c, w);
  }

  /** No lost wakeup: a waiter whose worker is active, or whose pool is stopped, has been notified,
      and when it runs it returns, with true exactly when its worker is active. */
  lemma NoLostWakeup(order: seq<WorkerId>, warm: nat, steps: seq<Step>, t: Thread)
    requires warm <= |order|
    requires t in PoolRun(order, warm, steps).waiters
    requires var m := PoolRun(order, warm, steps);
      m.waiters[t].status.Blocked? && (m.waiters[t].worker in m.active || m.stopped)
    ensures var m := PoolRun(order, warm, steps);
      && m.waiters[t].status.notified
      && PoolRun(order, warm, steps + [WakeStep(t)]).waiters[t].status == Returned(m.waiters[t].worker in m.active)
  {
    WaitersSound(order, warm, steps, t);
    assert (steps + [WakeStep(t)])[..|steps|] == steps;
  }

  /** What a step does to a thread's wait: entering or waking it looks, and returns exactly when its worker is active or
      the pool is stopped; a start or a stop notifies every blocked waiter; nothing else touches it. */
  ghost predicate WaitsOn(m: Machine, m': Machine, step: Step, t: Thread) {
    if step.EnterStep? && step.thread == t && t !in m.waiters then
      t in m'.waiters && m'.waiters[t].worker == step.worker && LooksAt(m, m'.waiters[t])
    else if step.WakeStep? && step.thread == t && t in m.waiters && m.waiters[t].status.Blocked? then
      t in m'.waiters && m'.waiters[t].worker == m.waiters[t].worker && LooksAt(m, m'.waiters[t])
    else if t in m.waiters && m.waiters[t].status.Blocked? && (step.StopStep? || m'.started != m.started) then
      t in m'.waiters && m'.waiters[t] == Waiter(m.waiters[t].worker, Blocked(true))
    else (t in m'.waiters <==> t in m.waiters) && (t in m.waiters ==> m'.waiters[t] == m.waiters[t])
  }

  ghost predicate LooksAt(m: Machine, w: Waiter) {
    if w.worker in m.active then w.status == Returned(true)
    else if m.stopped then w.status == Returned(false)
    else w.status == Blocked(false)
  }

  /** In every run this is what every step does to every wait, and the pool is stopped exactly by a stop. */
  lemma WaitersExactly(order: seq<WorkerId>, warm: nat, steps: seq<Step>, step: Step, t: Thread)
    requires warm <= |order|
    ensures var m, m' := PoolRun(order, warm, steps), PoolRun(order, warm, steps + [step]);
      WaitsOn(m, m', step, t) && (m'.stopped <==> m.stopped || step.StopStep?)
    ensures PoolRun(order, warm, []) == Machine(Prefix(order, warm), false, [], map[])
  {
    assert (steps + [step])[..|steps|] == steps;
  }

  /** Python's slice with a negative bound leaves out as many from the end. */
  lemma LeadingExactly(order: seq<WorkerId>, capacity: int, w: WorkerId)
    ensures w in Leading(order, capacity)
      <==> exists i :: 0 <= i < |order| && order[i] == w && i < if capacity >= 0 then capacity else |order| + capacity
  {
    var n := |Leading(order, capacity)|;
    forall i | 0 <= i < n ensures Leading(order, capacity)[i] == order[i] { }
    if i :| 0 <= i < |order| && order[i] == w && i < if capacity >= 0 then capacity else |order| + capacity {
      assert Leading(order, capacity)[i] == w;
    }
  }
}
