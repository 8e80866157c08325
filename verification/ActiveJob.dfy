/**
 The job a worker capsule is running, and the race between activating a job and
 asking the capsule to stop (scripts/e2e_scheduler/active_job.py).

 A process is an opaque value; `asked` records on which processes the
 controller has called `request_stop()`.
 */
module ActiveJob {
  import opened Outcomes

  datatype Overlap = ActiveJobOverlapError

  /** The variables the threads share. */
  datatype Shared<P> = Shared(active: Option<P>, stopping: bool, asked: set<P>)

  function Claimed<P>(s: Shared<P>, p: P): Shared<P> {
    s.(active := Some(p))
  }

  function Checked<P>(s: Shared<P>, p: P): Shared<P> {
    if s.stopping then s.(asked := s.asked + {p}) else s
  }

  function Released<P(==)>(s: Shared<P>, p: P): Shared<P> {
    if s.active == Some(p) then s.(active := None) else s
  }

  function Signalled<P>(s: Shared<P>): Shared<P> {
    s.(stopping := true)
  }

  function Delivered<P>(s: Shared<P>): Shared<P> {
    if s.active.Some? then s.(asked := s.asked + {s.active.value}) else s
  }

  class ActiveJobController<P(==)> {
    var active: Option<P>
    var stopRequested: bool
    var asked: set<P>

    ghost function View(): Shared<P>
      reads this
    {
      Shared(active, stopRequested, asked)
    }

    constructor ()
      ensures View() == Shared(None, false, {})
    {
      active, stopRequested, asked := None, false, {};
    }

    method Activate(owned: P) returns (r: Result<(), Overlap>)
      modifies this
      ensures r.Err? <==> old(active).Some?
      ensures r.Err? ==> View() == old(View())
      ensures r.Ok? ==> View() == Checked(Claimed(old(View()), owned), owned)
    {
      if active.Some? {
        return Err(ActiveJobOverlapError);
      }
      active := Some(owned);
      if stopRequested {
        asked := asked + {owned};
      }
      r := Ok(());
    }

    method Deactivate(owned: P)
      modifies this
      ensures View() == Released(old(View()), owned)
    {
      if active == Some(owned) {
        active := None;
      }
    }

    method RequestStop()
      modifies this
      ensures View() == Delivered(Signalled(old(View())))
    {
      stopRequested := true;
      if active.Some? {
        asked := asked + {active.value};
      }
    }
  }

  // ---------------------------------------------------------------------------
  // Interleavings
  // ---------------------------------------------------------------------------

  type Call = nat

  /** `checking` is the process whose `activate` call holds the lock between its two effects:
      the stop event is not protected by the lock, so it may be set in that window. `between` holds
      the `request_stop` calls that have set the event and not yet taken the lock. */
  datatype Machine<P> = Machine(
    shared: Shared<P>, checking: Option<P>, between: set<Call>, returned: set<Call>)

  datatype Step<P> =
    | ClaimStep(p: P)          // activate: lock taken, overlap checked, `_active` assigned
    | CheckStep                // activate: event read, lock released
    | DeactivateStep(p: P)
    | SignalStep(call: Call)   // request_stop: event set, no lock
    | DeliverStep(call: Call)  // request_stop: under the lock

  function Initial<P>(): Machine<P> {
    Machine(Shared(None, false, {}), None, {}, {})
  }

  /** A step that cannot happen yet (lock held, call not at that point) leaves the machine alone,
      so every sequence of steps is an interleaving. */
  function Exec<P(==)>(m: Machine<P>, step: Step<P>): Machine<P> {
    match step
    case ClaimStep(p) =>
      if m.checking.Some? || m.shared.active.Some? then m
      else m.(shared := Claimed(m.shared, p), checking := Some(p))
    case CheckStep =>
      if m.checking.None? then m
      else m.(shared := Checked(m.shared, m.checking.value), checking := None)
    case DeactivateStep(p) =>
      if m.checking.Some? then m else m.(shared := Released(m.shared, p))
    case SignalStep(c) =>
      if c in m.between + m.returned then m
      else m.(shared := Signalled(m.shared), between := m.between + {c})
    case DeliverStep(c) =>
      if m.checking.Some? || c !in m.between then m
      else m.(shared := Delivered(m.shared), between := m.between - {c}, returned := m.returned + {c})
  }

  function Run<P(==)>(steps: seq<Step<P>>): Machine<P> {
    if steps == [] then Initial()
    else Exec(Run(steps[..|steps| - 1]), steps[|steps| - 1])
  }

  lemma RunNext<P>(steps: seq<Step<P>>, k: nat)
    requires k < |steps|
    ensures Run(steps[..k + 1]) == Exec(Run(steps[..k]), steps[k])
  {
    assert steps[..k + 1][..k] == steps[..k];
  }

  ghost predicate Inv<P(!new)>(m: Machine<P>) {
    && (m.checking.Some? ==> m.shared.active == m.checking)
    && (m.shared.stopping <==> m.between + m.returned != {})
    && (m.returned != {} && m.checking.None? && m.shared.active.Some? ==> m.shared.active.value in m.shared.asked)
  }

  lemma {:induction false} RunInv<P(!new)>(steps: seq<Step<P>>)
    ensures Inv(Run(steps))
  {
    if steps != [] {
      RunInv(steps[..|steps| - 1]);
      var m, step := Run(steps[..|steps| - 1]), steps[|steps| - 1];
      if step.SignalStep? && step.call !in m.between + m.returned {
        assert step.call in Exec(m, step).between;
      } else if step.DeliverStep? && m.checking.None? && step.call in m.between {
        assert step.call in Exec(m, step).returned;
      }
    }
  }

  /** An active process nobody has asked to stop: no stop was requested, or some `request_stop` call
      is still on its way to the lock, or the process is being activated right now. */
  lemma UnaskedActive<P(!new)>(steps: seq<Step<P>>, p: P)
    requires Run(steps).shared.active == Some(p) && p !in Run(steps).shared.asked
    ensures !Run(steps).shared.stopping || Run(steps).between != {} || Run(steps).checking == Some(p)
  {
    RunInv(steps);
  }

  /** What has been returned, asked and signalled stays so. */
  lemma {:induction false} Monotone<P>(steps: seq<Step<P>>, k: nat)
    requires k <= |steps|
    ensures Run(steps[..k]).returned <= Run(steps).returned
    ensures Run(steps[..k]).shared.asked <= Run(steps).shared.asked
    ensures Run(steps[..k]).shared.stopping ==> Run(steps).shared.stopping
    decreases |steps|
  {
    if k == |steps| {
      assert steps[..k] == steps;
    } else {
      var front := steps[..|steps| - 1];
      Monotone(front, k);
      assert front[..k] == steps[..k];
    }
  }

  /** Once one `request_stop` call has returned, every process that is active then or becomes
      active later has been asked to stop by the time no activation is in progress. */
  lemma ReturnedStopReachesEveryProcess<P(!new)>(steps: seq<Step<P>>, k: nat, call: Call, p: P)
    requires k <= |steps| && call in Run(steps[..k]).returned
    requires Run(steps).shared.active == Some(p)
    ensures Run(steps).checking.None? ==> p in Run(steps).shared.asked
    ensures p in Run(steps + [CheckStep]).shared.asked
  {
    Monotone(steps, k);
    RunInv(steps);
    RunInv(steps + [CheckStep]);
    assert (steps + [CheckStep])[..|steps|] == steps;
  }

  // ---------------------------------------------------------------------------
  // Exclusive ownership
  // ---------------------------------------------------------------------------

  ghost predicate Activates<P>(steps: seq<Step<P>>, i: nat, p: P)
    requires i < |steps|
  {
    steps[i] == ClaimStep(p) && Run(steps[..i]).checking.None? && Run(steps[..i]).shared.active.None?
  }

  ghost predicate Deactivates<P>(steps: seq<Step<P>>, i: nat, p: P)
    requires i < |steps|
  {
    steps[i] == DeactivateStep(p) && Run(steps[..i]).checking.None? && Run(steps[..i]).shared.active == Some(p)
  }

  /** After `p` is activated it stays the active process until its own deactivation. */
  lemma {:induction false} OwnedUntilDeactivated<P(!new)>(steps: seq<Step<P>>, i: nat, j: nat, p: P)
    requires i < j <= |steps| && Activates(steps, i, p)
    ensures Run(steps[..j]).shared.active == Some(p) || exists k :: i < k < j && Deactivates(steps, k, p)
    decreases j
  {
    RunNext(steps, j - 1);
    if i + 1 < j {
      OwnedUntilDeactivated(steps, i, j - 1, p);
      RunInv(steps[..j - 1]);
      if Run(steps[..j - 1]).shared.active == Some(p) && Run(steps[..j]).shared.active != Some(p) {
        assert Deactivates(steps, j - 1, p);
      }
    }
  }

  /** At most one job at a time: between two activations the first process was deactivated. */
  lemma NoOverlap<P(!new)>(steps: seq<Step<P>>, i: nat, j: nat, p: P, q: P)
    requires i < j < |steps| && Activates(steps, i, p) && Activates(steps, j, q)
    ensures exists k :: i < k < j && Deactivates(steps, k, p)
  {
    OwnedUntilDeactivated(steps, i, j, p);
  }

  // ---------------------------------------------------------------------------
  // The machine, read off the steps
  // ---------------------------------------------------------------------------

  /** A `deactivate` call for `p` gets the lock. */
  ghost predicate Releases<P>(steps: seq<Step<P>>, k: nat, p: P)
    requires k < |steps|
  {
    steps[k] == DeactivateStep(p) && Run(steps[..k]).checking.None?
  }

  /** `p` was activated at `i` and not deactivated before `n`. */
  ghost predicate Holds<P>(steps: seq<Step<P>>, i: nat, n: nat, p: P)
    requires i < n <= |steps|
  {
    Activates(steps, i, p) && forall k :: i < k < n ==> !Releases(steps, k, p)
  }

  ghost predicate Outstanding<P>(steps: seq<Step<P>>, n: nat, p: P)
    requires n <= |steps|
  {
    exists i :: 0 <= i < n && Holds(steps, i, n, p)
  }

  lemma OutstandingNext<P(!new)>(steps: seq<Step<P>>, n: nat, p: P)
    requires n < |steps|
    ensures Outstanding(steps, n + 1, p)
      <==> Activates(steps, n, p) || (Outstanding(steps, n, p) && !Releases(steps, n, p))
  {
    if Outstanding(steps, n + 1, p) && !Activates(steps, n, p) {
      var i :| 0 <= i < n + 1 && Holds(steps, i, n + 1, p);
      assert Holds(steps, i, n, p);
    }
    if Activates(steps, n, p) {
      assert Holds(steps, n, n + 1, p);
    } else if Outstanding(steps, n, p) && !Releases(steps, n, p) {
      var i :| 0 <= i < n && Holds(steps, i, n, p);
      assert Holds(steps, i, n + 1, p);
    }
  }

  /** A process is active exactly when it was activated and has not been deactivated since. */
  lemma {:induction false} ActiveExactly<P(!new)>(steps: seq<Step<P>>, n: nat, p: P)
    requires n <= |steps|
    ensures Run(steps[..n]).shared.active == Some(p) <==> Outstanding(steps, n, p)
  {
    if n > 0 {
      ActiveExactly(steps, n - 1, p);
      RunNext(steps, n - 1);
      RunInv(steps[..n - 1]);
      OutstandingNext(steps, n - 1, p);
    }
  }

  /** With the lock free, an activation is refused exactly when some process that was activated earlier has not been
      deactivated since; otherwise its process becomes the active one. */
  lemma RefusedExactly<P(!new)>(steps: seq<Step<P>>, n: nat, q: P)
    requires n < |steps| && steps[n] == ClaimStep(q) && Run(steps[..n]).checking.None?
    ensures Run(steps[..n + 1]) == Run(steps[..n]) <==> exists p :: Outstanding(steps, n, p)
    ensures Run(steps[..n + 1]) != Run(steps[..n]) ==> Run(steps[..n + 1]).shared.active == Some(q)
  {
    RunNext(steps, n);
    var active := Run(steps[..n]).shared.active;
    if active.Some? {
      ActiveExactly(steps, n, active.value);
    }
    forall p | Outstanding(steps, n, p) ensures active == Some(p) {
      ActiveExactly(steps, n, p);
    }
  }

  /** A `deactivate` call releases its own process and no other. */
  lemma DeactivateReleases<P(!new)>(steps: seq<Step<P>>, p: P)
    requires Run(steps).checking.None?
    ensures var before, after := Run(steps).shared, Run(steps + [DeactivateStep(p)]).shared;
      && after.active == (if before.active == Some(p) then None else before.active)
      && after.asked == before.asked && after.stopping == before.stopping
  {
    assert (steps + [DeactivateStep(p)])[..|steps|] == steps;
  }

  /** The activation of `p` at `i` has not come to its check before `n`. */
  ghost predicate Unchecked<P>(steps: seq<Step<P>>, i: nat, n: nat, p: P)
    requires i < n <= |steps|
  {
    Activates(steps, i, p) && forall k :: i < k < n ==> !steps[k].CheckStep?
  }

  /** The lock is held exactly from an activation to the next check. */
  lemma {:induction false} CheckingExactly<P(!new)>(steps: seq<Step<P>>, n: nat, p: P)
    requires n <= |steps|
    ensures Run(steps[..n]).checking == Some(p) <==> exists i :: 0 <= i < n && Unchecked(steps, i, n, p)
  {
    if n > 0 {
      CheckingExactly(steps, n - 1, p);
      RunNext(steps, n - 1);
      if Activates(steps, n - 1, p) {
        assert Unchecked(steps, n - 1, n, p);
      } else if Run(steps[..n - 1]).checking == Some(p) && !steps[n - 1].CheckStep? {
        var i :| 0 <= i < n - 1 && Unchecked(steps, i, n - 1, p);
        assert Unchecked(steps, i, n, p);
      }
      forall i | 0 <= i < n - 1 && Unchecked(steps, i, n, p) ensures Unchecked(steps, i, n - 1, p) { }
    }
  }

  /** A `request_stop` call has set the event exactly when its first step happened, and has returned exactly when its
      second step happened after that with the lock free. */
  lemma {:induction false} CallsExactly<P(!new)>(steps: seq<Step<P>>, n: nat, c: Call)
    requires n <= |steps|
    ensures c in Run(steps[..n]).between + Run(steps[..n]).returned
      <==> exists i :: 0 <= i < n && steps[i] == SignalStep(c)
    ensures c in Run(steps[..n]).returned
      <==> exists i, j :: 0 <= i < j < n && steps[i] == SignalStep(c) && steps[j] == DeliverStep(c)
                          && Run(steps[..j]).checking.None?
    ensures !(c in Run(steps[..n]).between && c in Run(steps[..n]).returned)
  {
    if n > 0 {
      CallsExactly(steps, n - 1, c);
      RunNext(steps, n - 1);
    }
  }

  /** The controller calls `request_stop()` on `p` in step k: at the end of its activation, when the event is set, or
      for a `request_stop` call that finds it active. */
  ghost predicate Asks<P>(steps: seq<Step<P>>, k: nat, p: P)
    requires k < |steps|
  {
    var m := Run(steps[..k]);
    || (steps[k].CheckStep? && m.checking == Some(p) && exists i, c :: 0 <= i < k && steps[i] == SignalStep(c))
    || (steps[k].DeliverStep? && m.checking.None? && steps[k].call in m.between && m.shared.active == Some(p))
  }

  lemma SignalledExactly<P(!new)>(steps: seq<Step<P>>, n: nat)
    requires n <= |steps|
    ensures Run(steps[..n]).shared.stopping <==> exists i, c :: 0 <= i < n && steps[i] == SignalStep(c)
  {
    RunInv(steps[..n]);
    var calls := Run(steps[..n]).between + Run(steps[..n]).returned;
    if calls != {} {
      var c :| c in calls;
      CallsExactly(steps, n, c);
    }
    forall i, c | 0 <= i < n && steps[i] == SignalStep(c) ensures c in calls {
      CallsExactly(steps, n, c);
    }
  }

  lemma AskedNext<P(!new)>(steps: seq<Step<P>>, n: nat, p: P)
    requires n < |steps|
    ensures p in Run(steps[..n + 1]).shared.asked <==> p in Run(steps[..n]).shared.asked || Asks(steps, n, p)
  {
    RunNext(steps, n);
    SignalledExactly(steps, n);
  }

  /** A process has been asked to stop exactly by these steps: never without a stop request. */
  lemma {:induction false} AskedExactly<P(!new)>(steps: seq<Step<P>>, n: nat, p: P)
    requires n <= |steps|
    ensures p in Run(steps[..n]).shared.asked <==> exists k :: 0 <= k < n && Asks(steps, k, p)
  {
    if n > 0 {
      AskedExactly(steps, n - 1, p);
      AskedNext(steps, n - 1, p);
    }
  }
}
