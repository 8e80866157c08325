/**
 The adaptive capacity controller (scripts/e2e_scheduler/adaptive.py) with the policy it consults
 (scripts/e2e_scheduler/resources.py).

 The clock and the resource sampler are parameters of each call. Times and percentages are reals;
 crash and failure counts are natural numbers.
 */
module AdaptiveCapacity {
  import opened Outcomes

  datatype Sample = Sample(cpu: real, memory: real, p95: real, crashes: nat, failures: nat)

  datatype Policy = Policy(minimum: int, maximum: int, cooldown: real)

  datatype Config = Config(policy: Policy, interval: real, started: real)

  datatype Reason = Initial | SamplerError | Stable | Overloaded | HealthyLoad

  datatype Decision = Decision(elapsed: real, previous: int, capacity: int, reason: Reason, sample: Option<Sample>)

  function RMax(a: real, b: real): real { if a >= b then a else b }

  predicate ValidPolicy(p: Policy) {
    4 <= p.minimum <= p.maximum <= 10 && p.cooldown >= 0.0
  }

  predicate SustainedPressure(s: Sample) {
    s.cpu >= 92.0 && s.memory < 20.0 && s.p95 > 500.0
  }

  predicate Healthy(s: Sample) {
    s.cpu <= 75.0 && s.memory >= 25.0 && s.p95 <= 350.0 && s.crashes == 0 && s.failures == 0
  }

  predicate Crashed(s: Sample) {
    s.crashes > 0 || s.failures > 0
  }

  function NextCapacity(p: Policy, current: int, s: Sample, elapsed: real,
                        pressure: nat, healthy: nat, expansion: bool): int
  {
    if s.memory < 15.0 || s.p95 > 750.0 || s.crashes > 0 || s.failures > 0
       || (SustainedPressure(s) && pressure >= 2) then
      if current - 1 >= p.minimum then current - 1 else p.minimum
    else if expansion && s.cpu <= 75.0 && s.memory >= 25.0 && s.p95 <= 350.0
            && healthy >= 3 && elapsed >= p.cooldown then
      if current + 1 <= p.maximum then current + 1 else p.maximum
    else current
  }

  // ---------------------------------------------------------------------------
  // The controller
  // ---------------------------------------------------------------------------

  datatype Control = Control(
    capacity: int, lastSampled: real, lastChange: real, decisions: seq<Decision>,
    crashes: nat, failures: nat, pressure: nat, healthy: nat, blocked: bool)

  /** What the sampler does when it is asked: `OtherError` is any exception but `OSError`. */
  datatype Sampling = Sampled(sample: Sample) | OsError | OtherError

  function Fresh(cfg: Config, initial: int): Control {
    Control(initial, cfg.started - cfg.interval, cfg.started, [Decision(0.0, initial, initial, Initial, None)],
            0, 0, 0, 0, false)
  }

  predicate Due(cfg: Config, c: Control, now: real) {
    now - c.lastSampled >= cfg.interval
  }

  function Merged(c: Control, s: Sample): Sample {
    s.(crashes := s.crashes + c.crashes, failures := s.failures + c.failures)
  }

  function ReasonFor(previous: int, capacity: int): Reason {
    if capacity < previous then Overloaded else if capacity > previous then HealthyLoad else Stable
  }

  function AfterError(cfg: Config, c: Control, now: real): Control {
    c.(pressure := 0, healthy := 0, lastSampled := now,
       decisions := c.decisions + [Decision(RMax(0.0, now - cfg.started), c.capacity, c.capacity, SamplerError, None)])
  }

  function AfterSample(cfg: Config, c: Control, now: real, s: Sample): Control {
    var sample := Merged(c, s);
    var blocked := c.blocked || Crashed(sample);
    var pressure := if SustainedPressure(sample) then c.pressure + 1 else 0;
    var healthy := if Healthy(sample) then c.healthy + 1 else 0;
    var next := NextCapacity(cfg.policy, c.capacity, sample, RMax(0.0, now - c.lastChange), pressure, healthy,
                             !blocked);
    var changed := next != c.capacity;
    Control(next, now, if changed then now else c.lastChange,
            c.decisions + [Decision(RMax(0.0, now - cfg.started), c.capacity, next, ReasonFor(c.capacity, next),
                                    Some(sample))],
            0, 0, if changed then 0 else pressure, if changed then 0 else healthy, blocked)
  }

  function Asked(cfg: Config, c: Control, now: real, sampling: Sampling): Control {
    if !Due(cfg, c, now) then c
    else match sampling
      case Sampled(s) => AfterSample(cfg, c, now, s)
      case OsError => AfterError(cfg, c, now)
      case OtherError => c
  }

  function CrashRecorded(c: Control): Control {
    c.(crashes := c.crashes + 1, blocked := true)
  }

  function FailureRecorded(c: Control): Control {
    c.(failures := c.failures + 1, blocked := true)
  }

  datatype ControllerError = AdaptivePolicyConfigError | CapacityOutOfBoundsError | SamplerRaised

  function EffectivePolicy(requested: Policy, startedCapsules: int): Policy {
    requested.(maximum := if requested.maximum <= startedCapsules then requested.maximum else startedCapsules)
  }

  method CreateController(initial: int, startedCapsules: int, requested: Policy, interval: real, now: real)
    returns (r: Result<AdaptiveCapacityController, ControllerError>)
    ensures var maximum := if requested.maximum <= startedCapsules then requested.maximum else startedCapsules;
      var p := Policy(requested.minimum, maximum, requested.cooldown);
      var valid := 4 <= requested.minimum <= maximum <= 10 && requested.cooldown >= 0.0;
      && (r == Err(AdaptivePolicyConfigError) <==> !valid)
      && (r == Err(CapacityOutOfBoundsError) <==> valid && !(requested.minimum <= initial <= maximum))
      && (r.Ok? <==> valid && requested.minimum <= initial <= maximum)
      && (r.Ok? ==> fresh(r.value) && r.value.cfg == Config(p, if interval >= 0.0 then interval else 0.0, now)
                    && r.value.View() == Fresh(r.value.cfg, initial))
  {
    var p := EffectivePolicy(requested, startedCapsules);
    if !ValidPolicy(p) {
      return Err(AdaptivePolicyConfigError);
    }
    if !(p.minimum <= initial <= p.maximum) {
      return Err(CapacityOutOfBoundsError);
    }
    var c := new AdaptiveCapacityController(Config(p, RMax(0.0, interval), now), initial);
    r := Ok(c);
  }

  class AdaptiveCapacityController {
    const cfg: Config
    var capacity: int
    var lastSampled: real
    var lastCapacityChange: real
    var decisions: seq<Decision>
    var recentCrashes: nat
    var recentFailures: nat
    var pressureStreak: nat
    var healthyStreak: nat
    var expansionBlocked: bool

    ghost function View(): Control
      reads this
    {
      Control(capacity, lastSampled, lastCapacityChange, decisions, recentCrashes, recentFailures,
              pressureStreak, healthyStreak, expansionBlocked)
    }

    constructor (cfg: Config, initial: int)
      ensures this.cfg == cfg && View() == Fresh(cfg, initial)
    {
      this.cfg := cfg;
      capacity := initial;
      lastSampled := cfg.started - cfg.interval;
      lastCapacityChange := cfg.started;
      decisions := [Decision(0.0, initial, initial, Initial, None)];
      recentCrashes, recentFailures, pressureStreak, healthyStreak := 0, 0, 0, 0;
      expansionBlocked := false;
    }

    method AssignmentCapacity(now: real, sampling: Sampling) returns (r: Result<int, ControllerError>)
      modifies this
      ensures View() == Asked(cfg, old(View()), now, sampling)
      ensures r == if Due(cfg, old(View()), now) && sampling.OtherError? then Err(SamplerRaised) else Ok(capacity)
    {
      if now - lastSampled < cfg.interval {
        return Ok(capacity);
      }
      var previous := capacity;
      match sampling {
        case OtherError => return Err(SamplerRaised);
        case OsError =>
          pressureStreak, healthyStreak := 0, 0;
          Record(now, previous, SamplerError, None);
        case Sampled(sampled) =>
          var sample := sampled.(crashes := sampled.crashes + recentCrashes,
                                 failures := sampled.failures + recentFailures);
          if sample.crashes != 0 || sample.failures != 0 {
            expansionBlocked := true;
          }
          pressureStreak := if SustainedPressure(sample) then pressureStreak + 1 else 0;
          healthyStreak := if Healthy(sample) then healthyStreak + 1 else 0;
          capacity := NextCapacity(cfg.policy, previous, sample, RMax(0.0, now - lastCapacityChange),
                                   pressureStreak, healthyStreak, !expansionBlocked);
          if capacity != previous {
            lastCapacityChange := now;
            pressureStreak, healthyStreak := 0, 0;
          }
          Record(now, previous, ReasonFor(previous, capacity), Some(sample));
          recentCrashes, recentFailures := 0, 0;
      }
      r := Ok(capacity);
    }

    method Record(now: real, previous: int, reason: Reason, sample: Option<Sample>)
      modifies this`lastSampled, this`decisions
      ensures lastSampled == now
      ensures decisions == old(decisions) + [Decision(RMax(0.0, now - cfg.started), previous, capacity, reason, sample)]
    {
      lastSampled := now;
      decisions := decisions + [Decision(RMax(0.0, now - cfg.started), previous, capacity, reason, sample)];
    }

    method RecordWorkerCrash()
      modifies this
      ensures View() == CrashRecorded(old(View()))
    {
      recentCrashes := recentCrashes + 1;
      expansionBlocked := true;
    }

    method RecordUnexpectedFailure()
      modifies this
      ensures View() == FailureRecorded(old(View()))
    {
      recentFailures := recentFailures + 1;
      expansionBlocked := true;
    }
  }

  // ---------------------------------------------------------------------------
  // The decision log as the whole history
  // ---------------------------------------------------------------------------

  datatype Kind = PressureKind | HealthyKind

  predicate IsKind(k: Kind, s: Sample) {
    match k case PressureKind => SustainedPressure(s) case HealthyKind => Healthy(s)
  }

  /** The number of trailing entries with a sample of this kind and an unchanged capacity. */
  function Streak(log: seq<Decision>, k: Kind): nat {
    if log == [] then 0
    else
      var e := log[|log| - 1];
      if e.sample.Some? && IsKind(k, e.sample.value) && e.capacity == e.previous then 1 + Streak(log[..|log| - 1], k)
      else 0
  }

  /** When the capacity last changed, counted from the start; zero if it never did. */
  function ChangedAt(log: seq<Decision>): real {
    if log == [] then 0.0
    else if log[|log| - 1].capacity != log[|log| - 1].previous then log[|log| - 1].elapsed
    else ChangedAt(log[..|log| - 1])
  }

  predicate CrashLogged(log: seq<Decision>) {
    exists i :: 0 <= i < |log| && log[i].sample.Some? && Crashed(log[i].sample.value)
  }

  /** The capacity the policy prescribes for `e`, computed from nothing but the log before it. */
  function Prescribed(cfg: Config, before: seq<Decision>, e: Decision): int
    requires e.sample.Some?
  {
    var s := e.sample.value;
    NextCapacity(cfg.policy, e.previous, s, RMax(0.0, e.elapsed - ChangedAt(before)),
                 if SustainedPressure(s) then Streak(before, PressureKind) + 1 else 0,
                 if Healthy(s) then Streak(before, HealthyKind) + 1 else 0,
                 !CrashLogged(before) && !Crashed(s))
  }

  predicate EntryExplained(cfg: Config, before: seq<Decision>, e: Decision) {
    && before != []
    && e.previous == before[|before| - 1].capacity
    && e.elapsed >= before[|before| - 1].elapsed + (if |before| == 1 then 0.0 else cfg.interval)
    && (match e.sample
        case None => e.capacity == e.previous && e.reason == SamplerError
        case Some(_) => e.capacity == Prescribed(cfg, before, e) && e.reason == ReasonFor(e.previous, e.capacity))
  }

  /** Every entry follows from the entries before it. */
  predicate Explained(cfg: Config, initial: int, log: seq<Decision>) {
    if |log| <= 1 then log == [Decision(0.0, initial, initial, Initial, None)]
    else Explained(cfg, initial, log[..|log| - 1]) && EntryExplained(cfg, log[..|log| - 1], log[|log| - 1])
  }

  /** The fields of the controller, read off its log. */
  ghost predicate Summarises(cfg: Config, c: Control) {
    var log := c.decisions;
    && log != []
    && c.capacity == log[|log| - 1].capacity
    && c.pressure == Streak(log, PressureKind) && c.healthy == Streak(log, HealthyKind)
    && c.lastSampled == (if |log| == 1 then cfg.started - cfg.interval else cfg.started + log[|log| - 1].elapsed)
    && c.lastChange == cfg.started + ChangedAt(log)
    && (c.blocked <==> c.crashes > 0 || c.failures > 0 || CrashLogged(log))
  }

  ghost predicate Inv(cfg: Config, initial: int, c: Control) {
    Summarises(cfg, c) && Explained(cfg, initial, c.decisions)
  }

  lemma CrashLoggedAppend(log: seq<Decision>, e: Decision)
    ensures CrashLogged(log + [e]) <==> CrashLogged(log) || (e.sample.Some? && Crashed(e.sample.value))
  {
    var all := log + [e];
    if CrashLogged(log) {
      var i :| 0 <= i < |log| && log[i].sample.Some? && Crashed(log[i].sample.value);
      assert all[i] == log[i];
    } else if e.sample.Some? && Crashed(e.sample.value) {
      assert all[|log|] == e;
    }
  }

  /** The log functions on a log with one more entry. */
  lemma Appended(log: seq<Decision>, e: Decision, k: Kind)
    ensures Streak(log + [e], k)
      == if e.sample.Some? && IsKind(k, e.sample.value) && e.capacity == e.previous then 1 + Streak(log, k) else 0
    ensures ChangedAt(log + [e]) == if e.capacity != e.previous then e.elapsed else ChangedAt(log)
  {
    assert (log + [e])[..|log|] == log;
  }

  lemma ExplainedAppend(cfg: Config, initial: int, log: seq<Decision>, e: Decision)
    requires Explained(cfg, initial, log) && EntryExplained(cfg, log, e)
    ensures Explained(cfg, initial, log + [e])
  {
    assert (log + [e])[..|log|] == log;
  }

  lemma ErrorKeepsInv(cfg: Config, initial: int, c: Control, now: real)
    requires cfg.interval >= 0.0 && now >= cfg.started && Inv(cfg, initial, c) && Due(cfg, c, now)
    ensures Inv(cfg, initial, AfterError(cfg, c, now))
  {
    var e := Decision(RMax(0.0, now - cfg.started), c.capacity, c.capacity, SamplerError, None);
    Appended(c.decisions, e, PressureKind);
    Appended(c.decisions, e, HealthyKind);
    CrashLoggedAppend(c.decisions, e);
    StartsAtZero(cfg, initial, c.decisions);
    ExplainedAppend(cfg, initial, c.decisions, e);
  }

  lemma {:induction false} StartsAtZero(cfg: Config, initial: int, log: seq<Decision>)
    requires cfg.interval >= 0.0 && Explained(cfg, initial, log)
    ensures log != [] && (|log| == 1 ==> log[0].elapsed == 0.0) && 0.0 <= ChangedAt(log) <= log[|log| - 1].elapsed
  {
    if |log| > 1 {
      StartsAtZero(cfg, initial, log[..|log| - 1]);
    }
  }

  lemma SampleKeepsInv(cfg: Config, initial: int, c: Control, now: real, s: Sample)
    requires cfg.interval >= 0.0 && now >= cfg.started && Inv(cfg, initial, c) && Due(cfg, c, now)
    ensures Inv(cfg, initial, AfterSample(cfg, c, now, s))
  {
    var c' := AfterSample(cfg, c, now, s);
    var e := c'.decisions[|c.decisions|];
    Appended(c.decisions, e, PressureKind);
    Appended(c.decisions, e, HealthyKind);
    CrashLoggedAppend(c.decisions, e);
    StartsAtZero(cfg, initial, c.decisions);
    assert e.capacity == Prescribed(cfg, c.decisions, e);
    ExplainedAppend(cfg, initial, c.decisions, e);
  }

  // ---------------------------------------------------------------------------
  // Runs
  // ---------------------------------------------------------------------------

  datatype Step = AskStep(now: real, sampling: Sampling) | CrashStep | FailureStep

  function Exec(cfg: Config, c: Control, step: Step): Control {
    match step
    case AskStep(now, sampling) => Asked(cfg, c, now, sampling)
    case CrashStep => CrashRecorded(c)
    case FailureStep => FailureRecorded(c)
  }

  function Run(cfg: Config, initial: int, steps: seq<Step>): Control {
    if steps == [] then Fresh(cfg, initial)
    else Exec(cfg, Run(cfg, initial, steps[..|steps| - 1]), steps[|steps| - 1])
  }

  /** The clock never shows a time before the start. */
  ghost predicate Clocked(cfg: Config, steps: seq<Step>) {
    cfg.interval >= 0.0 && forall i :: 0 <= i < |steps| && steps[i].AskStep? ==> steps[i].now >= cfg.started
  }

  lemma FreshInv(cfg: Config, initial: int)
    ensures Inv(cfg, initial, Fresh(cfg, initial))
  {
    var log := Fresh(cfg, initial).decisions;
    assert log == [] + [log[0]];
    Appended([], log[0], PressureKind);
    Appended([], log[0], HealthyKind);
  }

  lemma ExecKeepsInv(cfg: Config, initial: int, c: Control, step: Step)
    requires cfg.interval >= 0.0 && (step.AskStep? ==> step.now >= cfg.started) && Inv(cfg, initial, c)
    ensures Inv(cfg, initial, Exec(cfg, c, step))
  {
    if step.AskStep? && Due(cfg, c, step.now) {
      match step.sampling {
        case Sampled(s) => SampleKeepsInv(cfg, initial, c, step.now, s);
        case OsError => ErrorKeepsInv(cfg, initial, c, step.now);
        case OtherError =>
      }
    }
  }

  /** After any run the log explains itself, and the rest of the controller is a function of it. */
  lemma {:induction false} RunInv(cfg: Config, initial: int, steps: seq<Step>)
    requires Clocked(cfg, steps)
    ensures Inv(cfg, initial, Run(cfg, initial, steps))
  {
    if steps == [] {
      FreshInv(cfg, initial);
    } else {
      RunInv(cfg, initial, steps[..|steps| - 1]);
      ExecKeepsInv(cfg, initial, Run(cfg, initial, steps[..|steps| - 1]), steps[|steps| - 1]);
    }
  }

  // ---------------------------------------------------------------------------
  // What an explained log says
  // ---------------------------------------------------------------------------

  lemma {:induction false} ExplainedAt(cfg: Config, initial: int, log: seq<Decision>, i: nat)
    requires Explained(cfg, initial, log) && 0 < i < |log|
    ensures EntryExplained(cfg, log[..i], log[i]) && Explained(cfg, initial, log[..i])
    decreases |log|
  {
    var front := log[..|log| - 1];
    if i < |log| - 1 {
      ExplainedAt(cfg, initial, front, i);
      assert front[..i] == log[..i];
    }
  }

  lemma {:induction false} CapacityInBounds(cfg: Config, initial: int, log: seq<Decision>)
    requires Explained(cfg, initial, log)
    requires cfg.policy.minimum <= initial <= cfg.policy.maximum
    ensures forall i :: 0 <= i < |log| ==> cfg.policy.minimum <= log[i].capacity <= cfg.policy.maximum
  {
    if |log| > 1 {
      CapacityInBounds(cfg, initial, log[..|log| - 1]);
    }
  }

  /** The two streaks cannot both be running. */
  lemma OneStreak(log: seq<Decision>)
    ensures Streak(log, PressureKind) == 0 || Streak(log, HealthyKind) == 0
  {
  }

  /** In every run: capacities chain, stay in bounds and move by at most one; samples are at least
      one interval apart; at most one streak is running. */
  lemma LogShape(cfg: Config, initial: int, steps: seq<Step>, i: nat)
    requires Clocked(cfg, steps) && cfg.policy.minimum <= initial <= cfg.policy.maximum
    requires var log := Run(cfg, initial, steps).decisions; 0 < i < |log|
    ensures var c := Run(cfg, initial, steps);
      var log := c.decisions;
      && log[i].previous == log[i - 1].capacity
      && cfg.policy.minimum <= log[i].capacity <= cfg.policy.maximum
      && -1 <= log[i].capacity - log[i].previous <= 1
      && (i > 1 ==> log[i].elapsed - log[i - 1].elapsed >= cfg.interval)
      && (c.pressure == 0 || c.healthy == 0)
  {
    var log := Run(cfg, initial, steps).decisions;
    RunInv(cfg, initial, steps);
    ExplainedAt(cfg, initial, log, i);
    CapacityInBounds(cfg, initial, log);
    OneStreak(log);
  }

  /** What the policy demands of an entry that raises the capacity. */
  lemma GrowthDemands(cfg: Config, before: seq<Decision>, e: Decision)
    requires EntryExplained(cfg, before, e) && e.capacity > e.previous >= cfg.policy.minimum
    requires 0.0 <= ChangedAt(before) <= e.elapsed
    ensures e.sample.Some? && Healthy(e.sample.value) && Streak(before, HealthyKind) >= 2
    ensures e.elapsed - ChangedAt(before) >= cfg.policy.cooldown
    ensures !CrashLogged(before)
  {
  }

  lemma GrowthDemandsAt(cfg: Config, initial: int, log: seq<Decision>, i: nat)
    requires cfg.interval >= 0.0 && Explained(cfg, initial, log) && cfg.policy.minimum <= initial <= cfg.policy.maximum
    requires 0 < i < |log| && log[i].capacity > log[i].previous
    ensures log[i].sample.Some? && Healthy(log[i].sample.value) && Streak(log[..i], HealthyKind) >= 2
    ensures log[i].elapsed - ChangedAt(log[..i]) >= cfg.policy.cooldown
    ensures !CrashLogged(log[..i])
  {
    ExplainedAt(cfg, initial, log, i);
    CapacityInBounds(cfg, initial, log[..i]);
    StartsAtZero(cfg, initial, log[..i]);
    GrowthDemands(cfg, log[..i], log[i]);
  }

  /** The capacity grows only after three healthy samples in a row at an unchanged capacity, a full
      cooldown after the last change, and with no crash or failure ever logged. */
  lemma ExpansionIsEarned(cfg: Config, initial: int, steps: seq<Step>, i: nat)
    requires Clocked(cfg, steps)
    requires cfg.policy.minimum <= initial <= cfg.policy.maximum
    requires var log := Run(cfg, initial, steps).decisions; 0 < i < |log| && log[i].capacity > log[i].previous
    ensures var log := Run(cfg, initial, steps).decisions;
      && i >= 3
      && (forall j :: i - 2 <= j <= i ==> log[j].sample.Some? && Healthy(log[j].sample.value))
      && (forall j :: i - 2 <= j < i ==> log[j].capacity == log[j].previous)
      && log[i].elapsed - ChangedAt(log[..i]) >= cfg.policy.cooldown
      && !CrashLogged(log[..i + 1])
  {
    var log := Run(cfg, initial, steps).decisions;
    RunInv(cfg, initial, steps);
    GrowthDemandsAt(cfg, initial, log, i);
    CrashLoggedAppend(log[..i], log[i]);
    assert log[..i] + [log[i]] == log[..i + 1];
    HealthyStretch(cfg, initial, log, i);
  }

  lemma HealthyStretch(cfg: Config, initial: int, log: seq<Decision>, i: nat)
    requires Explained(cfg, initial, log) && i <= |log| && Streak(log[..i], HealthyKind) >= 2
    ensures i >= 3
    ensures forall j :: i - 2 <= j < i ==>
      log[j].sample.Some? && Healthy(log[j].sample.value) && log[j].capacity == log[j].previous
  {
    var before := log[..i];
    StreakReaches(before, HealthyKind);
    forall j | 0 <= j && i - 2 <= j < i
      ensures log[j].sample.Some? && Healthy(log[j].sample.value) && log[j].capacity == log[j].previous
    {
      assert before[j] == log[j];
    }
    FirstEntryHasNoSample(cfg, initial, log);
    assert before[0] == log[0];
  }

  lemma {:induction false} FirstEntryHasNoSample(cfg: Config, initial: int, log: seq<Decision>)
    requires Explained(cfg, initial, log)
    ensures log != [] && log[0].sample.None?
  {
    if |log| > 1 {
      FirstEntryHasNoSample(cfg, initial, log[..|log| - 1]);
    }
  }

  lemma {:induction false} StreakReaches(log: seq<Decision>, k: Kind)
    ensures Streak(log, k) <= |log|
    ensures forall j :: |log| - Streak(log, k) <= j < |log| ==>
      log[j].sample.Some? && IsKind(k, log[j].sample.value) && log[j].capacity == log[j].previous
  {
    if log != [] {
      StreakReaches(log[..|log| - 1], k);
    }
  }

  // ---------------------------------------------------------------------------
  // The policy, read off the log
  // ---------------------------------------------------------------------------

  /** The entry sampled sustained pressure and left the capacity as it was. */
  ghost predicate PressedAt(e: Decision) {
    e.capacity == e.previous && e.sample.Some? &&
    var s := e.sample.value;
    s.cpu >= 92.0 && s.memory < 20.0 && s.p95 > 500.0
  }

  /** The entry sampled a healthy load without a crash or failure and left the capacity as it was. */
  ghost predicate HealthyAt(e: Decision) {
    e.capacity == e.previous && e.sample.Some? &&
    var s := e.sample.value;
    s.cpu <= 75.0 && s.memory >= 25.0 && s.p95 <= 350.0 && s.crashes == 0 && s.failures == 0
  }

  ghost predicate Calm(e: Decision) {
    e.sample.Some? ==> e.sample.value.crashes == 0 && e.sample.value.failures == 0
  }

  ghost predicate MustShrink(log: seq<Decision>, i: nat)
    requires 0 < i < |log| && log[i].sample.Some?
  {
    var s := log[i].sample.value;
    || s.memory < 15.0 || s.p95 > 750.0 || s.crashes > 0 || s.failures > 0
    || (s.cpu >= 92.0 && s.memory < 20.0 && s.p95 > 500.0 && PressedAt(log[i - 1]))
  }

  /** Three healthy samples in a row, no crash or failure so far, and a full cooldown since the start and since every
      change of the capacity. */
  ghost predicate MayGrow(cooldown: real, log: seq<Decision>, i: nat)
    requires 0 < i < |log| && log[i].sample.Some?
  {
    var s := log[i].sample.value;
    && s.cpu <= 75.0 && s.memory >= 25.0 && s.p95 <= 350.0
    && i >= 3 && HealthyAt(log[i - 1]) && HealthyAt(log[i - 2])
    && (forall j :: 0 <= j <= i ==> Calm(log[j]))
    && (forall j :: 0 <= j < i && (j == 0 || log[j].capacity != log[j].previous)
          ==> log[i].elapsed - log[j].elapsed >= cooldown)
  }

  lemma StreakIsPressed(log: seq<Decision>)
    ensures Streak(log, PressureKind) >= 1 <==> log != [] && PressedAt(log[|log| - 1])
  {
  }

  lemma StreakIsHealthy(log: seq<Decision>)
    ensures Streak(log, HealthyKind) >= 2
      <==> |log| >= 2 && HealthyAt(log[|log| - 1]) && HealthyAt(log[|log| - 2])
  {
    if log != [] && HealthyAt(log[|log| - 1]) {
      var front := log[..|log| - 1];
      assert Streak(log, HealthyKind) == 1 + Streak(front, HealthyKind);
    }
  }

  /** The time since the last change is the least time since the start and since any change. */
  lemma {:induction false} CooledDown(cfg: Config, initial: int, log: seq<Decision>, time: real)
    requires cfg.interval >= 0.0 && Explained(cfg, initial, log)
    ensures time - ChangedAt(log) >= cfg.policy.cooldown
      <==> forall j :: 0 <= j < |log| && (j == 0 || log[j].capacity != log[j].previous)
                       ==> time - log[j].elapsed >= cfg.policy.cooldown
  {
    StartsAtZero(cfg, initial, log);
    if |log| > 1 {
      var front, last := log[..|log| - 1], log[|log| - 1];
      CooledDown(cfg, initial, front, time);
      StartsAtZero(cfg, initial, front);
      assert forall j :: 0 <= j < |front| ==> log[j] == front[j];
      if last.capacity != last.previous && time - last.elapsed >= cfg.policy.cooldown {
        NotLater(cfg, initial, log);
      }
    }
  }

  lemma {:induction false} NotLater(cfg: Config, initial: int, log: seq<Decision>)
    requires cfg.interval >= 0.0 && Explained(cfg, initial, log)
    ensures forall j :: 0 <= j < |log| ==> 0.0 <= log[j].elapsed <= log[|log| - 1].elapsed
  {
    if |log| > 1 {
      NotLater(cfg, initial, log[..|log| - 1]);
    }
  }

  lemma GrowthExactly(cfg: Config, initial: int, log: seq<Decision>, i: nat)
    requires cfg.interval >= 0.0 && ValidPolicy(cfg.policy) && Explained(cfg, initial, log)
    requires 0 < i < |log| && log[i].sample.Some?
    ensures var s := log[i].sample.value;
      MayGrow(cfg.policy.cooldown, log, i)
      <==> (&& Healthy(s) && Streak(log[..i], HealthyKind) >= 2 && !CrashLogged(log[..i])
            && RMax(0.0, log[i].elapsed - ChangedAt(log[..i])) >= cfg.policy.cooldown)
  {
    var before := log[..i];
    ExplainedAt(cfg, initial, log, i);
    StartsAtZero(cfg, initial, before);
    CooledDown(cfg, initial, before, log[i].elapsed);
    StreakIsHealthy(before);
    FirstEntryHasNoSample(cfg, initial, before);
    assert forall j :: 0 <= j < i ==> before[j] == log[j];
    if CrashLogged(before) {
      var j :| 0 <= j < |before| && before[j].sample.Some? && Crashed(before[j].sample.value);
      assert !Calm(log[j]);
    } else {
      forall j | 0 <= j < i ensures Calm(log[j]) {
        assert before[j] == log[j];
      }
    }
  }

  /** The capacity after a sample. */
  ghost function Ruled(policy: Policy, previous: int, shrink: bool, grow: bool): int {
    if shrink then (if previous - 1 >= policy.minimum then previous - 1 else policy.minimum)
    else if grow then (if previous + 1 <= policy.maximum then previous + 1 else policy.maximum)
    else previous
  }

  lemma PolicyRule(p: Policy, current: int, s: Sample, elapsed: real, pressure: nat, healthy: nat, expansion: bool)
    requires healthy > 0 ==> Healthy(s)
    requires expansion ==> s.crashes == 0 && s.failures == 0
    ensures NextCapacity(p, current, s, elapsed, pressure, healthy, expansion)
      == Ruled(p, current,
               s.memory < 15.0 || s.p95 > 750.0 || s.crashes > 0 || s.failures > 0
               || (SustainedPressure(s) && pressure >= 2),
               Healthy(s) && healthy >= 3 && expansion && elapsed >= p.cooldown)
  {
  }

  lemma EntryRule(cfg: Config, initial: int, log: seq<Decision>, i: nat)
    requires cfg.interval >= 0.0 && ValidPolicy(cfg.policy) && Explained(cfg, initial, log)
    requires 0 < i < |log| && log[i].sample.Some?
    ensures log[i].previous == log[i - 1].capacity
    ensures log[i].capacity
      == Ruled(cfg.policy, log[i].previous, MustShrink(log, i), MayGrow(cfg.policy.cooldown, log, i))
    ensures log[i].reason == ReasonFor(log[i].previous, log[i].capacity)
  {
    var before, s := log[..i], log[i].sample.value;
    ExplainedAt(cfg, initial, log, i);
    StreakIsPressed(before);
    GrowthExactly(cfg, initial, log, i);
    assert before[i - 1] == log[i - 1];
    PolicyRule(cfg.policy, log[i].previous, s, RMax(0.0, log[i].elapsed - ChangedAt(before)),
               if SustainedPressure(s) then Streak(before, PressureKind) + 1 else 0,
               if Healthy(s) then Streak(before, HealthyKind) + 1 else 0,
               !CrashLogged(before) && !Crashed(s));
  }

  /** Every sample of every run gives up one worker, takes one more or changes nothing exactly as the policy says, by
      the samples, capacities and times of the log alone. */
  lemma CapacityRule(cfg: Config, initial: int, steps: seq<Step>, i: nat)
    requires Clocked(cfg, steps) && ValidPolicy(cfg.policy)
    requires var log := Run(cfg, initial, steps).decisions; 0 < i < |log| && log[i].sample.Some?
    ensures var log := Run(cfg, initial, steps).decisions;
      var previous, next := log[i - 1].capacity, log[i].capacity;
      && (if MustShrink(log, i) then
            next == if previous - 1 >= cfg.policy.minimum then previous - 1 else cfg.policy.minimum
          else if MayGrow(cfg.policy.cooldown, log, i) then
            next == if previous + 1 <= cfg.policy.maximum then previous + 1 else cfg.policy.maximum
          else next == previous)
      && log[i].reason == (if next < previous then Overloaded else if next > previous then HealthyLoad else Stable)
  {
    RunInv(cfg, initial, steps);
    EntryRule(cfg, initial, Run(cfg, initial, steps).decisions, i);
  }

  /** What a call adds to the log: an entry exactly when an interval has passed since the last one, or there is only the
      initial one, and the sampler gave a sample or an `OSError`. Reports that waited go into its sample. */
  ghost predicate Logs(cfg: Config, c: Control, c': Control, now: real, sampling: Sampling)
    requires c.decisions != []
  {
    var n, last := |c.decisions|, c.decisions[|c.decisions| - 1];
    if (n > 1 && now - cfg.started - last.elapsed < cfg.interval) || sampling.OtherError? then c' == c
    else
      && |c'.decisions| == n + 1 && c'.decisions[..n] == c.decisions
      && c'.decisions[n].elapsed == now - cfg.started && c'.decisions[n].previous == last.capacity
      && c'.capacity == c'.decisions[n].capacity
      && match sampling
         case Sampled(s) =>
           c'.decisions[n].sample
           == Some(Sample(s.cpu, s.memory, s.p95, s.crashes + c.crashes, s.failures + c.failures))
         case _ => c'.decisions[n] == Decision(now - cfg.started, last.capacity, last.capacity, SamplerError, None)
  }

  lemma AskedLogs(cfg: Config, c: Control, now: real, sampling: Sampling)
    requires c.decisions != [] && c.capacity == c.decisions[|c.decisions| - 1].capacity && now >= cfg.started
    requires c.lastSampled == if |c.decisions| == 1 then cfg.started - cfg.interval
                              else cfg.started + c.decisions[|c.decisions| - 1].elapsed
    ensures Logs(cfg, c, Asked(cfg, c, now, sampling), now, sampling)
  {
  }

  lemma CallLogs(cfg: Config, initial: int, steps: seq<Step>, now: real, sampling: Sampling)
    requires Clocked(cfg, steps) && now >= cfg.started
    ensures Run(cfg, initial, steps).decisions != []
    ensures Logs(cfg, Run(cfg, initial, steps), Run(cfg, initial, steps + [AskStep(now, sampling)]), now, sampling)
  {
    RunInv(cfg, initial, steps);
    assert (steps + [AskStep(now, sampling)])[..|steps|] == steps;
    AskedLogs(cfg, Run(cfg, initial, steps), now, sampling);
  }

  // ---------------------------------------------------------------------------
  // The permanent expansion block
  // ---------------------------------------------------------------------------

  lemma {:induction false} BlockedForGood(cfg: Config, initial: int, steps: seq<Step>, k: nat)
    requires k <= |steps| && Run(cfg, initial, steps[..k]).blocked
    ensures Run(cfg, initial, steps).blocked
    ensures Run(cfg, initial, steps[..k]).decisions <= Run(cfg, initial, steps).decisions
    ensures cfg.policy.minimum <= initial <= cfg.policy.maximum && Clocked(cfg, steps) ==>
      Run(cfg, initial, steps).capacity <= Run(cfg, initial, steps[..k]).capacity
    decreases |steps|
  {
    if k == |steps| {
      assert steps[..k] == steps;
    } else {
      var front := steps[..|steps| - 1];
      assert front[..k] == steps[..k];
      BlockedForGood(cfg, initial, front, k);
      if cfg.policy.minimum <= initial <= cfg.policy.maximum && Clocked(cfg, steps) {
        RunInv(cfg, initial, front);
        CapacityInBounds(cfg, initial, Run(cfg, initial, front).decisions);
      }
    }
  }

  /** From the first recorded crash or failure on, the capacity never grows again. */
  lemma CrashStopsGrowth(cfg: Config, initial: int, steps: seq<Step>, k: nat)
    requires Clocked(cfg, steps) && cfg.policy.minimum <= initial <= cfg.policy.maximum
    requires k < |steps| && (steps[k].CrashStep? || steps[k].FailureStep?)
    ensures Run(cfg, initial, steps).blocked
    ensures Run(cfg, initial, steps).capacity <= Run(cfg, initial, steps[..k]).capacity
  {
    assert steps[..k + 1][..k] == steps[..k];
    BlockedForGood(cfg, initial, steps, k + 1);
  }

  // ---------------------------------------------------------------------------
  // Conservation of crash and failure reports
  // ---------------------------------------------------------------------------

  /** What the log says happened: crashes and failures summed over all recorded samples. */
  function Logged(log: seq<Decision>): (int, int) {
    if log == [] then (0, 0)
    else
      var (crashes, failures) := Logged(log[..|log| - 1]);
      match log[|log| - 1].sample
      case None => (crashes, failures)
      case Some(s) => (crashes + s.crashes, failures + s.failures)
  }

  function Plus(a: (int, int), b: (int, int)): (int, int) { (a.0 + b.0, a.1 + b.1) }

  /** Crashes and failures a step brings: a report made to the controller, or what the sampler
      itself delivered in a sample that was taken. */
  function Brought(cfg: Config, c: Control, step: Step): (int, int) {
    match step
    case CrashStep => (1, 0)
    case FailureStep => (0, 1)
    case AskStep(now, Sampled(s)) => if Due(cfg, c, now) then (s.crashes, s.failures) else (0, 0)
    case AskStep(_, _) => (0, 0)
  }

  function Happened(cfg: Config, initial: int, steps: seq<Step>): (int, int) {
    if steps == [] then (0, 0)
    else Plus(Happened(cfg, initial, steps[..|steps| - 1]),
              Brought(cfg, Run(cfg, initial, steps[..|steps| - 1]), steps[|steps| - 1]))
  }

  lemma LoggedAppend(log: seq<Decision>, e: Decision)
    ensures var l := Logged(log);
      Logged(log + [e]) == if e.sample.None? then l else (l.0 + e.sample.value.crashes, l.1 + e.sample.value.failures)
  {
    assert (log + [e])[..|log|] == log;
  }

  function Pending(c: Control): (int, int) { (c.crashes, c.failures) }

  lemma StepConserves(cfg: Config, c: Control, step: Step)
    ensures var c' := Exec(cfg, c, step);
      Plus(Logged(c'.decisions), Pending(c')) == Plus(Plus(Logged(c.decisions), Pending(c)), Brought(cfg, c, step))
  {
    var c' := Exec(cfg, c, step);
    if step.AskStep? && Due(cfg, c, step.now) && !step.sampling.OtherError? {
      LoggedAppend(c.decisions, c'.decisions[|c.decisions|]);
    }
  }

  /** Each report is counted in exactly one sample of the log or is still pending, also across
      sampler errors. */
  lemma {:induction false} ReportsConserved(cfg: Config, initial: int, steps: seq<Step>)
    ensures var c := Run(cfg, initial, steps); Happened(cfg, initial, steps) == Plus(Logged(c.decisions), Pending(c))
  {
    if steps == [] {
      LoggedAppend([], Fresh(cfg, initial).decisions[0]);
      assert [] + Fresh(cfg, initial).decisions == Fresh(cfg, initial).decisions;
    } else {
      ReportsConserved(cfg, initial, steps[..|steps| - 1]);
      StepConserves(cfg, Run(cfg, initial, steps[..|steps| - 1]), steps[|steps| - 1]);
    }
  }
}
