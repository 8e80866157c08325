/**
 Acceptance of a benchmark (scripts/e2e_scheduler/benchmark.py). Durations are reals.
 */
module BenchmarkAcceptance {
  import opened Numbers
  import opened Outcomes
  import opened Sorting

  datatype Inventory = Inventory(
    testIds: seq<string>, skippedTestIds: seq<string>, projects: seq<string>, browsers: seq<string>,
    viewports: seq<string>, expectedScenarios: int, actualScenarios: int, expectedEvidence: int,
    actualEvidence: int, passed: int, failed: int, skipped: int, interrupted: int, missing: int,
    evidenceParityOk: bool, expectedFingerprint: string, actualFingerprint: string, semanticEvidence: seq<string>)

  datatype Runtime = Runtime(decision: string, channel: Option<string>, executablePath: string, browserVersion: string)

  datatype Concurrency = Concurrency(
    adaptive: bool, initial: Option<int>, minimum: Option<int>, maximum: Option<int>, started: Option<int>)

  datatype Mode = Legacy | Dynamic

  datatype BenchmarkRun = BenchmarkRun(
    mode: Mode, gitSha: string, runId: string, wallSeconds: real, exitCode: int, cleanupOk: bool,
    inventory: Inventory, cpuSamples: seq<real>, memorySamples: seq<real>, latencySamples: seq<real>,
    browserRuntime: Runtime, concurrency: Option<Concurrency>)

  datatype Summary = Summary(legacyMedian: real, dynamicMedian: real, dynamicWorst: real, speedup: real, accepted: bool)

  datatype AcceptanceError =
    | TooFewRuns | GitShasDiffer | RunIdsRepeat | NotGreen | InventoryDiffers | RuntimeDiffers
    | LegacyConcurrencyInvalid | ConcurrencyMissing | BoundsMissing | BoundsInvalid | FixedWorkersInvalid
    | NoDurations | LegacyMedianNotPositive | MedianTooSlow | WorstTooSlow | SpeedupTooLow | NoGreenStreak

  predicate Exact(v: Inventory) {
    && v.expectedScenarios == v.actualScenarios
    && v.expectedEvidence == v.actualEvidence
    && v.failed == 0 && v.interrupted == 0 && v.missing == 0
    && v.passed + v.skipped == |v.testIds|
    && v.skipped == |v.skippedTestIds|
    && v.evidenceParityOk
    && v.expectedFingerprint == v.actualFingerprint
    && |v.semanticEvidence| == v.expectedEvidence
  }

  predicate Green(r: BenchmarkRun) {
    && r.exitCode == 0 && r.cleanupOk && Exact(r.inventory)
    && r.cpuSamples != [] && r.memorySamples != [] && r.latencySamples != []
  }

  // ---------------------------------------------------------------------------
  // Statistics
  // ---------------------------------------------------------------------------

  function RealLe(): (real, real) -> bool { (a: real, b: real) => a <= b }

  /** `statistics.median`: the middle value, or the mean of the two middle values. */
  function Median(s: seq<real>): real
    requires s != []
  {
    SortPermutes(s, RealLe());
    var t, n := Sort(s, RealLe()), |s|;
    if n % 2 == 1 then t[n / 2] else (t[n / 2 - 1] + t[n / 2]) / 2.0
  }

  function Worst(s: seq<real>): (m: real)
    requires s != []
    ensures m in s && forall x :: x in s ==> x <= m
  {
    if |s| == 1 then s[0]
    else
      var m := Worst(s[1..]);
      assert forall x :: x in s ==> x == s[0] || x in s[1..];
      if s[0] >= m then s[0] else m
  }

  function Summarize(legacy: seq<real>, dynamic: seq<real>): Result<Summary, AcceptanceError> {
    if legacy == [] || dynamic == [] then Err(NoDurations)
    else Compared(Median(legacy), Median(dynamic), Worst(dynamic))
  }

  function Compared(l: real, d: real, worst: real): Result<Summary, AcceptanceError> {
    if l <= 0.0 then Err(LegacyMedianNotPositive)
    else Ok(Summary(l, d, worst, 100.0 * (l - d) / l, false))
  }

  // ---------------------------------------------------------------------------
  // Green streaks
  // ---------------------------------------------------------------------------

  /** The number of leading green runs. */
  function LeadingGreen(runs: seq<BenchmarkRun>): (k: nat)
    ensures k <= |runs| && (forall i :: 0 <= i < k ==> Green(runs[i])) && (k < |runs| ==> !Green(runs[k]))
  {
    if runs == [] || !Green(runs[0]) then 0 else 1 + LeadingGreen(runs[1..])
  }

  /** The lengths of the maximal blocks of green runs, in order. */
  function GreenBlocks(runs: seq<BenchmarkRun>): seq<nat> {
    if runs == [] then []
    else if !Green(runs[0]) then GreenBlocks(runs[1..])
    else var k := LeadingGreen(runs); [k] + GreenBlocks(runs[k..])
  }

  function Closed(current: nat): seq<nat> { if current > 0 then [current] else [] }

  /** The blocks that are still to come when the last `current` runs were green. */
  function BlocksFrom(runs: seq<BenchmarkRun>, current: nat): seq<nat> {
    if runs == [] then Closed(current)
    else if Green(runs[0]) then BlocksFrom(runs[1..], current + 1)
    else Closed(current) + BlocksFrom(runs[1..], 0)
  }

  lemma {:induction false} BlocksFromJoins(runs: seq<BenchmarkRun>, current: nat)
    ensures current == 0 ==> BlocksFrom(runs, 0) == GreenBlocks(runs)
    ensures current > 0 ==>
      BlocksFrom(runs, current) == [current + LeadingGreen(runs)] + GreenBlocks(runs[LeadingGreen(runs)..])
    decreases |runs|
  {
    if runs != [] {
      BlocksFromJoins(runs[1..], if Green(runs[0]) then current + 1 else 0);
      if Green(runs[0]) {
        assert runs[1..][LeadingGreen(runs[1..])..] == runs[LeadingGreen(runs)..];
      }
    }
  }

  method GreenStreaks(runs: seq<BenchmarkRun>) returns (streaks: seq<nat>)
    ensures streaks == GreenBlocks(runs)
  {
    streaks := [];
    var current := 0;
    for i := 0 to |runs|
      invariant BlocksFrom(runs, 0) == streaks + BlocksFrom(runs[i..], current)
    {
      assert runs[i..][0] == runs[i] && runs[i..][1..] == runs[i + 1..];
      if Green(runs[i]) {
        current := current + 1;
      } else {
        assert streaks + (Closed(current) + BlocksFrom(runs[i + 1..], 0))
          == (streaks + Closed(current)) + BlocksFrom(runs[i + 1..], 0);
        if current > 0 {
          streaks := streaks + [current];
        }
        current := 0;
      }
    }
    BlocksFromJoins(runs, 0);
    if current > 0 {
      streaks := streaks + [current];
    }
  }

  /** A block of green runs that cannot be made longer. */
  ghost predicate IsBlock(runs: seq<BenchmarkRun>, start: nat, length: nat) {
    && length > 0 && start + length <= |runs|
    && (forall k :: start <= k < start + length ==> Green(runs[k]))
    && (start + length < |runs| ==> !Green(runs[start + length]))
    && (start > 0 ==> !Green(runs[start - 1]))
  }

  /** These are all the blocks, in order. */
  ghost predicate AreBlocks(runs: seq<BenchmarkRun>, starts: seq<nat>, lengths: seq<nat>) {
    && |starts| == |lengths|
    && (forall i :: 0 <= i < |starts| ==> IsBlock(runs, starts[i], lengths[i]))
    && (forall i, j :: 0 <= i < j < |starts| ==> starts[i] + lengths[i] < starts[j])
    && (forall k :: 0 <= k < |runs| && Green(runs[k]) ==>
          exists i :: 0 <= i < |starts| && starts[i] <= k < starts[i] + lengths[i])
  }

  function Moved(starts: seq<nat>, d: nat): (moved: seq<nat>)
    ensures |moved| == |starts| && forall i :: 0 <= i < |starts| ==> moved[i] == starts[i] + d
  {
    seq(|starts|, i requires 0 <= i < |starts| => starts[i] + d)
  }

  lemma BlocksMoved(runs: seq<BenchmarkRun>, d: nat, starts: seq<nat>, lengths: seq<nat>)
    requires d <= |runs| && AreBlocks(runs[d..], starts, lengths)
    requires forall i :: 0 <= i < |starts| && starts[i] == 0 ==> d == 0 || !Green(runs[d - 1])
    ensures var moved := Moved(starts, d);
      && (forall i :: 0 <= i < |moved| ==> IsBlock(runs, moved[i], lengths[i]) && moved[i] >= d)
      && (forall i, j :: 0 <= i < j < |moved| ==> moved[i] + lengths[i] < moved[j])
      && (forall k :: d <= k < |runs| && Green(runs[k]) ==>
            exists i :: 0 <= i < |moved| && moved[i] <= k < moved[i] + lengths[i])
  {
    var moved := Moved(starts, d);
    forall i | 0 <= i < |moved| ensures IsBlock(runs, moved[i], lengths[i]) {
      assert IsBlock(runs[d..], starts[i], lengths[i]);
      forall k | moved[i] <= k < moved[i] + lengths[i] ensures Green(runs[k]) { assert Green(runs[d..][k - d]); }
    }
    forall k | d <= k < |runs| && Green(runs[k])
      ensures exists i :: 0 <= i < |moved| && moved[i] <= k < moved[i] + lengths[i]
    {
      assert Green(runs[d..][k - d]);
      var i :| 0 <= i < |starts| && starts[i] <= k - d < starts[i] + lengths[i];
      assert moved[i] <= k < moved[i] + lengths[i];
    }
  }

  /** The streaks are the lengths of all maximal green blocks, in order. */
  lemma {:induction false} BlocksExactly(runs: seq<BenchmarkRun>) returns (starts: seq<nat>)
    ensures AreBlocks(runs, starts, GreenBlocks(runs))
    decreases |runs|
  {
    if runs == [] {
      starts := [];
    } else if !Green(runs[0]) {
      var rest := BlocksExactly(runs[1..]);
      BlocksMoved(runs, 1, rest, GreenBlocks(runs[1..]));
      starts := Moved(rest, 1);
    } else {
      var n := LeadingGreen(runs);
      var rest := BlocksExactly(runs[n..]);
      forall i | 0 <= i < |rest| ensures rest[i] > 0 {
        assert IsBlock(runs[n..], rest[i], GreenBlocks(runs[n..])[i]);
      }
      BlocksMoved(runs, n, rest, GreenBlocks(runs[n..]));
      starts := [0] + Moved(rest, n);
      FirstBlock(runs, n, Moved(rest, n), GreenBlocks(runs[n..]));
    }
  }

  lemma FirstBlock(runs: seq<BenchmarkRun>, n: nat, moved: seq<nat>, lengths: seq<nat>)
    requires IsBlock(runs, 0, n) && |moved| == |lengths|
    requires forall i :: 0 <= i < |moved| ==> IsBlock(runs, moved[i], lengths[i]) && moved[i] > n
    requires forall i, j :: 0 <= i < j < |moved| ==> moved[i] + lengths[i] < moved[j]
    requires forall k :: n <= k < |runs| && Green(runs[k]) ==>
      exists i :: 0 <= i < |moved| && moved[i] <= k < moved[i] + lengths[i]
    ensures AreBlocks(runs, [0] + moved, [n] + lengths)
  {
    var starts, all := [0] + moved, [n] + lengths;
    assert forall i :: 0 < i < |starts| ==> starts[i] == moved[i - 1] && all[i] == lengths[i - 1];
    forall k | 0 <= k < |runs| && Green(runs[k])
      ensures exists i :: 0 <= i < |starts| && starts[i] <= k < starts[i] + all[i]
    {
      GreenIsCovered(runs, n, moved, lengths, k);
    }
  }

  lemma GreenIsCovered(runs: seq<BenchmarkRun>, n: nat, moved: seq<nat>, lengths: seq<nat>, k: nat)
    requires |moved| == |lengths| && k < |runs| && Green(runs[k])
    requires n <= k ==> exists i :: 0 <= i < |moved| && moved[i] <= k < moved[i] + lengths[i]
    ensures var starts, all := [0] + moved, [n] + lengths;
      exists i :: 0 <= i < |starts| && starts[i] <= k < starts[i] + all[i]
  {
    var starts, all := [0] + moved, [n] + lengths;
    if k < n {
      assert starts[0] <= k < starts[0] + all[0];
    } else {
      var i :| 0 <= i < |moved| && moved[i] <= k < moved[i] + lengths[i];
      assert starts[i + 1] <= k < starts[i + 1] + all[i + 1];
    }
  }

  function Longest(streaks: seq<nat>): nat {
    if streaks == [] then 0
    else if streaks[0] >= Longest(streaks[1..]) then streaks[0] else Longest(streaks[1..])
  }

  // ---------------------------------------------------------------------------
  // Acceptance
  // ---------------------------------------------------------------------------

  function DynamicConcurrencyError(c: Option<Concurrency>): Option<AcceptanceError> {
    if c.None? then Some(ConcurrencyMissing)
    else
      var c := c.value;
      if c.adaptive then
        if c.initial.None? || c.minimum.None? || c.maximum.None? || c.started.None? then Some(BoundsMissing)
        else if !(4 <= c.minimum.value <= c.initial.value <= c.maximum.value <= Min(10, c.started.value))
        then Some(BoundsInvalid)
        else None
      else if c != Concurrency(false, Some(8), Some(8), Some(8), Some(8)) then Some(FixedWorkersInvalid)
      else None
  }

  function FirstConcurrencyError(runs: seq<BenchmarkRun>): (e: Option<AcceptanceError>)
    ensures e.None? <==> forall r :: r in runs ==> DynamicConcurrencyError(r.concurrency).None?
  {
    if runs == [] then None
    else if DynamicConcurrencyError(runs[0].concurrency).Some? then
      assert runs[0] in runs;
      DynamicConcurrencyError(runs[0].concurrency)
    else
      assert forall r :: r in runs <==> r == runs[0] || r in runs[1..];
      FirstConcurrencyError(runs[1..])
  }

  function OfMode(runs: seq<BenchmarkRun>, m: Mode): seq<BenchmarkRun> {
    Filter(runs, (r: BenchmarkRun) => r.mode == m)
  }

  function Walls(runs: seq<BenchmarkRun>): (w: seq<real>)
    ensures |w| == |runs| && forall i :: 0 <= i < |w| ==> w[i] == runs[i].wallSeconds
  {
    if runs == [] then [] else [runs[0].wallSeconds] + Walls(runs[1..])
  }

  const LEGACY_CONCURRENCY := Some(Concurrency(false, None, None, None, None))

  /** The checks that come before any duration is read. */
  function MetadataError(runs: seq<BenchmarkRun>): Option<AcceptanceError> {
    var legacy, dynamic := OfMode(runs, Legacy), OfMode(runs, Dynamic);
    if |legacy| < 3 || |dynamic| < 3 then Some(TooFewRuns)
    else if |set r | r in runs :: r.gitSha| != 1 then Some(GitShasDiffer)
    else if |set r | r in runs :: r.runId| != |runs| then Some(RunIdsRepeat)
    else if exists r :: r in runs && !Green(r) then Some(NotGreen)
    else if exists r :: r in runs && r.inventory != legacy[0].inventory then Some(InventoryDiffers)
    else
      NotEmpty(runs);
      if exists r :: r in runs && r.browserRuntime != runs[0].browserRuntime then Some(RuntimeDiffers)
      else if exists r :: r in legacy && r.concurrency != LEGACY_CONCURRENCY then Some(LegacyConcurrencyInvalid)
      else FirstConcurrencyError(dynamic)
  }

  function ValidateAcceptance(runs: seq<BenchmarkRun>): Result<Summary, AcceptanceError> {
    match MetadataError(runs)
    case Some(e) => Err(e)
    case None => Measured(OfMode(runs, Legacy), OfMode(runs, Dynamic))
  }

  /** The checks on the measured durations. */
  function Measured(legacy: seq<BenchmarkRun>, dynamic: seq<BenchmarkRun>): Result<Summary, AcceptanceError> {
    match Summarize(Walls(legacy), Walls(dynamic))
    case Err(e) => Err(e)
    case Ok(s) => WithinLimits(s, Longest(GreenBlocks(dynamic)))
  }

  function WithinLimits(s: Summary, consecutive: nat): Result<Summary, AcceptanceError> {
    if s.dynamicMedian > 1500.0 then Err(MedianTooSlow)
    else if s.dynamicWorst > 1800.0 then Err(WorstTooSlow)
    else if s.speedup < 50.0 then Err(SpeedupTooLow)
    else if consecutive < 2 then Err(NoGreenStreak)
    else Ok(s.(accepted := true))
  }

  lemma NotEmpty(runs: seq<BenchmarkRun>)
    requires |OfMode(runs, Legacy)| >= 3
    ensures runs != []
  {
  }

  // ---------------------------------------------------------------------------
  // The streak check reads the order and never decides
  // ---------------------------------------------------------------------------

  lemma {:induction false} AllLeadingGreen(runs: seq<BenchmarkRun>)
    requires forall r :: r in runs ==> Green(r)
    ensures LeadingGreen(runs) == |runs|
  {
    if runs != [] {
      assert runs[0] in runs;
      AllLeadingGreen(runs[1..]);
    }
  }

  lemma AllGreenOneBlock(runs: seq<BenchmarkRun>)
    requires runs != [] && forall r :: r in runs ==> Green(r)
    ensures GreenBlocks(runs) == [|runs|]
  {
    AllLeadingGreen(runs);
    assert Green(runs[0]) && runs[|runs|..] == [];
  }

  // ---------------------------------------------------------------------------
  // Exactly when a benchmark is accepted
  // ---------------------------------------------------------------------------

  /** What acceptance asks of the runs one by one and in pairs, without their order. */
  ghost predicate Comparable(runs: seq<BenchmarkRun>) {
    && |OfMode(runs, Legacy)| >= 3 && |OfMode(runs, Dynamic)| >= 3
    && |set r | r in runs :: r.gitSha| == 1
    && |set r | r in runs :: r.runId| == |runs|
    && (forall r :: r in runs ==> Green(r))
    && (forall r, q :: r in runs && q in runs ==> r.inventory == q.inventory && r.browserRuntime == q.browserRuntime)
    && (forall r :: r in runs && r.mode == Legacy ==> r.concurrency == LEGACY_CONCURRENCY)
    && (forall r :: r in runs && r.mode == Dynamic ==> DynamicConcurrencyError(r.concurrency).None?)
  }

  lemma OfModeElements(runs: seq<BenchmarkRun>, m: Mode)
    ensures forall r :: r in OfMode(runs, m) <==> r in runs && r.mode == m
  {
    forall r ensures r in OfMode(runs, m) <==> r in runs && r.mode == m {
      FilterElements(runs, (x: BenchmarkRun) => x.mode == m, r);
    }
  }

  /** The durations acceptance asks for: the dynamic median within 1500 s and at most half of the
      legacy median, no dynamic run over 1800 s. */
  ghost predicate Fast(legacy: seq<real>, dynamic: seq<real>)
    requires legacy != [] && dynamic != []
  {
    && 0.0 < Median(legacy) && 2.0 * Median(dynamic) <= Median(legacy)
    && Median(dynamic) <= 1500.0
    && forall x :: x in dynamic ==> x <= 1800.0
  }

  lemma SpeedupIsHalf(l: real, d: real)
    requires l > 0.0
    ensures 100.0 * (l - d) / l >= 50.0 <==> 2.0 * d <= l
  {
    var q := 100.0 * (l - d) / l;
    assert q * l == 100.0 * (l - d);
    if q >= 50.0 {
      assert q * l >= 50.0 * l;
    } else {
      assert q * l < 50.0 * l;
    }
  }

  lemma LimitsExactly(l: real, d: real, worst: real, consecutive: nat)
    requires consecutive >= 2
    ensures Compared(l, d, worst).Ok? && WithinLimits(Compared(l, d, worst).value, consecutive).Ok?
      <==> 0.0 < l && 2.0 * d <= l && d <= 1500.0 && worst <= 1800.0
  {
    if l > 0.0 {
      SpeedupIsHalf(l, d);
    }
  }

  /** The judgement on two medians and the worst dynamic duration. */
  function Verdict(l: real, d: real, worst: real): Result<Summary, AcceptanceError> {
    match Compared(l, d, worst)
    case Err(e) => Err(e)
    case Ok(s) => WithinLimits(s, 2)
  }

  lemma MeasuredIs(legacy: seq<BenchmarkRun>, dynamic: seq<BenchmarkRun>)
    requires legacy != [] && |dynamic| >= 2 && forall r :: r in dynamic ==> Green(r)
    ensures Measured(legacy, dynamic)
      == Verdict(Median(Walls(legacy)), Median(Walls(dynamic)), Worst(Walls(dynamic)))
  {
    AllGreenOneBlock(dynamic);
    assert Longest([|dynamic|]) == |dynamic|;
  }

  lemma MetadataExactly(runs: seq<BenchmarkRun>)
    ensures MetadataError(runs).None? <==> Comparable(runs)
  {
    var legacy, dynamic := OfMode(runs, Legacy), OfMode(runs, Dynamic);
    OfModeElements(runs, Legacy);
    OfModeElements(runs, Dynamic);
    if |legacy| >= 3 && |dynamic| >= 3 {
      assert legacy[0] in legacy && legacy[0] in runs;
      NotEmpty(runs);
      assert runs[0] in runs;
    }
  }

  /** Comparable runs are judged by the three durations alone; the check for two consecutive green
      dynamic runs never decides, because every run must be green. */
  lemma JudgedByDurations(runs: seq<BenchmarkRun>)
    requires Comparable(runs)
    ensures ValidateAcceptance(runs)
      == Verdict(Median(Walls(OfMode(runs, Legacy))), Median(Walls(OfMode(runs, Dynamic))),
                 Worst(Walls(OfMode(runs, Dynamic))))
  {
    MetadataExactly(runs);
    OfModeElements(runs, Dynamic);
    MeasuredIs(OfMode(runs, Legacy), OfMode(runs, Dynamic));
  }

  /** A benchmark is accepted exactly when its runs are comparable and fast. */
  lemma AcceptedExactly(runs: seq<BenchmarkRun>)
    ensures ValidateAcceptance(runs).Ok?
      <==> Comparable(runs) && Fast(Walls(OfMode(runs, Legacy)), Walls(OfMode(runs, Dynamic)))
  {
    MetadataExactly(runs);
    if Comparable(runs) {
      JudgedByDurations(runs);
      var legacy, dynamic := Walls(OfMode(runs, Legacy)), Walls(OfMode(runs, Dynamic));
      LimitsExactly(Median(legacy), Median(dynamic), Worst(dynamic), 2);
    }
  }

  // ---------------------------------------------------------------------------
  // The order of the runs does not matter
  // ---------------------------------------------------------------------------

  lemma SameElements<T>(a: seq<T>, b: seq<T>)
    requires multiset(a) == multiset(b)
    ensures forall x :: x in a <==> x in b
    ensures |a| == |b|
  {
    forall x ensures x in a <==> x in b {
      assert x in multiset(a) <==> x in multiset(b);
    }
    assert |multiset(a)| == |multiset(b)|;
  }

  function WallOf(): BenchmarkRun -> seq<real> { (r: BenchmarkRun) => [r.wallSeconds] }

  lemma {:induction false} WallsAreFlat(runs: seq<BenchmarkRun>)
    ensures Walls(runs) == Flat(runs, WallOf())
  {
    if runs != [] {
      WallsAreFlat(runs[1..]);
    }
  }

  lemma WallsOfPermutation(a: seq<BenchmarkRun>, b: seq<BenchmarkRun>)
    requires multiset(a) == multiset(b)
    ensures multiset(Walls(a)) == multiset(Walls(b))
  {
    WallsAreFlat(a);
    WallsAreFlat(b);
    FlatPermutes(a, b, WallOf());
  }

  lemma MedianOfPermutation(a: seq<real>, b: seq<real>)
    requires a != [] && multiset(a) == multiset(b)
    ensures b != [] && Median(a) == Median(b) && Worst(a) == Worst(b)
  {
    SameElements(a, b);
    SortOfPermutation(a, b, RealLe());
  }

  lemma ComparablePermutes(a: seq<BenchmarkRun>, b: seq<BenchmarkRun>)
    requires multiset(a) == multiset(b) && Comparable(a)
    ensures Comparable(b)
  {
    SameElements(a, b);
    FilterOfPermutation(a, b, (r: BenchmarkRun) => r.mode == Legacy);
    FilterOfPermutation(a, b, (r: BenchmarkRun) => r.mode == Dynamic);
    assert (set r | r in a :: r.gitSha) == (set r | r in b :: r.gitSha);
    assert (set r | r in a :: r.runId) == (set r | r in b :: r.runId);
  }

  lemma DurationsPermute(a: seq<BenchmarkRun>, b: seq<BenchmarkRun>, m: Mode)
    requires multiset(a) == multiset(b) && OfMode(a, m) != []
    ensures OfMode(b, m) != []
    ensures Median(Walls(OfMode(a, m))) == Median(Walls(OfMode(b, m)))
    ensures Worst(Walls(OfMode(a, m))) == Worst(Walls(OfMode(b, m)))
    ensures forall x :: x in Walls(OfMode(a, m)) <==> x in Walls(OfMode(b, m))
  {
    FilterOfPermutation(a, b, (r: BenchmarkRun) => r.mode == m);
    WallsOfPermutation(OfMode(a, m), OfMode(b, m));
    SameElements(Walls(OfMode(a, m)), Walls(OfMode(b, m)));
    MedianOfPermutation(Walls(OfMode(a, m)), Walls(OfMode(b, m)));
  }

  /** Neither acceptance nor the summary depends on the order of the runs. */
  lemma OrderDoesNotMatter(a: seq<BenchmarkRun>, b: seq<BenchmarkRun>)
    requires multiset(a) == multiset(b)
    ensures ValidateAcceptance(a).Ok? <==> ValidateAcceptance(b).Ok?
    ensures Comparable(a) ==> ValidateAcceptance(a) == ValidateAcceptance(b)
  {
    MetadataExactly(a);
    MetadataExactly(b);
    if Comparable(a) {
      ComparablePermutes(a, b);
      DurationsPermute(a, b, Legacy);
      DurationsPermute(a, b, Dynamic);
      JudgedByDurations(a);
      JudgedByDurations(b);
    } else if Comparable(b) {
      ComparablePermutes(b, a);
    }
  }

  // ---------------------------------------------------------------------------
  // What acceptance promises
  // ---------------------------------------------------------------------------

  function AtMost(bound: real): real -> bool { (x: real) => x <= bound }

  lemma {:induction false} LeadingPass(s: seq<real>, k: nat, bound: real)
    requires k <= |s| && forall i :: 0 <= i < k ==> s[i] <= bound
    ensures |Filter(s, AtMost(bound))| >= k
  {
    if k > 0 {
      LeadingPass(s[1..], k - 1, bound);
    }
  }

  /** At least half of the values are at most the median. */
  lemma MedianSplits(s: seq<real>)
    requires s != []
    ensures 2 * |Filter(s, AtMost(Median(s)))| >= |s|
  {
    var t, n, m := Sort(s, RealLe()), |s|, Median(s);
    SortPermutes(s, RealLe());
    SortSorts(s, RealLe());
    var k := if n % 2 == 1 then n / 2 + 1 else n / 2;
    forall i | 0 <= i < k ensures t[i] <= m {
      assert i < k - 1 ==> RealLe()(t[i], t[k - 1]);
      if n % 2 == 0 {
        assert RealLe()(t[k - 1], t[k]);
      }
    }
    LeadingPass(t, k, m);
    FilterOfPermutation(s, t, AtMost(m));
  }

  lemma {:induction false} WiderPass(s: seq<real>, low: real, high: real)
    requires low <= high
    ensures |Filter(s, AtMost(low))| <= |Filter(s, AtMost(high))|
  {
    if s != [] {
      WiderPass(s[1..], low, high);
    }
  }

  /** An accepted benchmark is at least twice as fast at the median, at least half of its dynamic
      runs took at most 1500 s, and all of them took at most 1800 s. */
  lemma AcceptedIsFast(runs: seq<BenchmarkRun>)
    requires ValidateAcceptance(runs).Ok?
    ensures var s, dynamic := ValidateAcceptance(runs).value, Walls(OfMode(runs, Dynamic));
      && s.accepted && 0.0 < s.legacyMedian && 2.0 * s.dynamicMedian <= s.legacyMedian
      && 2 * |Filter(dynamic, AtMost(1500.0))| >= |dynamic| >= 3
      && forall x :: x in dynamic ==> x <= 1800.0
  {
    AcceptedExactly(runs);
    JudgedByDurations(runs);
    var dynamic := Walls(OfMode(runs, Dynamic));
    MedianSplits(dynamic);
    WiderPass(dynamic, Median(dynamic), 1500.0);
  }

  // ---------------------------------------------------------------------------
  // The conditions and the numbers, spelled out
  // ---------------------------------------------------------------------------

  /** A run is green when it ended well, cleaned up, was sampled, and its counts and fingerprints agree. */
  lemma GreenExactly(r: BenchmarkRun)
    ensures var v := r.inventory;
      Green(r) <==>
        (&& r.exitCode == 0 && r.cleanupOk
         && |r.cpuSamples| > 0 && |r.memorySamples| > 0 && |r.latencySamples| > 0
         && v.expectedScenarios == v.actualScenarios && v.expectedEvidence == v.actualEvidence == |v.semanticEvidence|
         && v.failed == 0 && v.interrupted == 0 && v.missing == 0
         && v.skipped == |v.skippedTestIds| && v.passed == |v.testIds| - |v.skippedTestIds|
         && v.evidenceParityOk && v.expectedFingerprint == v.actualFingerprint)
  {
  }

  /** A dynamic run is configured well when it used eight fixed workers, or adapted within 4 to 10 and no more than were
      started. */
  lemma ConcurrencyExactly(c: Option<Concurrency>)
    ensures DynamicConcurrencyError(c).None?
      <==> (|| c == Some(Concurrency(false, Some(8), Some(8), Some(8), Some(8)))
            || (exists initial, minimum, maximum, started ::
                  && c == Some(Concurrency(true, Some(initial), Some(minimum), Some(maximum), Some(started)))
                  && 4 <= minimum <= initial <= maximum <= 10 && maximum <= started))
  {
    if c.Some? && c.value.adaptive && DynamicConcurrencyError(c).None? {
      var v := c.value;
      assert c == Some(Concurrency(true, Some(v.initial.value), Some(v.minimum.value), Some(v.maximum.value),
                                   Some(v.started.value)));
    }
  }

  /** The runs of a mode, each as often as it was given. */
  lemma OfModeExactly(runs: seq<BenchmarkRun>, m: Mode, r: BenchmarkRun)
    ensures multiset(OfMode(runs, m))[r] == if r.mode == m then multiset(runs)[r] else 0
  {
    FilterMultiset(runs, (x: BenchmarkRun) => x.mode == m, r);
  }

  function Below(bound: real): real -> bool { (x: real) => x < bound }

  /** The value has number k, from zero, when all are put in order. */
  ghost predicate Ranks(s: seq<real>, value: real, k: nat) {
    value in s && |Filter(s, Below(value))| <= k < |Filter(s, AtMost(value))|
  }

  lemma {:induction false} FewBelow(t: seq<real>, k: nat, bound: real)
    requires k <= |t| && forall i :: k <= i < |t| ==> t[i] >= bound
    ensures |Filter(t, Below(bound))| <= k
  {
    if t != [] {
      FewBelow(t[1..], if k > 0 then k - 1 else 0, bound);
    }
  }

  lemma RankOfSorted(s: seq<real>, k: nat)
    requires k < |s|
    ensures |Sort(s, RealLe())| == |s| && Ranks(s, Sort(s, RealLe())[k], k)
  {
    var t := Sort(s, RealLe());
    SortPermutes(s, RealLe());
    SortSorts(s, RealLe());
    forall i | 0 <= i < k ensures t[i] <= t[k] { assert RealLe()(t[i], t[k]); }
    forall i | k <= i < |t| ensures t[i] >= t[k] { assert i == k || RealLe()(t[k], t[i]); }
    LeadingPass(t, k + 1, t[k]);
    FewBelow(t, k, t[k]);
    FilterOfPermutation(s, t, AtMost(t[k]));
    FilterOfPermutation(s, t, Below(t[k]));
    SortElements(s, RealLe(), t[k]);
  }

  /** The median is the middle value, or the mean of the two middle ones. */
  lemma MedianExactly(s: seq<real>) returns (a: real, b: real)
    requires s != []
    ensures Ranks(s, a, (|s| - 1) / 2) && Ranks(s, b, |s| / 2) && Median(s) == (a + b) / 2.0
  {
    var t := Sort(s, RealLe());
    RankOfSorted(s, (|s| - 1) / 2);
    RankOfSorted(s, |s| / 2);
    a, b := t[(|s| - 1) / 2], t[|s| / 2];
  }

  /** And no other number is. */
  lemma RankUnique(s: seq<real>, a: real, b: real, k: nat)
    requires Ranks(s, a, k) && Ranks(s, b, k)
    ensures a == b
  {
    if a < b {
      AtMostBelow(s, a, b);
    } else if b < a {
      AtMostBelow(s, b, a);
    }
  }

  lemma {:induction false} AtMostBelow(s: seq<real>, low: real, high: real)
    requires low < high
    ensures |Filter(s, AtMost(low))| <= |Filter(s, Below(high))|
  {
    if s != [] {
      AtMostBelow(s[1..], low, high);
    }
  }

  lemma SpeedupTimes(l: real, d: real)
    requires l > 0.0
    ensures 100.0 * (l - d) / l * l == 100.0 * (l - d)
  {
  }

  /** What two medians and the worst duration are judged to be: the summary, or the first limit that is missed. */
  ghost predicate Judges(r: Result<Summary, AcceptanceError>, l: real, d: real, worst: real) {
    if l <= 0.0 then r == Err(LegacyMedianNotPositive)
    else if d > 1500.0 then r == Err(MedianTooSlow)
    else if worst > 1800.0 then r == Err(WorstTooSlow)
    else if 2.0 * d > l then r == Err(SpeedupTooLow)
    else
      && r.Ok? && r.value.accepted
      && r.value.legacyMedian == l && r.value.dynamicMedian == d && r.value.dynamicWorst == worst
      && r.value.speedup * l == 100.0 * (l - d)
  }

  lemma VerdictJudges(l: real, d: real, worst: real)
    ensures Judges(Verdict(l, d, worst), l, d, worst)
  {
    if l > 0.0 {
      SpeedupIsHalf(l, d);
      SpeedupTimes(l, d);
    }
  }

  /** The judgement on comparable runs. */
  lemma JudgementExactly(runs: seq<BenchmarkRun>)
    requires Comparable(runs)
    ensures Judges(ValidateAcceptance(runs), Median(Walls(OfMode(runs, Legacy))), Median(Walls(OfMode(runs, Dynamic))),
                   Worst(Walls(OfMode(runs, Dynamic))))
  {
    JudgedByDurations(runs);
    VerdictJudges(Median(Walls(OfMode(runs, Legacy))), Median(Walls(OfMode(runs, Dynamic))),
                  Worst(Walls(OfMode(runs, Dynamic))));
  }

  lemma {:induction false} FirstErrorIs(runs: seq<BenchmarkRun>)
    requires FirstConcurrencyError(runs).Some?
    ensures SomeConcurrencyError(runs, FirstConcurrencyError(runs).value)
  {
    if DynamicConcurrencyError(runs[0].concurrency).Some? {
      assert runs[0] in runs;
    } else {
      FirstErrorIs(runs[1..]);
      var r :| r in runs[1..] && DynamicConcurrencyError(r.concurrency) == FirstConcurrencyError(runs[1..]);
      assert r in runs;
    }
  }

  lemma InventoriesDiffer(runs: seq<BenchmarkRun>, reference: BenchmarkRun)
    requires reference in runs
    ensures (exists r :: r in runs && r.inventory != reference.inventory) <==> !SameInventories(runs)
    ensures (exists r :: r in runs && r.browserRuntime != reference.browserRuntime) <==> !SameRuntimes(runs)
  {
  }

  ghost predicate SameInventories(runs: seq<BenchmarkRun>) {
    forall r, q :: r in runs && q in runs ==> r.inventory == q.inventory
  }

  ghost predicate SameRuntimes(runs: seq<BenchmarkRun>) {
    forall r, q :: r in runs && q in runs ==> r.browserRuntime == q.browserRuntime
  }

  /** Some run of the mode has another concurrency than unset. */
  ghost predicate SomeConfigured(legacy: seq<BenchmarkRun>) {
    exists r :: r in legacy && r.concurrency != Some(Concurrency(false, None, None, None, None))
  }

  ghost predicate SomeConcurrencyError(dynamic: seq<BenchmarkRun>, error: AcceptanceError) {
    exists r :: r in dynamic && DynamicConcurrencyError(r.concurrency) == Some(error)
  }

  ghost predicate AllGreen(runs: seq<BenchmarkRun>) { forall r :: r in runs ==> Green(r) }

  /** Why runs are not comparable: the first check that fails. */
  lemma IncomparableFor(runs: seq<BenchmarkRun>)
    requires !Comparable(runs)
    ensures ValidateAcceptance(runs).Err?
    ensures Misses(runs, ValidateAcceptance(runs).error)
  {
    MetadataExactly(runs);
    MetadataMisses(runs);
  }

  ghost predicate Misses(runs: seq<BenchmarkRun>, error: AcceptanceError) {
    var legacy, dynamic := OfMode(runs, Legacy), OfMode(runs, Dynamic);
    if |legacy| < 3 || |dynamic| < 3 then error == TooFewRuns
    else if |set r | r in runs :: r.gitSha| != 1 then error == GitShasDiffer
    else if |set r | r in runs :: r.runId| != |runs| then error == RunIdsRepeat
    else if !AllGreen(runs) then error == NotGreen
    else if !SameInventories(runs) then error == InventoryDiffers
    else if !SameRuntimes(runs) then error == RuntimeDiffers
    else if SomeConfigured(legacy) then error == LegacyConcurrencyInvalid
    else SomeConcurrencyError(dynamic, error)
  }

  lemma MetadataMisses(runs: seq<BenchmarkRun>)
    requires MetadataError(runs).Some?
    ensures Misses(runs, MetadataError(runs).value)
  {
    var legacy, dynamic := OfMode(runs, Legacy), OfMode(runs, Dynamic);
    if |legacy| < 3 || |dynamic| < 3 {
    } else if |set r | r in runs :: r.gitSha| != 1 || |set r | r in runs :: r.runId| != |runs| {
    } else if !AllGreen(runs) {
    } else {
      FilterElements(runs, (r: BenchmarkRun) => r.mode == Legacy, legacy[0]);
      NotEmpty(runs);
      InventoriesDiffer(runs, legacy[0]);
      InventoriesDiffer(runs, runs[0]);
      if SameInventories(runs) && SameRuntimes(runs) && !SomeConfigured(legacy) {
        assert MetadataError(runs) == FirstConcurrencyError(dynamic);
        FirstErrorIs(dynamic);
      }
    }
  }
}
