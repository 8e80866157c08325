/**
 The strict parser of one job's report (scripts/e2e_scheduler/aggregate_report.py).
 */
module StrictReport {
  import opened Outcomes
  import opened Walks
  import opened Reports

  datatype ReportError =
    | CannotRead | InvalidReport | ReporterErrors | DuplicateProjects | ProjectMissing | RootNotAbsolute
    | OutsideRepository | ForeignFile | ForeignProject | UncleanOutcome | InventoryMismatch | InconsistentProfiles

  /** What the scheduler expects of the job: its project, its file and the ids of its tests. */
  datatype Expectation = Expectation(project: string, specPath: string, testIds: seq<string>)

  datatype ReportedDuration = ReportedDuration(testId: string, specPath: string, seconds: real)

  datatype Tally = Tally(
    actual: seq<string>, skipped: seq<string>, durations: seq<ReportedDuration>, missing: seq<string>)

  const EMPTY := Tally([], [], [], [])

  datatype ReportedJob = ReportedJob(
    testIds: seq<string>, skippedTestIds: seq<string>, durations: seq<ReportedDuration>,
    durationInventoryComplete: bool)

  // ---------------------------------------------------------------------------
  // Validation of the document
  // ---------------------------------------------------------------------------

  predicate ValidAttempt(a: Attempt) {
    a.retry == 0 && (a.duration.Millis? ==> a.duration.value >= 0.0)
  }

  predicate ValidSpec(s: Spec) {
    && s.line > 0
    && forall t :: t in s.tests ==> |t.results| <= 1 && forall a :: a in t.results ==> ValidAttempt(a)
  }

  predicate ValidReport(report: Report) {
    && (forall p :: p in report.projects ==> p.retries == 0)
    && (forall e :: e in Entries(report) ==> ValidSpec(e.spec))
  }

  // ---------------------------------------------------------------------------
  // The specification of the traversal
  // ---------------------------------------------------------------------------

  /** Whether the test was measured: null, absent and zero durations all count as missing. */
  predicate Measured(t: Test)
    requires |t.results| > 0
  {
    t.results[0].duration.Millis? && t.results[0].duration.value > 0.0
  }

  function TakeTest(w: World, job: Expectation, path: string, e: Entry, s: Tally, t: Test): Result<Tally, ReportError> {
    if t.project != job.project then Err(ForeignProject)
    else
      var id := w.idOf(t.project, path, e.spec.line, e.titles + [e.spec.title]);
      if CleanPass(t) then
        if Measured(t) then
          Ok(Tally(s.actual + [id], s.skipped,
                   s.durations + [ReportedDuration(id, path, t.results[0].duration.value / 1000.0)], s.missing))
        else Ok(Tally(s.actual + [id], s.skipped, s.durations, s.missing + [id]))
      else if CleanSkip(t) then Ok(Tally(s.actual + [id], s.skipped + [id], s.durations, s.missing))
      else Err(UncleanOutcome)
  }

  function TestStep(w: World, job: Expectation, path: string, e: Entry): (Tally, Test) -> Result<Tally, ReportError> {
    (s: Tally, t: Test) => TakeTest(w, job, path, e, s, t)
  }

  function TakeEntry(w: World, job: Expectation, root: string, s: Tally, e: Entry): Result<Tally, ReportError> {
    match w.locate(root, e.spec.file)
    case None => Err(OutsideRepository)
    case Some(path) =>
      if path != job.specPath then Err(ForeignFile)
      else Walk(s, e.spec.tests, TestStep(w, job, path, e))
  }

  function EntryStep(w: World, job: Expectation, root: string): (Tally, Entry) -> Result<Tally, ReportError> {
    (s: Tally, e: Entry) => TakeEntry(w, job, root, s, e)
  }

  function Parsed(w: World, job: Expectation, file: Option<Report>): Result<ReportedJob, ReportError> {
    if file.None? then Err(CannotRead)
    else
      var report := file.value;
      var names := Names(report.projects);
      if !ValidReport(report) then Err(InvalidReport)
      else if report.errors != [] then Err(ReporterErrors)
      else if |set n | n in names| != |names| then Err(DuplicateProjects)
      else if job.project !in names then Err(ProjectMissing)
      else if !w.isAbsolute(report.rootDir) then Err(RootNotAbsolute)
      else match Walk(EMPTY, Entries(report), EntryStep(w, job, report.rootDir))
        case Err(e) => Err(e)
        case Ok(s) => Finished(job, s)
  }

  function Finished(job: Expectation, s: Tally): Result<ReportedJob, ReportError> {
    if multiset(job.testIds) != multiset(s.actual) then Err(InventoryMismatch)
    else Ok(ReportedJob(s.actual, s.skipped, s.durations, s.missing == []))
  }

  // ---------------------------------------------------------------------------
  // The parser
  // ---------------------------------------------------------------------------

  /** The walk ended as the call did: with the same error, or in the state the object is in. */
  ghost predicate EndsIn(walk: Result<Tally, ReportError>, error: Option<ReportError>, now: Tally) {
    if walk.Err? then error == Some(walk.error) else error.None? && now == walk.value
  }

  method Outcome(t: Test) returns (r: Result<bool, ReportError>)
    ensures r == if CleanPass(t) then Ok(true) else if CleanSkip(t) then Ok(false) else Err(UncleanOutcome)
  {
    var attempts := Statuses(t.results);
    if t.expected == Passed && t.status == Expected && attempts == [Passed] {
      return Ok(true);
    }
    if t.expected == Skipped && t.status == SkippedTest && (attempts == [] || attempts == [Skipped]) {
      return Ok(false);
    }
    return Err(UncleanOutcome);
  }

  class Collector {
    var actualIds: seq<string>
    var skippedIds: seq<string>
    var durations: seq<ReportedDuration>
    var missingDurationIds: seq<string>

    function Tallied(): Tally
      reads this
    {
      Tally(actualIds, skippedIds, durations, missingDurationIds)
    }

    constructor ()
      ensures Tallied() == EMPTY
    {
      actualIds, skippedIds, durations, missingDurationIds := [], [], [], [];
    }

    method CollectTest(w: World, job: Expectation, path: string, e: Entry, test: Test)
      returns (error: Option<ReportError>)
      modifies this
      ensures EndsIn(TakeTest(w, job, path, e, old(Tallied()), test), error, Tallied())
    {
      if test.project != job.project {
        return Some(ForeignProject);
      }
      var testId := w.idOf(test.project, path, e.spec.line, e.titles + [e.spec.title]);
      var outcome := Outcome(test);
      if outcome.Err? {
        return Some(outcome.error);
      }
      actualIds := actualIds + [testId];
      if !outcome.value {
        skippedIds := skippedIds + [testId];
      } else {
        var duration := test.results[0].duration;
        if !duration.Millis? || duration.value <= 0.0 {
          missingDurationIds := missingDurationIds + [testId];
        } else {
          durations := durations + [ReportedDuration(testId, path, duration.value / 1000.0)];
        }
      }
      return None;
    }

    method CollectSpec(w: World, job: Expectation, root: string, e: Entry) returns (error: Option<ReportError>)
      modifies this
      ensures EndsIn(TakeEntry(w, job, root, old(Tallied()), e), error, Tallied())
    {
      var located := w.locate(root, e.spec.file);
      if located.None? {
        return Some(OutsideRepository);
      }
      var path := located.value;
      if path != job.specPath {
        return Some(ForeignFile);
      }
      ghost var step := TestStep(w, job, path, e);
      var tests := e.spec.tests;
      for i := 0 to |tests|
        invariant Walk(old(Tallied()), tests, step) == Walk(Tallied(), tests[i..], step)
      {
        assert tests[i..][0] == tests[i] && tests[i..][1..] == tests[i + 1..];
        error := CollectTest(w, job, path, e, tests[i]);
        if error.Some? {
          return;
        }
      }
      return None;
    }

    method CollectTests(w: World, job: Expectation, root: string, suite: Suite, parents: seq<string>,
                        includeTitle: bool)
      returns (error: Option<ReportError>)
      modifies this
      ensures EndsIn(Walk(old(Tallied()), SuiteEntries(suite, parents, includeTitle), EntryStep(w, job, root)), error,
                     Tallied())
      decreases suite, 1
    {
      var titles := if includeTitle then parents + [suite.title] else parents;
      ghost var step := EntryStep(w, job, root);
      WalkAppend(Tallied(), SpecEntries(titles, suite.specs), ForestEntries(suite.suites, titles, true), step);
      for i := 0 to |suite.specs|
        invariant Walk(old(Tallied()), SpecEntries(titles, suite.specs), step)
               == Walk(Tallied(), SpecEntries(titles, suite.specs[i..]), step)
      {
        assert suite.specs[i..][1..] == suite.specs[i + 1..];
        error := CollectSpec(w, job, root, Entry(titles, suite.specs[i]));
        if error.Some? {
          return;
        }
      }
      error := CollectChildren(w, job, root, suite, titles);
    }

    method CollectChildren(w: World, job: Expectation, root: string, suite: Suite, titles: seq<string>)
      returns (error: Option<ReportError>)
      modifies this
      ensures EndsIn(Walk(old(Tallied()), ForestEntries(suite.suites, titles, true), EntryStep(w, job, root)), error,
                     Tallied())
      decreases suite, 0
    {
      ghost var step := EntryStep(w, job, root);
      for i := 0 to |suite.suites|
        invariant Walk(old(Tallied()), ForestEntries(suite.suites, titles, true), step)
               == Walk(Tallied(), ForestEntries(suite.suites[i..], titles, true), step)
      {
        assert suite.suites[i..][1..] == suite.suites[i + 1..];
        WalkAppend(Tallied(), SuiteEntries(suite.suites[i], titles, true),
                   ForestEntries(suite.suites[i + 1..], titles, true), step);
        error := CollectTests(w, job, root, suite.suites[i], titles, true);
        if error.Some? {
          return;
        }
      }
      return None;
    }
  }

  method ParseJobReport(w: World, job: Expectation, file: Option<Report>) returns (r: Result<ReportedJob, ReportError>)
    ensures r == Parsed(w, job, file)
  {
    if file.None? {
      return Err(CannotRead);
    }
    var report := file.value;
    if !ValidReport(report) {
      return Err(InvalidReport);
    }
    if report.errors != [] {
      return Err(ReporterErrors);
    }
    var names := Names(report.projects);
    if |set n | n in names| != |names| {
      return Err(DuplicateProjects);
    }
    if job.project !in names {
      return Err(ProjectMissing);
    }
    if !w.isAbsolute(report.rootDir) {
      return Err(RootNotAbsolute);
    }
    var collector := new Collector();
    ghost var step := EntryStep(w, job, report.rootDir);
    var suites := report.suites;
    for i := 0 to |suites|
      invariant Walk(EMPTY, Entries(report), step)
        == Walk(collector.Tallied(), ForestEntries(suites[i..], [], false), step)
    {
      assert suites[i..][1..] == suites[i + 1..];
      WalkAppend(collector.Tallied(), SuiteEntries(suites[i], [], false), ForestEntries(suites[i + 1..], [], false),
                 step);
      var error := collector.CollectTests(w, job, report.rootDir, suites[i], [], false);
      if error.Some? {
        return Err(error.value);
      }
    }
    if multiset(job.testIds) != multiset(collector.actualIds) {
      return Err(InventoryMismatch);
    }
    return Ok(ReportedJob(collector.actualIds, collector.skippedIds, collector.durations,
                          collector.missingDurationIds == []));
  }

  // ---------------------------------------------------------------------------
  // What an accepted report says
  // ---------------------------------------------------------------------------

  predicate Clean(job: Expectation, t: Test) { t.project == job.project && (CleanPass(t) || CleanSkip(t)) }

  predicate CleanEntry(w: World, job: Expectation, root: string, e: Entry) {
    && w.locate(root, e.spec.file) == Some(job.specPath)
    && forall t :: t in e.spec.tests ==> Clean(job, t)
  }

  /** The ids of the tests that `keep` picks out of one entry, in order. */
  function PickedIds(w: World, path: string, e: Entry, tests: seq<Test>, keep: Test -> bool): seq<string> {
    if tests == [] then []
    else if keep(tests[0]) then
      [w.idOf(tests[0].project, path, e.spec.line, e.titles + [e.spec.title])] + PickedIds(w, path, e, tests[1..], keep)
    else PickedIds(w, path, e, tests[1..], keep)
  }

  function Ids(w: World, path: string, entries: seq<Entry>, keep: Test -> bool): seq<string> {
    if entries == [] then []
    else PickedIds(w, path, entries[0], entries[0].spec.tests, keep) + Ids(w, path, entries[1..], keep)
  }

  function Every(): Test -> bool { (t: Test) => true }
  function Skips(): Test -> bool { (t: Test) => CleanSkip(t) }
  function Unmeasured(): Test -> bool { (t: Test) => CleanPass(t) && !Measured(t) }
  function Timed(): Test -> bool { (t: Test) => CleanPass(t) && Measured(t) }

  function DurationIds(ds: seq<ReportedDuration>): seq<string> {
    if ds == [] then [] else DurationIds(ds[..|ds| - 1]) + [ds[|ds| - 1].testId]
  }

  function Seconds(ds: seq<ReportedDuration>): seq<real> {
    if ds == [] then [] else Seconds(ds[..|ds| - 1]) + [ds[|ds| - 1].seconds]
  }

  /** The measured times in seconds, in order; reports give milliseconds. */
  function TestTimes(tests: seq<Test>): seq<real> {
    if tests == [] then []
    else if CleanPass(tests[0]) && Measured(tests[0]) then
      [tests[0].results[0].duration.value / 1000.0] + TestTimes(tests[1..])
    else TestTimes(tests[1..])
  }

  function Times(entries: seq<Entry>): seq<real> {
    if entries == [] then [] else TestTimes(entries[0].spec.tests) + Times(entries[1..])
  }

  /** `r` is `s` with the picked ids added to each list, and the times to the durations. */
  ghost predicate Adds(s: Tally, r: Tally, path: string, ids: (Test -> bool) -> seq<string>, times: seq<real>) {
    && Seconds(r.durations) == Seconds(s.durations) + times
    && (forall d :: d in r.durations ==> d in s.durations || d.specPath == path)
    && r.actual == s.actual + ids(Every())
    && r.skipped == s.skipped + ids(Skips())
    && r.missing == s.missing + ids(Unmeasured())
    && DurationIds(r.durations) == DurationIds(s.durations) + ids(Timed())
  }

  function IdsOfTests(w: World, path: string, e: Entry, tests: seq<Test>): (Test -> bool) -> seq<string> {
    (keep: Test -> bool) => PickedIds(w, path, e, tests, keep)
  }

  function IdsOfEntries(w: World, path: string, entries: seq<Entry>): (Test -> bool) -> seq<string> {
    (keep: Test -> bool) => Ids(w, path, entries, keep)
  }

  lemma PickedOne(w: World, path: string, e: Entry, t: Test, keep: Test -> bool)
    ensures PickedIds(w, path, e, [t], keep)
      == if keep(t) then [w.idOf(t.project, path, e.spec.line, e.titles + [e.spec.title])] else []
  {
    assert [t][1..] == [];
  }

  lemma DurationAppended(ds: seq<ReportedDuration>, d: ReportedDuration)
    ensures Seconds(ds + [d]) == Seconds(ds) + [d.seconds]
    ensures DurationIds(ds + [d]) == DurationIds(ds) + [d.testId]
  {
    assert (ds + [d])[..|ds|] == ds;
  }

  lemma TimesOfOne(t: Test)
    ensures TestTimes([t])
      == if CleanPass(t) && Measured(t) then [t.results[0].duration.value / 1000.0] else []
  {
    assert [t][1..] == [];
  }

  lemma OneTime(w: World, job: Expectation, path: string, e: Entry, s: Tally, t: Test)
    requires Clean(job, t)
    ensures var r := TakeTest(w, job, path, e, s, t);
      && r.Ok? && Seconds(r.value.durations) == Seconds(s.durations) + TestTimes([t])
      && DurationIds(r.value.durations) == DurationIds(s.durations) + PickedIds(w, path, e, [t], Timed())
      && (forall d :: d in r.value.durations ==> d in s.durations || d.specPath == path)
  {
    TimesOfOne(t);
    PickedOne(w, path, e, t, Timed());
    if CleanPass(t) && Measured(t) {
      var id := w.idOf(t.project, path, e.spec.line, e.titles + [e.spec.title]);
      DurationAppended(s.durations, ReportedDuration(id, path, t.results[0].duration.value / 1000.0));
    }
  }

  lemma OneTest(w: World, job: Expectation, path: string, e: Entry, s: Tally, t: Test)
    ensures TakeTest(w, job, path, e, s, t).Ok? <==> Clean(job, t)
    ensures Clean(job, t) ==>
      Adds(s, TakeTest(w, job, path, e, s, t).value, path, IdsOfTests(w, path, e, [t]), TestTimes([t]))
  {
    if Clean(job, t) {
      OneTime(w, job, path, e, s, t);
      PickedOne(w, path, e, t, Every());
      PickedOne(w, path, e, t, Skips());
      PickedOne(w, path, e, t, Unmeasured());
    }
  }

  /** Which tests are clean: passed as expected or skipped as expected, in at most one attempt. */
  lemma CleanExactly(job: Expectation, t: Test)
    ensures var passed :=
              t.expected == Passed && t.status == Expected && |t.results| == 1 && t.results[0].status == Passed;
      var skipped := t.expected == Skipped && t.status == SkippedTest
                     && (t.results == [] || (|t.results| == 1 && t.results[0].status == Skipped));
      Clean(job, t) <==> t.project == job.project && (passed || skipped)
  {
    if |t.results| == 1 {
      assert Statuses(t.results) == [t.results[0].status];
    }
  }

  /** A clean pass is timed exactly when its one attempt has a positive duration. */
  lemma TimedExactly(t: Test)
    ensures Timed()(t)
      <==> CleanPass(t) && |t.results| == 1 && t.results[0].duration.Millis? && t.results[0].duration.value > 0.0
    ensures Unmeasured()(t) <==> CleanPass(t) && !Timed()(t)
  {
    if CleanPass(t) {
      assert |Statuses(t.results)| == 1;
    }
  }

  /** Which documents are valid: no retries are configured or used, no test has two attempts, and durations are absent,
      null or not negative. */
  lemma ValidExactly(report: Report)
    ensures ValidReport(report)
      <==> (&& (forall p :: p in report.projects ==> p.retries == 0)
            && (forall e :: e in Entries(report) ==> e.spec.line > 0)
            && (forall e, t :: e in Entries(report) && t in e.spec.tests ==> |t.results| <= 1)
            && (forall e, t, a :: e in Entries(report) && t in e.spec.tests && a in t.results ==>
                  a.retry == 0 && (a.duration.Absent? || a.duration.Null? || a.duration.value >= 0.0)))
  {
    if ValidReport(report) {
      forall e | e in Entries(report) ensures ValidSpec(e.spec) { }
    }
  }

  lemma PickedSplit(w: World, path: string, e: Entry, tests: seq<Test>, keep: Test -> bool)
    requires tests != []
    ensures PickedIds(w, path, e, tests, keep)
      == PickedIds(w, path, e, [tests[0]], keep) + PickedIds(w, path, e, tests[1..], keep)
  {
    assert [tests[0]][1..] == [];
  }

  lemma AddsChain(s: Tally, m: Tally, r: Tally, path: string, first: (Test -> bool) -> seq<string>,
                  firstTimes: seq<real>, rest: (Test -> bool) -> seq<string>, restTimes: seq<real>,
                  all: (Test -> bool) -> seq<string>)
    requires Adds(s, m, path, first, firstTimes) && Adds(m, r, path, rest, restTimes)
    requires forall keep <- [Every(), Skips(), Unmeasured(), Timed()] :: all(keep) == first(keep) + rest(keep)
    ensures Adds(s, r, path, all, firstTimes + restTimes)
  {
    var keeps := [Every(), Skips(), Unmeasured(), Timed()];
    assert keeps[0] == Every() && keeps[1] == Skips() && keeps[2] == Unmeasured() && keeps[3] == Timed();
    forall keep | keep in keeps ensures all(keep) == first(keep) + rest(keep) { }
  }

  lemma TestsChain(w: World, path: string, e: Entry, s: Tally, m: Tally, r: Tally, tests: seq<Test>)
    requires tests != []
    requires Adds(s, m, path, IdsOfTests(w, path, e, [tests[0]]), TestTimes([tests[0]]))
    requires Adds(m, r, path, IdsOfTests(w, path, e, tests[1..]), TestTimes(tests[1..]))
    ensures Adds(s, r, path, IdsOfTests(w, path, e, tests), TestTimes(tests))
  {
    forall keep: Test -> bool { PickedSplit(w, path, e, tests, keep); }
    assert [tests[0]][1..] == [];
    assert TestTimes(tests) == TestTimes([tests[0]]) + TestTimes(tests[1..]);
    AddsChain(s, m, r, path, IdsOfTests(w, path, e, [tests[0]]), TestTimes([tests[0]]),
              IdsOfTests(w, path, e, tests[1..]), TestTimes(tests[1..]), IdsOfTests(w, path, e, tests));
  }

  lemma {:induction false} TestsTaken(w: World, job: Expectation, path: string, e: Entry, s: Tally, tests: seq<Test>)
    ensures Walk(s, tests, TestStep(w, job, path, e)).Ok? <==> forall t :: t in tests ==> Clean(job, t)
    ensures Walk(s, tests, TestStep(w, job, path, e)).Ok?
      ==> Adds(s, Walk(s, tests, TestStep(w, job, path, e)).value, path, IdsOfTests(w, path, e, tests),
               TestTimes(tests))
    decreases |tests|
  {
    if tests != [] {
      OneTest(w, job, path, e, s, tests[0]);
      if Clean(job, tests[0]) {
        var m := TakeTest(w, job, path, e, s, tests[0]).value;
        TestsTaken(w, job, path, e, m, tests[1..]);
        if forall t :: t in tests[1..] ==> Clean(job, t) {
          TestsChain(w, path, e, s, m, Walk(m, tests[1..], TestStep(w, job, path, e)).value, tests);
        }
      } else {
        assert tests[0] in tests;
      }
    }
  }

  lemma {:induction false} EntriesTaken(w: World, job: Expectation, root: string, s: Tally, es: seq<Entry>)
    ensures Walk(s, es, EntryStep(w, job, root)).Ok? <==> forall e :: e in es ==> CleanEntry(w, job, root, e)
    ensures Walk(s, es, EntryStep(w, job, root)).Ok?
      ==> Adds(s, Walk(s, es, EntryStep(w, job, root)).value, job.specPath, IdsOfEntries(w, job.specPath, es),
               Times(es))
    decreases |es|
  {
    if es != [] {
      var e := es[0];
      TestsTaken(w, job, job.specPath, e, s, e.spec.tests);
      if CleanEntry(w, job, root, e) {
        var m := TakeEntry(w, job, root, s, e).value;
        EntriesTaken(w, job, root, m, es[1..]);
        if forall e :: e in es[1..] ==> CleanEntry(w, job, root, e) {
          AddsChain(s, m, Walk(m, es[1..], EntryStep(w, job, root)).value, job.specPath,
                    IdsOfTests(w, job.specPath, e, e.spec.tests), TestTimes(e.spec.tests),
                    IdsOfEntries(w, job.specPath, es[1..]), Times(es[1..]), IdsOfEntries(w, job.specPath, es));
        }
      } else {
        assert e in es;
      }
    }
  }

  // Every id belongs to exactly one of the three kinds.

  lemma {:induction false} PickedKinds(w: World, job: Expectation, e: Entry, tests: seq<Test>, id: string)
    requires forall t :: t in tests ==> Clean(job, t)
    ensures multiset(PickedIds(w, job.specPath, e, tests, Every()))[id]
      == multiset(PickedIds(w, job.specPath, e, tests, Skips()))[id]
       + multiset(PickedIds(w, job.specPath, e, tests, Unmeasured()))[id]
       + multiset(PickedIds(w, job.specPath, e, tests, Timed()))[id]
    decreases |tests|
  {
    if tests != [] {
      assert Clean(job, tests[0]);
      PickedKinds(w, job, e, tests[1..], id);
    }
  }

  lemma {:induction false} IdKinds(w: World, job: Expectation, root: string, es: seq<Entry>, id: string)
    requires forall e :: e in es ==> CleanEntry(w, job, root, e)
    ensures multiset(Ids(w, job.specPath, es, Every()))[id]
      == multiset(Ids(w, job.specPath, es, Skips()))[id]
       + multiset(Ids(w, job.specPath, es, Unmeasured()))[id] + multiset(Ids(w, job.specPath, es, Timed()))[id]
    decreases |es|
  {
    if es != [] {
      assert CleanEntry(w, job, root, es[0]);
      PickedKinds(w, job, es[0], es[0].spec.tests, id);
      IdKinds(w, job, root, es[1..], id);
    }
  }

  /** A report is accepted exactly when it is valid, names the job's project once, and every test at any depth
      is in the job's file, of the job's project, clean, and expected as often as it is reported. */
  lemma AcceptedExactly(w: World, job: Expectation, report: Report)
    ensures Parsed(w, job, Some(report)).Ok?
      <==> (&& ValidReport(report) && report.errors == []
            && |set n | n in Names(report.projects)| == |report.projects| && job.project in Names(report.projects)
            && w.isAbsolute(report.rootDir)
            && (forall e :: e in Entries(report) ==> CleanEntry(w, job, report.rootDir, e))
            && multiset(job.testIds) == multiset(Ids(w, job.specPath, Entries(report), Every())))
  {
    EntriesTaken(w, job, report.rootDir, EMPTY, Entries(report));
    var walk := Walk(EMPTY, Entries(report), EntryStep(w, job, report.rootDir));
    if walk.Ok? {
      assert walk.value.actual == Ids(w, job.specPath, Entries(report), Every());
    }
  }

  lemma KindsAddUp(w: World, job: Expectation, root: string, es: seq<Entry>)
    requires forall e :: e in es ==> CleanEntry(w, job, root, e)
    ensures multiset(Ids(w, job.specPath, es, Every()))
      == multiset(Ids(w, job.specPath, es, Skips())) + multiset(Ids(w, job.specPath, es, Timed()))
       + multiset(Ids(w, job.specPath, es, Unmeasured()))
  {
    var all, skips := Ids(w, job.specPath, es, Every()), Ids(w, job.specPath, es, Skips());
    var timed, missing := Ids(w, job.specPath, es, Timed()), Ids(w, job.specPath, es, Unmeasured());
    forall id ensures multiset(all)[id] == multiset(skips)[id] + multiset(timed)[id] + multiset(missing)[id] {
      IdKinds(w, job, root, es, id);
    }
  }

  lemma FinishedContents(job: Expectation, s: Tally, ids: (Test -> bool) -> seq<string>, times: seq<real>)
    requires Adds(EMPTY, s, job.specPath, ids, times) && Finished(job, s).Ok?
    ensures var r := Finished(job, s).value;
      && r.testIds == ids(Every()) && r.skippedTestIds == ids(Skips())
      && DurationIds(r.durations) == ids(Timed()) && Seconds(r.durations) == times
      && (forall d :: d in r.durations ==> d.specPath == job.specPath)
      && (r.durationInventoryComplete <==> ids(Unmeasured()) == [])
      && multiset(r.testIds) == multiset(job.testIds)
  {
  }

  /** What an accepted job reports: its ids in the order of the traversal, the skipped ones among them, and every
      other test either timed or missing, so the inventory of durations is complete exactly when none is missing. */
  lemma AcceptedContents(w: World, job: Expectation, report: Report)
    requires Parsed(w, job, Some(report)).Ok?
    ensures var r, es, path := Parsed(w, job, Some(report)).value, Entries(report), job.specPath;
      && r.testIds == Ids(w, path, es, Every())
      && r.skippedTestIds == Ids(w, path, es, Skips())
      && DurationIds(r.durations) == Ids(w, path, es, Timed()) && Seconds(r.durations) == Times(es)
      && (forall d :: d in r.durations ==> d.specPath == path)
      && (r.durationInventoryComplete <==> Ids(w, path, es, Unmeasured()) == [])
      && multiset(r.testIds) == multiset(job.testIds)
      && multiset(r.testIds) == multiset(r.skippedTestIds) + multiset(DurationIds(r.durations))
                              + multiset(Ids(w, path, es, Unmeasured()))
  {
    EntriesTaken(w, job, report.rootDir, EMPTY, Entries(report));
    var s := Walk(EMPTY, Entries(report), EntryStep(w, job, report.rootDir)).value;
    FinishedContents(job, s, IdsOfEntries(w, job.specPath, Entries(report)), Times(Entries(report)));
    KindsAddUp(w, job, report.rootDir, Entries(report));
  }

  /** The skipped ids are among the reported ones, counted with repetitions. */
  lemma SkippedAreReported(w: World, job: Expectation, file: Option<Report>)
    requires Parsed(w, job, file).Ok?
    ensures var r := Parsed(w, job, file).value;
      multiset(r.testIds) == multiset(job.testIds) && multiset(r.skippedTestIds) <= multiset(r.testIds)
      && |r.skippedTestIds| <= |r.testIds|
  {
    AcceptedContents(w, job, file.value);
    var r := Parsed(w, job, file).value;
    assert |multiset(r.skippedTestIds)| <= |multiset(r.testIds)|;
  }

  /** The error of one test, and of one entry: the first check that fails. */
  function TestFault(job: Expectation, t: Test): ReportError {
    if t.project != job.project then ForeignProject else UncleanOutcome
  }

  ghost predicate EntryFault(w: World, job: Expectation, root: string, e: Entry, error: ReportError) {
    var located := w.locate(root, e.spec.file);
    if located.None? then error == OutsideRepository
    else if located.value != job.specPath then error == ForeignFile
    else exists i :: 0 <= i < |e.spec.tests| && !Clean(job, e.spec.tests[i]) && error == TestFault(job, e.spec.tests[i])
                     && forall k :: 0 <= k < i ==> Clean(job, e.spec.tests[k])
  }

  lemma {:induction false} TestsRefused(w: World, job: Expectation, path: string, e: Entry, s: Tally, tests: seq<Test>)
    returns (i: nat)
    requires Walk(s, tests, TestStep(w, job, path, e)).Err?
    ensures i < |tests| && !Clean(job, tests[i]) && forall k :: 0 <= k < i ==> Clean(job, tests[k])
    ensures Walk(s, tests, TestStep(w, job, path, e)).error == TestFault(job, tests[i])
    decreases |tests|
  {
    OneTest(w, job, path, e, s, tests[0]);
    if Clean(job, tests[0]) {
      i := TestsRefused(w, job, path, e, TakeTest(w, job, path, e, s, tests[0]).value, tests[1..]);
      assert forall k :: 0 < k <= i ==> tests[k] == tests[1..][k - 1];
      i := i + 1;
    } else {
      i := 0;
    }
  }

  lemma {:induction false} EntriesRefused(w: World, job: Expectation, root: string, s: Tally, es: seq<Entry>)
    returns (i: nat)
    requires Walk(s, es, EntryStep(w, job, root)).Err?
    ensures i < |es| && forall k :: 0 <= k < i ==> CleanEntry(w, job, root, es[k])
    ensures !CleanEntry(w, job, root, es[i])
    ensures EntryFault(w, job, root, es[i], Walk(s, es, EntryStep(w, job, root)).error)
    decreases |es|
  {
    var e := es[0];
    TestsTaken(w, job, job.specPath, e, s, e.spec.tests);
    if CleanEntry(w, job, root, e) {
      i := EntriesRefused(w, job, root, TakeEntry(w, job, root, s, e).value, es[1..]);
      assert forall k :: 0 < k <= i ==> es[k] == es[1..][k - 1];
      i := i + 1;
    } else {
      i := 0;
      if w.locate(root, e.spec.file) == Some(job.specPath) {
        var n := TestsRefused(w, job, job.specPath, e, s, e.spec.tests);
      }
    }
  }

  /** Why a report is refused: the first check that fails; in the tree, the first entry in the order of the traversal
      and there the first test. */
  lemma RefusedFor(w: World, job: Expectation, file: Option<Report>)
    requires Parsed(w, job, file).Err?
    ensures var error := Parsed(w, job, file).error;
      if file.None? then error == CannotRead
      else
        var report := file.value;
        if !ValidReport(report) then error == InvalidReport
        else if report.errors != [] then error == ReporterErrors
        else if |set n | n in Names(report.projects)| != |report.projects| then error == DuplicateProjects
        else if job.project !in Names(report.projects) then error == ProjectMissing
        else if !w.isAbsolute(report.rootDir) then error == RootNotAbsolute
        else if forall e :: e in Entries(report) ==> CleanEntry(w, job, report.rootDir, e) then
          error == InventoryMismatch
        else exists i :: 0 <= i < |Entries(report)| && !CleanEntry(w, job, report.rootDir, Entries(report)[i])
                         && EntryFault(w, job, report.rootDir, Entries(report)[i], error)
                         && forall k :: 0 <= k < i ==> CleanEntry(w, job, report.rootDir, Entries(report)[k])
  {
    if file.Some? {
      var report := file.value;
      EntriesTaken(w, job, report.rootDir, EMPTY, Entries(report));
      if Walk(EMPTY, Entries(report), EntryStep(w, job, report.rootDir)).Err? {
        var i := EntriesRefused(w, job, report.rootDir, EMPTY, Entries(report));
      }
    }
  }

  /** A report with one passed test is accepted, also with a null duration. */
  lemma OneTestAccepted(w: World, root: string, file: string, path: string, project: string, duration: Duration)
    requires w.isAbsolute(root) && w.locate(root, file) == Some(path) && (duration.Millis? ==> duration.value >= 0.0)
    ensures Parsed(w, Expectation(project, path, [w.idOf(project, path, 1, [""])]),
                   Some(OneTestReport(root, file, project, duration))).Ok?
  {
    var job := Expectation(project, path, [w.idOf(project, path, 1, [""])]);
    var report, spec := OneTestReport(root, file, project, duration), OneTestSpec(file, project, duration);
    OneEntry(root, file, project, duration);
    var e := Entry([], spec);
    var test := spec.tests[0];
    assert spec.tests == [test];
    assert Statuses(test.results) == [Passed];
    assert Names(report.projects) == [project];
    assert (set n | n in [project]) == {project};
    PickedOne(w, path, e, test, Every());
    assert Ids(w, path, [e], Every()) == [w.idOf(project, path, 1, [""])] by {
      assert [e][1..] == [];
      assert [] + [""] == [""];
    }
    AcceptedExactly(w, job, report);
  }
}
