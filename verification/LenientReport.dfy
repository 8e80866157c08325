/**
 The inventory parser of the benchmark (scripts/e2e_scheduler/benchmark_report.py), and what it makes of the
 reports that the strict parser accepts.
 */
module LenientReport {
  import opened Outcomes
  import opened Sorting
  import opened Counting
  import opened Walks
  import opened Reports
  import StrictReport

  datatype InventoryError =
    | CannotRead | InvalidReport | ReporterErrors | OutsideRepository | DuplicateProjects | UnknownProjects

  datatype Outcome = Pass | Skip | Fail | Interrupt

  datatype Tally = Tally(
    tests: seq<string>, skipped: seq<string>, projects: seq<string>, durations: seq<real>, outcomes: seq<Outcome>)

  const EMPTY := Tally([], [], [], [], [])

  datatype PlaywrightInventory = PlaywrightInventory(
    testIds: seq<string>, skippedTestIds: seq<string>, projects: set<string>, durationsSeconds: seq<real>,
    passed: nat, failed: nat, skipped: nat, interrupted: nat)

  /** A missing duration is zero, but an explicit null is not a number; retries are allowed. */
  predicate ValidAttempt(a: Attempt) {
    a.retry >= 0 && !a.duration.Null? && (a.duration.Millis? ==> a.duration.value >= 0.0)
  }

  predicate ValidSpec(s: Spec) {
    s.line > 0 && forall t :: t in s.tests ==> forall a :: a in t.results ==> ValidAttempt(a)
  }

  predicate ValidReport(report: Report) {
    && (forall p :: p in report.projects ==> p.retries == 0)
    && (forall e :: e in Entries(report) ==> ValidSpec(e.spec))
  }

  function Classify(t: Test): Outcome {
    if CleanPass(t) then Pass
    else if CleanSkip(t) then Skip
    else if Interrupted in Statuses(t.results) then Interrupt
    else Fail
  }

  function Seconds(attempts: seq<Attempt>): (times: seq<real>)
    ensures |times| == |attempts|
    ensures forall i :: 0 <= i < |times| ==>
      times[i] == if attempts[i].duration.Millis? then attempts[i].duration.value / 1000.0 else 0.0
  {
    if attempts == [] then []
    else [if attempts[0].duration.Millis? then attempts[0].duration.value / 1000.0 else 0.0] + Seconds(attempts[1..])
  }

  function TakeTest(w: World, path: string, e: Entry, s: Tally, t: Test): Result<Tally, InventoryError> {
    var id := w.idOf(t.project, path, e.spec.line, e.titles + [e.spec.title]);
    Ok(Tally(s.tests + [id], if Classify(t) == Skip then s.skipped + [id] else s.skipped,
             s.projects + [t.project], s.durations + Seconds(t.results), s.outcomes + [Classify(t)]))
  }

  function TestStep(w: World, path: string, e: Entry): (Tally, Test) -> Result<Tally, InventoryError> {
    (s: Tally, t: Test) => TakeTest(w, path, e, s, t)
  }

  function TakeEntry(w: World, root: string, s: Tally, e: Entry): Result<Tally, InventoryError> {
    match w.locate(root, e.spec.file)
    case None => Err(OutsideRepository)
    case Some(path) => Walk(s, e.spec.tests, TestStep(w, path, e))
  }

  function EntryStep(w: World, root: string): (Tally, Entry) -> Result<Tally, InventoryError> {
    (s: Tally, e: Entry) => TakeEntry(w, root, s, e)
  }

  function RootOf(w: World, report: Report): string {
    if w.isAbsolute(report.rootDir) then report.rootDir else w.inRepository(report.rootDir)
  }

  function Count(outcomes: seq<Outcome>, o: Outcome): nat { multiset(outcomes)[o] }

  function Finished(w: World, configured: seq<string>, s: Tally): Result<PlaywrightInventory, InventoryError> {
    if |set n | n in configured| != |configured| then Err(DuplicateProjects)
    else if exists p :: p in s.projects && p !in configured then Err(UnknownProjects)
    else Ok(PlaywrightInventory(
              Sort(s.tests, w.le), Sort(s.skipped, w.le), (set p | p in s.projects), s.durations,
              Count(s.outcomes, Pass), Count(s.outcomes, Fail), Count(s.outcomes, Skip), Count(s.outcomes, Interrupt)))
  }

  function Parsed(w: World, file: Option<Report>): Result<PlaywrightInventory, InventoryError> {
    if file.None? then Err(CannotRead)
    else
      var report := file.value;
      if !ValidReport(report) then Err(InvalidReport)
      else if report.errors != [] then Err(ReporterErrors)
      else match Walk(EMPTY, Entries(report), EntryStep(w, RootOf(w, report)))
        case Err(e) => Err(e)
        case Ok(s) => Finished(w, Names(report.projects), s)
  }

  // ---------------------------------------------------------------------------
  // The parser
  // ---------------------------------------------------------------------------

  ghost predicate EndsIn(walk: Result<Tally, InventoryError>, error: Option<InventoryError>, now: Tally) {
    if walk.Err? then error == Some(walk.error) else error.None? && now == walk.value
  }

  class Collector {
    var tests: seq<string>
    var skipped: seq<string>
    var projects: seq<string>
    var durations: seq<real>
    var outcomes: seq<Outcome>

    function Tallied(): Tally
      reads this
    {
      Tally(tests, skipped, projects, durations, outcomes)
    }

    constructor ()
      ensures Tallied() == EMPTY
    {
      tests, skipped, projects, durations, outcomes := [], [], [], [], [];
    }

    method CollectSpec(w: World, root: string, e: Entry) returns (error: Option<InventoryError>)
      modifies this
      ensures EndsIn(TakeEntry(w, root, old(Tallied()), e), error, Tallied())
    {
      var located := w.locate(root, e.spec.file);
      if located.None? {
        return Some(OutsideRepository);
      }
      ghost var step := TestStep(w, located.value, e);
      var tests := e.spec.tests;
      for i := 0 to |tests|
        invariant Walk(old(Tallied()), tests, step) == Walk(Tallied(), tests[i..], step)
      {
        assert tests[i..][0] == tests[i] && tests[i..][1..] == tests[i + 1..];
        var test := tests[i];
        var status := Classify(test);
        var testId := w.idOf(test.project, located.value, e.spec.line, e.titles + [e.spec.title]);
        this.tests := this.tests + [testId];
        projects := projects + [test.project];
        outcomes := outcomes + [status];
        if status == Skip {
          skipped := skipped + [testId];
        }
        durations := durations + Seconds(test.results);
      }
      return None;
    }

    method Collect(w: World, root: string, suite: Suite, parents: seq<string>, includeTitle: bool)
      returns (error: Option<InventoryError>)
      modifies this
      ensures EndsIn(Walk(old(Tallied()), SuiteEntries(suite, parents, includeTitle), EntryStep(w, root)), error,
                     Tallied())
      decreases suite, 1
    {
      var titles := if includeTitle then parents + [suite.title] else parents;
      ghost var step := EntryStep(w, root);
      WalkAppend(Tallied(), SpecEntries(titles, suite.specs), ForestEntries(suite.suites, titles, true), step);
      for i := 0 to |suite.specs|
        invariant Walk(old(Tallied()), SpecEntries(titles, suite.specs), step)
               == Walk(Tallied(), SpecEntries(titles, suite.specs[i..]), step)
      {
        assert suite.specs[i..][1..] == suite.specs[i + 1..];
        error := CollectSpec(w, root, Entry(titles, suite.specs[i]));
        if error.Some? {
          return;
        }
      }
      error := CollectChildren(w, root, suite, titles);
    }

    method CollectChildren(w: World, root: string, suite: Suite, titles: seq<string>)
      returns (error: Option<InventoryError>)
      modifies this
      ensures EndsIn(Walk(old(Tallied()), ForestEntries(suite.suites, titles, true), EntryStep(w, root)), error,
                     Tallied())
      decreases suite, 0
    {
      ghost var step := EntryStep(w, root);
      for i := 0 to |suite.suites|
        invariant Walk(old(Tallied()), ForestEntries(suite.suites, titles, true), step)
               == Walk(Tallied(), ForestEntries(suite.suites[i..], titles, true), step)
      {
        assert suite.suites[i..][1..] == suite.suites[i + 1..];
        WalkAppend(Tallied(), SuiteEntries(suite.suites[i], titles, true),
                   ForestEntries(suite.suites[i + 1..], titles, true), step);
        error := Collect(w, root, suite.suites[i], titles, true);
        if error.Some? {
          return;
        }
      }
      return None;
    }
  }

  method ParsePlaywrightInventory(w: World, file: Option<Report>)
    returns (r: Result<PlaywrightInventory, InventoryError>)
    ensures r == Parsed(w, file)
  {
    if file.None? {
      return Err(CannotRead);
    }
    var report := file.value;
    if !ValidReport(report) {
      return Err(InvalidReport);
    }
    if report.errors != [] {
      return Err(ReporterErrors);
    }
    var root := if w.isAbsolute(report.rootDir) then report.rootDir else w.inRepository(report.rootDir);
    var collector := new Collector();
    ghost var step := EntryStep(w, root);
    var suites := report.suites;
    for i := 0 to |suites|
      invariant Walk(EMPTY, Entries(report), step)
        == Walk(collector.Tallied(), ForestEntries(suites[i..], [], false), step)
    {
      assert suites[i..][1..] == suites[i + 1..];
      WalkAppend(collector.Tallied(), SuiteEntries(suites[i], [], false), ForestEntries(suites[i + 1..], [], false),
                 step);
      var error := collector.Collect(w, root, suites[i], [], false);
      if error.Some? {
        return Err(error.value);
      }
    }
    return Finished(w, Names(report.projects), collector.Tallied());
  }

  // ---------------------------------------------------------------------------
  // What the inventory says of the report
  // ---------------------------------------------------------------------------

  /** How a test is classified. */
  lemma ClassifyExactly(t: Test)
    ensures Classify(t) == Pass
      <==> t.expected == Passed && t.status == Expected && |t.results| == 1 && t.results[0].status == Passed
    ensures Classify(t) == Skip
      <==> t.expected == Skipped && t.status == SkippedTest
           && (t.results == [] || (|t.results| == 1 && t.results[0].status == Skipped))
    ensures Classify(t) == Interrupt
      <==> Classify(t) != Pass && Classify(t) != Skip && exists a :: a in t.results && a.status == Interrupted
  {
    if |t.results| == 1 {
      assert Statuses(t.results) == [t.results[0].status];
    }
    if Interrupted in Statuses(t.results) {
      var i :| 0 <= i < |t.results| && Statuses(t.results)[i] == Interrupted;
      assert t.results[i] in t.results;
    }
    if a :| a in t.results && a.status == Interrupted {
      var i :| 0 <= i < |t.results| && t.results[i] == a;
      assert Statuses(t.results)[i] == Interrupted;
    }
  }

  ghost function PathOf(w: World, root: string, e: Entry): string {
    if w.locate(root, e.spec.file).Some? then w.locate(root, e.spec.file).value else ""
  }

  /** The ids of the tests of an entry that are picked, in order. */
  ghost function IdsOf(w: World, root: string, keep: Test -> bool): Entry -> seq<string> {
    (e: Entry) => StrictReport.PickedIds(w, PathOf(w, root, e), e, e.spec.tests, keep)
  }

  ghost function ProjectsOf(): Entry -> seq<string> {
    (e: Entry) => TestProjects(e.spec.tests)
  }

  ghost function OutcomesOf(): Entry -> seq<Outcome> {
    (e: Entry) => TestOutcomes(e.spec.tests)
  }

  function SecondsOf(): Test -> seq<real> { (t: Test) => Seconds(t.results) }

  ghost function TimesOf(): Entry -> seq<real> { (e: Entry) => Flat(e.spec.tests, SecondsOf()) }

  ghost function TestProjects(tests: seq<Test>): seq<string> {
    seq(|tests|, k requires 0 <= k < |tests| => tests[k].project)
  }

  ghost function TestOutcomes(tests: seq<Test>): seq<Outcome> {
    seq(|tests|, k requires 0 <= k < |tests| => Classify(tests[k]))
  }

  ghost function Gathered(w: World, path: string, e: Entry, s: Tally, tests: seq<Test>): Tally {
    Tally(s.tests + StrictReport.PickedIds(w, path, e, tests, StrictReport.Every()),
          s.skipped + StrictReport.PickedIds(w, path, e, tests, StrictReport.Skips()),
          s.projects + TestProjects(tests), s.durations + Flat(tests, SecondsOf()), s.outcomes + TestOutcomes(tests))
  }

  lemma Regroup<T>(a: seq<T>, b: seq<T>, c: seq<T>)
    ensures a + (b + c) == (a + b) + c
  {
  }

  lemma FirstId(w: World, path: string, e: Entry, tests: seq<Test>, keep: Test -> bool, before: seq<string>)
    requires tests != []
    ensures before + StrictReport.PickedIds(w, path, e, tests, keep)
      == (if keep(tests[0]) then
            before + [w.idOf(tests[0].project, path, e.spec.line, e.titles + [e.spec.title])]
          else before) + StrictReport.PickedIds(w, path, e, tests[1..], keep)
  {
    var rest := StrictReport.PickedIds(w, path, e, tests[1..], keep);
    Regroup(before, [w.idOf(tests[0].project, path, e.spec.line, e.titles + [e.spec.title])], rest);
  }

  lemma FirstOfRest(tests: seq<Test>, projects: seq<string>, outcomes: seq<Outcome>, times: seq<real>)
    requires tests != []
    ensures projects + TestProjects(tests) == (projects + [tests[0].project]) + TestProjects(tests[1..])
    ensures outcomes + TestOutcomes(tests) == (outcomes + [Classify(tests[0])]) + TestOutcomes(tests[1..])
    ensures times + Flat(tests, SecondsOf()) == (times + Seconds(tests[0].results)) + Flat(tests[1..], SecondsOf())
  {
    assert TestProjects(tests) == [tests[0].project] + TestProjects(tests[1..]);
    assert TestOutcomes(tests) == [Classify(tests[0])] + TestOutcomes(tests[1..]);
    Regroup(projects, [tests[0].project], TestProjects(tests[1..]));
    Regroup(outcomes, [Classify(tests[0])], TestOutcomes(tests[1..]));
    Regroup(times, Seconds(tests[0].results), Flat(tests[1..], SecondsOf()));
  }

  lemma GatheredStep(w: World, path: string, e: Entry, s: Tally, tests: seq<Test>)
    requires tests != []
    ensures Gathered(w, path, e, s, tests)
      == Gathered(w, path, e, TakeTest(w, path, e, s, tests[0]).value, tests[1..])
  {
    FirstId(w, path, e, tests, StrictReport.Every(), s.tests);
    FirstId(w, path, e, tests, StrictReport.Skips(), s.skipped);
    FirstOfRest(tests, s.projects, s.outcomes, s.durations);
    SkipsAreSkipped(tests[0]);
  }

  lemma NoneGathered(w: World, path: string, e: Entry, s: Tally)
    ensures Gathered(w, path, e, s, []) == s
  {
    assert TestProjects([]) == [] && TestOutcomes([]) == [];
  }

  lemma {:induction false} TestsCollected(w: World, path: string, e: Entry, s: Tally, tests: seq<Test>)
    ensures Walk(s, tests, TestStep(w, path, e)) == Ok(Gathered(w, path, e, s, tests))
    decreases |tests|
  {
    if tests == [] {
      NoneGathered(w, path, e, s);
    } else {
      GatheredStep(w, path, e, s, tests);
      TestsCollected(w, path, e, TakeTest(w, path, e, s, tests[0]).value, tests[1..]);
    }
  }

  lemma SkipsAreSkipped(t: Test)
    ensures Classify(t) == Skip <==> StrictReport.Skips()(t)
  {
  }

  /** The tally holds what the entries hold. */
  ghost predicate Collected(w: World, root: string, es: seq<Entry>, s: Tally) {
    && s.tests == Flat(es, IdsOf(w, root, StrictReport.Every()))
    && s.skipped == Flat(es, IdsOf(w, root, StrictReport.Skips()))
    && s.projects == Flat(es, ProjectsOf()) && s.durations == Flat(es, TimesOf())
    && s.outcomes == Flat(es, OutcomesOf())
  }

  lemma CollectedMore(w: World, root: string, es: seq<Entry>, e: Entry, s: Tally)
    requires Collected(w, root, es, s) && w.locate(root, e.spec.file).Some?
    ensures TakeEntry(w, root, s, e).Ok? && Collected(w, root, es + [e], TakeEntry(w, root, s, e).value)
  {
    TestsCollected(w, w.locate(root, e.spec.file).value, e, s, e.spec.tests);
    FlatSnoc(es, e, IdsOf(w, root, StrictReport.Every()));
    FlatSnoc(es, e, IdsOf(w, root, StrictReport.Skips()));
    FlatSnoc(es, e, ProjectsOf());
    FlatSnoc(es, e, TimesOf());
    FlatSnoc(es, e, OutcomesOf());
  }

  lemma FlatSnoc<X, Y>(s: seq<X>, x: X, f: X -> seq<Y>)
    ensures Flat(s + [x], f) == Flat(s, f) + f(x)
  {
    FlatAppend(s, [x], f);
    assert [x][1..] == [];
  }

  lemma {:induction false} EntriesCollected(w: World, root: string, es: seq<Entry>)
    ensures var r := Walk(EMPTY, es, EntryStep(w, root));
      if forall e :: e in es ==> w.locate(root, e.spec.file).Some? then r.Ok? && Collected(w, root, es, r.value)
      else r == Err(OutsideRepository)
    decreases |es|
  {
    if es != [] {
      var front, last := es[..|es| - 1], es[|es| - 1];
      assert es == front + [last];
      EntriesCollected(w, root, front);
      WalkAppend(EMPTY, front, [last], EntryStep(w, root));
      var before := Walk(EMPTY, front, EntryStep(w, root));
      if before.Ok? {
        OneStep(before.value, last, EntryStep(w, root));
        if w.locate(root, last.spec.file).Some? {
          CollectedMore(w, root, front, last, before.value);
        }
      }
    }
  }

  lemma OneStep<S, X, E>(s: S, x: X, step: (S, X) -> Result<S, E>)
    ensures Walk(s, [x], step) == step(s, x)
  {
    assert [x][1..] == [];
  }

  lemma {:induction false} ProjectsFound(es: seq<Entry>, p: string)
    ensures p in Flat(es, ProjectsOf()) <==> exists e, t :: e in es && t in e.spec.tests && t.project == p
  {
    if es != [] {
      ProjectsFound(es[1..], p);
      var first := ProjectsOf()(es[0]);
      if p in first {
        var k :| 0 <= k < |first| && first[k] == p;
        assert es[0] in es && es[0].spec.tests[k] in es[0].spec.tests;
      }
      forall e, t | e in es && t in e.spec.tests && t.project == p ensures p in Flat(es, ProjectsOf()) {
        if e == es[0] {
          var k :| 0 <= k < |e.spec.tests| && e.spec.tests[k] == t;
          assert first[k] == p;
        } else {
          assert e in es[1..];
        }
      }
    }
  }

  /** A report is accepted exactly when it is valid, every file lies in the repository, no project is configured twice,
      and every test is of a configured one. Otherwise the first of these checks is named. */
  lemma AcceptedExactly(w: World, report: Report)
    ensures var r, root := Parsed(w, Some(report)),
                if w.isAbsolute(report.rootDir) then report.rootDir else w.inRepository(report.rootDir);
      var names := Names(report.projects);
      if !ValidReport(report) then r == Err(InvalidReport)
      else if report.errors != [] then r == Err(ReporterErrors)
      else if exists e :: e in Entries(report) && w.locate(root, e.spec.file).None? then r == Err(OutsideRepository)
      else if |set n | n in names| != |names| then r == Err(DuplicateProjects)
      else if exists e, t :: e in Entries(report) && t in e.spec.tests && t.project !in names then
        r == Err(UnknownProjects)
      else r.Ok?
    ensures Parsed(w, None) == Err(CannotRead)
  {
    var es, root := Entries(report), RootOf(w, report);
    EntriesCollected(w, root, es);
    if Walk(EMPTY, es, EntryStep(w, root)).Ok? {
      forall p ensures p in Flat(es, ProjectsOf()) <==> exists e, t :: e in es && t in e.spec.tests && t.project == p {
        ProjectsFound(es, p);
      }
    }
  }

  lemma ValidExactly(report: Report)
    ensures ValidReport(report)
      <==> (&& (forall p :: p in report.projects ==> p.retries == 0)
            && (forall e :: e in Entries(report) ==> e.spec.line > 0)
            && (forall e, t, a :: e in Entries(report) && t in e.spec.tests && a in t.results ==>
                  a.retry >= 0 && (a.duration.Absent? || (a.duration.Millis? && a.duration.value >= 0.0))))
  {
    if ValidReport(report) {
      forall e | e in Entries(report) ensures ValidSpec(e.spec) { }
    }
  }

  lemma TallyTold(w: World, root: string, es: seq<Entry>, s: Tally, configured: seq<string>)
    requires Collected(w, root, es, s) && Finished(w, configured, s).Ok?
    ensures var inv := Finished(w, configured, s).value;
      && Lists(inv.testIds, es, IdsOf(w, root, StrictReport.Every()), w.le)
      && Lists(inv.skippedTestIds, es, IdsOf(w, root, StrictReport.Skips()), w.le)
      && (forall p :: p in inv.projects <==> exists e, t :: e in es && t in e.spec.tests && t.project == p)
      && inv.durationsSeconds == Flat(es, TimesOf())
  {
    ListTells(es, IdsOf(w, root, StrictReport.Every()), w.le);
    ListTells(es, IdsOf(w, root, StrictReport.Skips()), w.le);
    forall p ensures p in Flat(es, ProjectsOf()) <==> exists e, t :: e in es && t in e.spec.tests && t.project == p {
      ProjectsFound(es, p);
    }
  }

  lemma OutcomesTold(w: World, root: string, es: seq<Entry>, s: Tally, configured: seq<string>)
    requires s.outcomes == Flat(es, OutcomesOf()) && Finished(w, configured, s).Ok?
    ensures var inv := Finished(w, configured, s).value;
      && inv.passed == |Occurrences(es, OutcomesOf(), Pass)| && inv.failed == |Occurrences(es, OutcomesOf(), Fail)|
      && inv.skipped == |Occurrences(es, OutcomesOf(), Skip)|
      && inv.interrupted == |Occurrences(es, OutcomesOf(), Interrupt)|
  {
    FlatOccurrences(es, OutcomesOf(), Pass);
    FlatOccurrences(es, OutcomesOf(), Fail);
    FlatOccurrences(es, OutcomesOf(), Skip);
    FlatOccurrences(es, OutcomesOf(), Interrupt);
  }

  /** Every test of the report is in the inventory: its id, its project, its times, and in the count of its outcome. */
  lemma InventoryTells(w: World, report: Report)
    requires Parsed(w, Some(report)).Ok?
    ensures var inv, es := Parsed(w, Some(report)).value, Entries(report);
      var root := if w.isAbsolute(report.rootDir) then report.rootDir else w.inRepository(report.rootDir);
      && Lists(inv.testIds, es, IdsOf(w, root, StrictReport.Every()), w.le)
      && Lists(inv.skippedTestIds, es, IdsOf(w, root, StrictReport.Skips()), w.le)
      && (forall p :: p in inv.projects <==> exists e, t :: e in es && t in e.spec.tests && t.project == p)
      && inv.durationsSeconds == Flat(es, TimesOf())
      && inv.passed == |Occurrences(es, OutcomesOf(), Pass)| && inv.failed == |Occurrences(es, OutcomesOf(), Fail)|
      && inv.skipped == |Occurrences(es, OutcomesOf(), Skip)|
      && inv.interrupted == |Occurrences(es, OutcomesOf(), Interrupt)|
  {
    var es, root := Entries(report), RootOf(w, report);
    EntriesCollected(w, root, es);
    var s := Walk(EMPTY, es, EntryStep(w, root)).value;
    TallyTold(w, root, es, s, Names(report.projects));
    OutcomesTold(w, root, es, s, Names(report.projects));
  }

  // ---------------------------------------------------------------------------
  // The strict parser refines this one, up to null durations
  // ---------------------------------------------------------------------------

  /** No attempt of the report has an explicit null as its duration. */
  ghost predicate NoNullDuration(report: Report) {
    forall e, t, a :: e in Entries(report) && t in e.spec.tests && a in t.results ==> !a.duration.Null?
  }

  /** The two collections agree: same ids, same skipped ids, one project, and only clean outcomes. */
  ghost predicate Agree(project: string, s: StrictReport.Tally, l: Tally) {
    && l.tests == s.actual && l.skipped == s.skipped
    && (forall p :: p in l.projects ==> p == project)
    && |l.outcomes| == |l.tests|
    && Count(l.outcomes, Fail) == 0 && Count(l.outcomes, Interrupt) == 0
    && Count(l.outcomes, Skip) == |s.skipped|
  }

  ghost function Agrees(project: string): (StrictReport.Tally, Tally) -> bool {
    (s: StrictReport.Tally, l: Tally) => Agree(project, s, l)
  }

  lemma TestAgrees(w: World, job: StrictReport.Expectation, path: string, e: Entry, s: StrictReport.Tally, l: Tally,
                   t: Test)
    requires Agree(job.project, s, l) && StrictReport.TakeTest(w, job, path, e, s, t).Ok?
    ensures TakeTest(w, path, e, l, t).Ok?
    ensures Agree(job.project, StrictReport.TakeTest(w, job, path, e, s, t).value, TakeTest(w, path, e, l, t).value)
  {
    assert StrictReport.Clean(job, t);
    assert Classify(t) == Pass || Classify(t) == Skip;
  }

  lemma EntryAgrees(w: World, job: StrictReport.Expectation, root: string, e: Entry, s: StrictReport.Tally, l: Tally)
    requires Agree(job.project, s, l) && StrictReport.TakeEntry(w, job, root, s, e).Ok?
    ensures TakeEntry(w, root, l, e).Ok?
    ensures Agree(job.project, StrictReport.TakeEntry(w, job, root, s, e).value, TakeEntry(w, root, l, e).value)
  {
    var path := job.specPath;
    var strict, lenient, related := StrictReport.TestStep(w, job, path, e), TestStep(w, path, e), Agrees(job.project);
    forall a, b, t | t in e.spec.tests && related(a, b) && strict(a, t).Ok?
      ensures lenient(b, t).Ok? && related(strict(a, t).value, lenient(b, t).value) {
      TestAgrees(w, job, path, e, a, b, t);
    }
    Simulation(s, l, e.spec.tests, strict, lenient, related);
  }

  lemma ReportAgrees(w: World, job: StrictReport.Expectation, root: string, es: seq<Entry>)
    requires Walk(StrictReport.EMPTY, es, StrictReport.EntryStep(w, job, root)).Ok?
    ensures Walk(EMPTY, es, EntryStep(w, root)).Ok?
    ensures Agree(job.project, Walk(StrictReport.EMPTY, es, StrictReport.EntryStep(w, job, root)).value,
                  Walk(EMPTY, es, EntryStep(w, root)).value)
  {
    var strict, lenient, related := StrictReport.EntryStep(w, job, root), EntryStep(w, root), Agrees(job.project);
    forall a, b, e | e in es && related(a, b) && strict(a, e).Ok?
      ensures lenient(b, e).Ok? && related(strict(a, e).value, lenient(b, e).value) {
      EntryAgrees(w, job, root, e, a, b);
    }
    Simulation(StrictReport.EMPTY, EMPTY, es, strict, lenient, related);
  }

  lemma {:induction false} OutcomesAddUp(outcomes: seq<Outcome>)
    ensures Count(outcomes, Pass) + Count(outcomes, Fail) + Count(outcomes, Skip) + Count(outcomes, Interrupt)
      == |outcomes|
  {
    if outcomes != [] {
      OutcomesAddUp(outcomes[1..]);
      assert outcomes == [outcomes[0]] + outcomes[1..];
      match outcomes[0] case Pass => case Skip => case Fail => case Interrupt =>
    }
  }

  lemma ValidityDiffersByNull(report: Report)
    requires StrictReport.ValidReport(report)
    ensures ValidReport(report) <==> NoNullDuration(report)
  {
    if ValidReport(report) {
      forall e, t, a | e in Entries(report) && t in e.spec.tests && a in t.results ensures !a.duration.Null? {
        assert ValidSpec(e.spec) && ValidAttempt(a);
      }
    }
    if NoNullDuration(report) {
      forall e | e in Entries(report) ensures ValidSpec(e.spec) {
        assert StrictReport.ValidSpec(e.spec);
        forall t, a | t in e.spec.tests && a in t.results ensures ValidAttempt(a) {
          assert StrictReport.ValidAttempt(a);
        }
      }
    }
  }

  /** A report that the strict parser accepts is accepted here exactly when none of its durations is an explicit
      null; then both find the same ids and the same skipped ids up to order, nothing failed or interrupted, and
      every test passed or skipped. */
  lemma StrictRefinesLenient(w: World, job: StrictReport.Expectation, report: Report)
    requires StrictReport.Parsed(w, job, Some(report)).Ok?
    ensures Parsed(w, Some(report)).Ok? <==> NoNullDuration(report)
    ensures Parsed(w, Some(report)).Ok? ==>
      var strict, lenient := StrictReport.Parsed(w, job, Some(report)).value, Parsed(w, Some(report)).value;
      && lenient.testIds == Sort(strict.testIds, w.le)
      && lenient.skippedTestIds == Sort(strict.skippedTestIds, w.le)
      && multiset(lenient.testIds) == multiset(job.testIds)
      && lenient.projects <= {job.project}
      && lenient.failed == 0 && lenient.interrupted == 0
      && lenient.skipped == |strict.skippedTestIds| && lenient.passed + lenient.skipped == |lenient.testIds|
  {
    ValidityDiffersByNull(report);
    ReportAgrees(w, job, report.rootDir, Entries(report));
    var s := Walk(StrictReport.EMPTY, Entries(report), StrictReport.EntryStep(w, job, report.rootDir)).value;
    var l := Walk(EMPTY, Entries(report), EntryStep(w, report.rootDir)).value;
    FinishedAgrees(w, Names(report.projects), job, s, l);
  }

  lemma FinishedAgrees(w: World, configured: seq<string>, job: StrictReport.Expectation, s: StrictReport.Tally,
                       l: Tally)
    requires Agree(job.project, s, l) && job.project in configured && |set n | n in configured| == |configured|
    requires StrictReport.Finished(job, s).Ok?
    ensures Finished(w, configured, l).Ok?
    ensures var strict, lenient := StrictReport.Finished(job, s).value, Finished(w, configured, l).value;
      && lenient.testIds == Sort(strict.testIds, w.le)
      && lenient.skippedTestIds == Sort(strict.skippedTestIds, w.le)
      && multiset(lenient.testIds) == multiset(job.testIds)
      && lenient.projects <= {job.project}
      && lenient.failed == 0 && lenient.interrupted == 0
      && lenient.skipped == |strict.skippedTestIds| && lenient.passed + lenient.skipped == |lenient.testIds|
  {
    OutcomesAddUp(l.outcomes);
    SortPermutes(l.tests, w.le);
  }

  /** The two parsers do disagree: a job whose one test passed with a null duration is accepted by the strict
      parser and refused by this one. */
  lemma NullDurationSplitsTheParsers(w: World, root: string, file: string, path: string, project: string)
    requires w.isAbsolute(root) && w.locate(root, file) == Some(path)
    ensures StrictReport.Parsed(w, StrictReport.Expectation(project, path, [w.idOf(project, path, 1, [""])]),
                                Some(OneTestReport(root, file, project, Null))).Ok?
    ensures Parsed(w, Some(OneTestReport(root, file, project, Null))) == Err(InvalidReport)
  {
    var report, spec := OneTestReport(root, file, project, Null), OneTestSpec(file, project, Null);
    StrictReport.OneTestAccepted(w, root, file, path, project, Null);
    StrictRefinesLenient(w, StrictReport.Expectation(project, path, [w.idOf(project, path, 1, [""])]), report);
    OneEntry(root, file, project, Null);
    var e, test := Entry([], spec), spec.tests[0];
    assert e in Entries(report) && test in e.spec.tests && test.results[0] in test.results;
  }
}
