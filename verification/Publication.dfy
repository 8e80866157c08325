/**
 The published payload of a run (scripts/e2e_scheduler/aggregate_publish.py:84-213, aggregate.py:279-299): one row
 a project and the totals, and why the counts balance.
 */
module Publication {
  import opened Outcomes
  import opened Sorting
  import opened Counting
  import opened Walks
  import opened Reports
  import opened Aggregation

  datatype PublicationJob = PublicationJob(
    jobId: string, workerId: string, project: string, expectedProfile: Profile, actualProfile: Profile,
    expectedScenarioIds: seq<string>, actualTestIds: seq<string>, skippedTestIds: seq<string>,
    expectedEvidenceNames: seq<string>, actualEvidenceNames: seq<string>, actualEvidenceCount: nat,
    screenshots: seq<File>)

  datatype PublicationError = NamesCollide | ProjectProfileMismatch(project: string) | PublicationFailed

  /** The counts that both a project row and the totals carry. */
  datatype Counts = Counts(
    expectedTests: int, actualTests: int, passed: int, skipped: int, expectedScenarios: int, actualScenarios: int,
    expectedEvidence: int, actualEvidence: int)

  datatype ProjectSummary = ProjectSummary(name: string, expectedProfile: Profile, actualProfile: Profile,
                                           counts: Counts)

  datatype Payload = Payload(
    files: seq<string>, runId: string, counts: Counts, jobs: nat, projects: seq<ProjectSummary>,
    expectedIds: seq<string>, actualIds: seq<string>, skippedIds: seq<string>)

  function PublicationJobOf(j: ParsedJob): PublicationJob
    requires ExpectedProfile(j.spec).Ok?
  {
    PublicationJob(j.result.jobId, j.result.workerId, j.spec.project, ExpectedProfile(j.spec).value, j.result.profile,
                   TestIds(j.spec.tests), j.actualTestIds, j.skippedTestIds,
                   j.result.expectedEvidenceNames, j.actualEvidenceNames, j.actualEvidenceCount, j.screenshots)
  }

  predicate Profiled(jobs: seq<ParsedJob>) { forall j :: j in jobs ==> ExpectedProfile(j.spec).Ok? }

  function PublicationJobs(jobs: seq<ParsedJob>): (r: seq<PublicationJob>)
    requires Profiled(jobs)
    ensures |r| == |jobs|
    ensures forall i :: 0 <= i < |r| ==> r[i] == PublicationJobOf(jobs[i])
  {
    if jobs == [] then [] else [PublicationJobOf(jobs[0])] + PublicationJobs(jobs[1..])
  }

  // ---------------------------------------------------------------------------
  // Sums
  // ---------------------------------------------------------------------------

  function Keyed<T>(key: T -> string, k: string): T -> bool { (x: T) => key(x) == k }

  /** The sum over the groups named by `ks`. */
  function GroupSum<T>(ks: seq<string>, s: seq<T>, key: T -> string, f: T -> int): int {
    if ks == [] then 0 else Sum(Filter(s, Keyed(key, ks[0])), f) + GroupSum(ks[1..], s, key, f)
  }

  lemma {:induction false} GroupSumStep<T>(ks: seq<string>, s: seq<T>, key: T -> string, f: T -> int)
    requires s != [] && NoRepeats(ks)
    ensures GroupSum(ks, s, key, f) == GroupSum(ks, s[1..], key, f) + if key(s[0]) in ks then f(s[0]) else 0
    decreases |ks|
  {
    if ks != [] {
      RestHasNoRepeats(ks);
      GroupSumStep(ks[1..], s, key, f);
    }
  }

  lemma RestHasNoRepeats(ks: seq<string>)
    requires NoRepeats(ks) && ks != []
    ensures ks[0] !in ks[1..] && NoRepeats(ks[1..])
  {
    assert ks == [ks[0]] + ks[1..];
    assert multiset(ks)[ks[0]] == 1 + multiset(ks[1..])[ks[0]];
    forall n ensures multiset(ks[1..])[n] <= 1 {
      assert multiset(ks[1..])[n] <= multiset(ks)[n];
    }
  }

  lemma {:induction false} EmptyGroups<T>(ks: seq<string>, key: T -> string, f: T -> int)
    ensures GroupSum(ks, [], key, f) == 0
  {
    if ks != [] {
      EmptyGroups(ks[1..], key, f);
    }
  }

  /** When every element has its key listed once, the groups add up to the whole. */
  lemma {:induction false} GroupsAddUp<T>(ks: seq<string>, s: seq<T>, key: T -> string, f: T -> int)
    requires NoRepeats(ks) && forall x :: x in s ==> key(x) in ks
    ensures GroupSum(ks, s, key, f) == Sum(s, f)
    decreases |s|
  {
    if s == [] {
      EmptyGroups(ks, key, f);
    } else {
      assert s[0] in s;
      GroupSumStep(ks, s, key, f);
      GroupsAddUp(ks, s[1..], key, f);
    }
  }

  // ---------------------------------------------------------------------------
  // Rows and totals
  // ---------------------------------------------------------------------------

  function TestProject(): DiscoveredTest -> string { (t: DiscoveredTest) => t.project }
  function JobProject(): PublicationJob -> string { (j: PublicationJob) => j.project }

  function One(): DiscoveredTest -> int { (t: DiscoveredTest) => 1 }
  function Actual(): PublicationJob -> int { (j: PublicationJob) => |j.actualTestIds| }
  function Passed(): PublicationJob -> int { (j: PublicationJob) => |j.actualTestIds| - |j.skippedTestIds| }
  function Skipped(): PublicationJob -> int { (j: PublicationJob) => |j.skippedTestIds| }
  function Scenarios(): PublicationJob -> int { (j: PublicationJob) => |j.expectedScenarioIds| }
  function Evidence(): PublicationJob -> int { (j: PublicationJob) => |j.expectedEvidenceNames| }
  function Found(): PublicationJob -> int { (j: PublicationJob) => j.actualEvidenceCount }

  function CountsOf(tests: seq<DiscoveredTest>, jobs: seq<PublicationJob>): Counts {
    Counts(|tests|, Sum(jobs, Actual()), Sum(jobs, Passed()), Sum(jobs, Skipped()), Sum(jobs, Scenarios()),
           Sum(jobs, Actual()), Sum(jobs, Evidence()), Sum(jobs, Found()))
  }

  function Unique(s: seq<string>): (u: seq<string>)
    ensures forall x :: x in u <==> x in s
    ensures NoRepeats(u)
  {
    if s == [] then []
    else if s[0] in s[1..] then Unique(s[1..])
    else [s[0]] + Unique(s[1..])
  }

  function ProjectsOf(tests: seq<DiscoveredTest>): (ps: seq<string>)
    ensures forall p :: p in ps <==> exists t :: t in tests && t.project == p
  {
    if tests == [] then []
    else
      assert forall t :: t in tests <==> t == tests[0] || t in tests[1..];
      [tests[0].project] + ProjectsOf(tests[1..])
  }

  function SortedProjects(m: RunManifest, le: (string, string) -> bool): seq<string> {
    Sort(Unique(ProjectsOf(m.tests)), le)
  }

  function ExpectedProfiles(jobs: seq<PublicationJob>): set<Profile> { set j | j in jobs :: j.expectedProfile }
  function ActualProfiles(jobs: seq<PublicationJob>): set<Profile> { set j | j in jobs :: j.actualProfile }

  lemma SomeJob(jobs: seq<PublicationJob>)
    requires |ExpectedProfiles(jobs)| == 1
    ensures jobs != []
  {
    var p :| p in ExpectedProfiles(jobs);
  }

  function Row(m: RunManifest, jobs: seq<PublicationJob>, project: string): Result<ProjectSummary, PublicationError> {
    var tests, mine := Filter(m.tests, Keyed(TestProject(), project)), Filter(jobs, Keyed(JobProject(), project));
    if |ExpectedProfiles(mine)| != 1 || |ActualProfiles(mine)| != 1 then Err(ProjectProfileMismatch(project))
    else
      SomeJob(mine);
      Ok(ProjectSummary(project, mine[0].expectedProfile, mine[0].actualProfile, CountsOf(tests, mine)))
  }

  function RowStep(m: RunManifest, jobs: seq<PublicationJob>)
    : (seq<ProjectSummary>, string) -> Result<seq<ProjectSummary>, PublicationError>
  {
    (rows: seq<ProjectSummary>, project: string) =>
      match Row(m, jobs, project)
      case Err(e) => Err(e)
      case Ok(row) => Ok(rows + [row])
  }

  function ExpectedIdsOf(): PublicationJob -> seq<string> { (j: PublicationJob) => j.expectedScenarioIds }
  function ActualIdsOf(): PublicationJob -> seq<string> { (j: PublicationJob) => j.actualTestIds }
  function SkippedIdsOf(): PublicationJob -> seq<string> { (j: PublicationJob) => j.skippedTestIds }

  function WithTotals(m: RunManifest, jobs: seq<PublicationJob>, names: seq<string>, le: (string, string) -> bool,
                      rows: seq<ProjectSummary>): Payload {
    Payload(names, m.runId, CountsOf(m.tests, jobs), |jobs|, rows, Sort(Flat(jobs, ExpectedIdsOf()), le),
            Sort(Flat(jobs, ActualIdsOf()), le), Sort(Flat(jobs, SkippedIdsOf()), le))
  }

  function LegacyPayload(m: RunManifest, jobs: seq<PublicationJob>, names: seq<string>, le: (string, string) -> bool)
    : Result<Payload, PublicationError>
  {
    match Walk([], SortedProjects(m, le), RowStep(m, jobs))
    case Err(e) => Err(e)
    case Ok(rows) => Ok(WithTotals(m, jobs, names, le, rows))
  }

  method BuildLegacyPayload(m: RunManifest, jobs: seq<PublicationJob>, names: seq<string>, le: (string, string) -> bool)
    returns (r: Result<Payload, PublicationError>)
    ensures r == LegacyPayload(m, jobs, names, le)
  {
    var projects: seq<ProjectSummary> := [];
    var order := SortedProjects(m, le);
    ghost var step := RowStep(m, jobs);
    for i := 0 to |order|
      invariant Walk([], order, step) == Walk(projects, order[i..], step)
    {
      assert order[i..][0] == order[i] && order[i..][1..] == order[i + 1..];
      var row := Row(m, jobs, order[i]);
      if row.Err? {
        return Err(row.error);
      }
      projects := projects + [row.value];
    }
    return Ok(WithTotals(m, jobs, names, le, projects));
  }

  // ---------------------------------------------------------------------------
  // The payload exists
  // ---------------------------------------------------------------------------

  /** The rows answer the projects one by one. */
  ghost predicate RowsAre(m: RunManifest, jobs: seq<PublicationJob>, projects: seq<string>, rows: seq<ProjectSummary>) {
    |rows| == |projects| && forall i :: 0 <= i < |rows| ==> Row(m, jobs, projects[i]) == Ok(rows[i])
  }

  lemma RowsWalk(m: RunManifest, jobs: seq<PublicationJob>, projects: seq<string>) returns (rows: seq<ProjectSummary>)
    ensures Walk([], projects, RowStep(m, jobs)).Ok? <==> forall p :: p in projects ==> Row(m, jobs, p).Ok?
    ensures Walk([], projects, RowStep(m, jobs)).Ok?
      ==> Walk([], projects, RowStep(m, jobs)).value == rows && RowsAre(m, jobs, projects, rows)
  {
    rows := AppendWalk([], projects, RowStep(m, jobs), (p: string) => Row(m, jobs, p));
    assert [] + rows == rows;
  }

  function ExpectedIn(jobs: seq<PublicationJob>, project: string): set<Profile> {
    set j | j in jobs && j.project == project :: j.expectedProfile
  }

  function ActualIn(jobs: seq<PublicationJob>, project: string): set<Profile> {
    set j | j in jobs && j.project == project :: j.actualProfile
  }

  predicate SettledIn(jobs: seq<PublicationJob>, project: string) {
    |ExpectedIn(jobs, project)| == 1 && |ActualIn(jobs, project)| == 1
  }

  /** Every project of the manifest has one expected and one actual profile among its jobs. */
  ghost predicate ProfilesSettled(m: RunManifest, jobs: seq<PublicationJob>) {
    forall t :: t in m.tests ==> SettledIn(jobs, t.project)
  }

  lemma RowExactly(m: RunManifest, jobs: seq<PublicationJob>, project: string)
    ensures Row(m, jobs, project).Ok? <==> SettledIn(jobs, project)
  {
    var mine := Filter(jobs, Keyed(JobProject(), project));
    forall j ensures j in mine <==> j in jobs && j.project == project {
      FilterElements(jobs, Keyed(JobProject(), project), j);
    }
    assert ExpectedProfiles(mine) == ExpectedIn(jobs, project) && ActualProfiles(mine) == ActualIn(jobs, project);
  }

  lemma SortedProjectsAre(m: RunManifest, le: (string, string) -> bool)
    ensures NoRepeats(SortedProjects(m, le))
    ensures forall p :: p in SortedProjects(m, le) <==> exists t :: t in m.tests && t.project == p
  {
    var unique := Unique(ProjectsOf(m.tests));
    SortPermutes(unique, le);
    forall p ensures p in SortedProjects(m, le) <==> p in unique { SortElements(unique, le, p); }
  }

  lemma PayloadExactly(m: RunManifest, jobs: seq<PublicationJob>, names: seq<string>, le: (string, string) -> bool)
    ensures LegacyPayload(m, jobs, names, le).Ok? <==> ProfilesSettled(m, jobs)
  {
    forall p ensures Row(m, jobs, p).Ok? <==> SettledIn(jobs, p) {
      RowExactly(m, jobs, p);
    }
    var _ := RowsWalk(m, jobs, SortedProjects(m, le));
    SortedProjectsAre(m, le);
  }

  // ---------------------------------------------------------------------------
  // What the payload says of the jobs
  // ---------------------------------------------------------------------------

  /** The counts of the jobs and tests whose project is picked: every id and every name at its place in a job. */
  ghost predicate Counted(c: Counts, tests: seq<DiscoveredTest>, jobs: seq<PublicationJob>, picked: string -> bool) {
    var mine := (j: PublicationJob) => picked(j.project);
    && c.expectedTests == |set i: nat | i < |tests| && picked(tests[i].project)|
    && c.actualTests == |Places(jobs, (j: PublicationJob) => |j.actualTestIds|, mine)|
    && c.skipped == |Places(jobs, (j: PublicationJob) => |j.skippedTestIds|, mine)|
    && c.passed == c.actualTests - c.skipped
    && c.expectedScenarios == |Places(jobs, (j: PublicationJob) => |j.expectedScenarioIds|, mine)|
    && c.actualScenarios == c.actualTests
    && c.expectedEvidence == |Places(jobs, (j: PublicationJob) => |j.expectedEvidenceNames|, mine)|
    && c.actualEvidence == |Places(jobs, (j: PublicationJob) => j.actualEvidenceCount, mine)|
  }

  /** The row of a project: the profiles that all its jobs have, and its counts. */
  ghost predicate RowTells(m: RunManifest, jobs: seq<PublicationJob>, row: ProjectSummary) {
    && (forall j :: j in jobs && j.project == row.name ==>
          row.expectedProfile == j.expectedProfile && row.actualProfile == j.actualProfile)
    && Counted(row.counts, m.tests, jobs, (project: string) => project == row.name)
  }

  ghost predicate Tells(m: RunManifest, jobs: seq<PublicationJob>, names: seq<string>, le: (string, string) -> bool,
                        p: Payload)
  {
    && p.files == names && p.runId == m.runId && p.jobs == |jobs|
    && Counted(p.counts, m.tests, jobs, (project: string) => true)
    && (forall i, k :: 0 <= i < k < |p.projects| ==> p.projects[i].name != p.projects[k].name)
    && (TotalPreorder(le) ==>
          forall i, k :: 0 <= i < k < |p.projects| ==> le(p.projects[i].name, p.projects[k].name))
    && (forall row :: row in p.projects ==>
          (exists t :: t in m.tests && t.project == row.name) && RowTells(m, jobs, row))
    && (forall t :: t in m.tests ==> exists row :: row in p.projects && row.name == t.project)
    && Lists(p.expectedIds, jobs, (j: PublicationJob) => j.expectedScenarioIds, le)
    && Lists(p.actualIds, jobs, (j: PublicationJob) => j.actualTestIds, le)
    && Lists(p.skippedIds, jobs, (j: PublicationJob) => j.skippedTestIds, le)
  }

  /** The error names the first project, in sorted order, whose profiles are not settled. */
  ghost predicate Blames(m: RunManifest, jobs: seq<PublicationJob>, le: (string, string) -> bool,
                         error: PublicationError)
  {
    && error.ProjectProfileMismatch? && !SettledIn(jobs, error.project)
    && (exists t :: t in m.tests && t.project == error.project)
    && (TotalPreorder(le) ==>
          forall t :: t in m.tests && !SettledIn(jobs, t.project) ==> le(error.project, t.project))
  }

  lemma {:induction false} TestsPicked(tests: seq<DiscoveredTest>, keep: DiscoveredTest -> bool)
    ensures |Filter(tests, keep)| == |set i: nat | i < |tests| && keep(tests[i])|
    decreases |tests|
  {
    var all := set i: nat | i < |tests| && keep(tests[i]);
    if tests == [] {
      assert all == {};
    } else {
      var front, last := tests[..|tests| - 1], tests[|tests| - 1];
      assert tests == front + [last];
      TestsPicked(front, keep);
      FilterAppend(front, [last], keep);
      assert [last][1..] == [];
      var some := set i: nat | i < |front| && keep(front[i]);
      assert all == some + if keep(last) then {|front|} else {};
    }
  }

  lemma FilterAll<T>(s: seq<T>, keep: T -> bool)
    requires forall x :: x in s ==> keep(x)
    ensures Filter(s, keep) == s
  {
    if s != [] {
      assert s[0] in s;
      FilterAll(s[1..], keep);
    }
  }

  lemma CountsTell(tests: seq<DiscoveredTest>, jobs: seq<PublicationJob>, picked: string -> bool,
                   ours: DiscoveredTest -> bool, mine: PublicationJob -> bool)
    requires forall t :: ours(t) == picked(t.project)
    requires forall j :: mine(j) == picked(j.project)
    ensures Counted(CountsOf(Filter(tests, ours), Filter(jobs, mine)), tests, jobs, picked)
  {
    TestsPicked(tests, ours);
    assert (set i: nat | i < |tests| && ours(tests[i])) == set i: nat | i < |tests| && picked(tests[i].project);
    var same := (j: PublicationJob) => picked(j.project);
    SameFilter(jobs, mine, same);
    SumIsPlaces(jobs, Actual(), (j: PublicationJob) => |j.actualTestIds|, same);
    SumIsPlaces(jobs, Skipped(), (j: PublicationJob) => |j.skippedTestIds|, same);
    SumIsPlaces(jobs, Scenarios(), (j: PublicationJob) => |j.expectedScenarioIds|, same);
    SumIsPlaces(jobs, Evidence(), (j: PublicationJob) => |j.expectedEvidenceNames|, same);
    SumIsPlaces(jobs, Found(), (j: PublicationJob) => j.actualEvidenceCount, same);
    PassedIsRest(Filter(jobs, mine));
  }

  lemma {:induction false} PassedIsRest(jobs: seq<PublicationJob>)
    ensures Sum(jobs, Passed()) == Sum(jobs, Actual()) - Sum(jobs, Skipped())
  {
    if jobs != [] {
      PassedIsRest(jobs[1..]);
    }
  }

  lemma {:induction false} SameFilter<T>(s: seq<T>, p: T -> bool, q: T -> bool)
    requires forall x :: x in s ==> p(x) == q(x)
    ensures Filter(s, p) == Filter(s, q)
  {
    if s != [] {
      assert s[0] in s;
      SameFilter(s[1..], p, q);
    }
  }

  lemma ListsTell(m: RunManifest, jobs: seq<PublicationJob>, names: seq<string>, le: (string, string) -> bool,
                  rows: seq<ProjectSummary>)
    ensures var p := WithTotals(m, jobs, names, le, rows);
      && Lists(p.expectedIds, jobs, (j: PublicationJob) => j.expectedScenarioIds, le)
      && Lists(p.actualIds, jobs, (j: PublicationJob) => j.actualTestIds, le)
      && Lists(p.skippedIds, jobs, (j: PublicationJob) => j.skippedTestIds, le)
  {
    var p := WithTotals(m, jobs, names, le, rows);
    ListTells(jobs, ExpectedIdsOf(), le);
    ListTells(jobs, ActualIdsOf(), le);
    ListTells(jobs, SkippedIdsOf(), le);
    SameLists(p.expectedIds, jobs, ExpectedIdsOf(), jobs, (j: PublicationJob) => j.expectedScenarioIds, le);
    SameLists(p.actualIds, jobs, ActualIdsOf(), jobs, (j: PublicationJob) => j.actualTestIds, le);
    SameLists(p.skippedIds, jobs, SkippedIdsOf(), jobs, (j: PublicationJob) => j.skippedTestIds, le);
  }

  lemma ProfileOfRow(jobs: seq<PublicationJob>, project: string, j: PublicationJob, first: PublicationJob)
    requires SettledIn(jobs, project) && j in jobs && j.project == project && first in jobs && first.project == project
    ensures first.expectedProfile == j.expectedProfile && first.actualProfile == j.actualProfile
  {
    SameInOne(ExpectedIn(jobs, project), first.expectedProfile, j.expectedProfile);
    SameInOne(ActualIn(jobs, project), first.actualProfile, j.actualProfile);
  }

  lemma RowIsTold(m: RunManifest, jobs: seq<PublicationJob>, project: string)
    requires Row(m, jobs, project).Ok?
    ensures Row(m, jobs, project).value.name == project && RowTells(m, jobs, Row(m, jobs, project).value)
  {
    var row, mine := Row(m, jobs, project).value, Filter(jobs, Keyed(JobProject(), project));
    RowExactly(m, jobs, project);
    SomeJob(mine);
    FilterElements(jobs, Keyed(JobProject(), project), mine[0]);
    forall j | j in jobs && j.project == project
      ensures row.expectedProfile == j.expectedProfile && row.actualProfile == j.actualProfile
    {
      ProfileOfRow(jobs, project, j, mine[0]);
    }
    CountsTell(m.tests, jobs, (project: string) => project == row.name, Keyed(TestProject(), project),
               Keyed(JobProject(), project));
  }

  lemma TotalsTell(m: RunManifest, jobs: seq<PublicationJob>)
    ensures Counted(CountsOf(m.tests, jobs), m.tests, jobs, (project: string) => true)
  {
    FilterAll(m.tests, (t: DiscoveredTest) => true);
    FilterAll(jobs, (j: PublicationJob) => true);
    CountsTell(m.tests, jobs, (project: string) => true, (t: DiscoveredTest) => true, (j: PublicationJob) => true);
  }

  lemma RowsTell(m: RunManifest, jobs: seq<PublicationJob>, le: (string, string) -> bool, rows: seq<ProjectSummary>)
    requires RowsAre(m, jobs, SortedProjects(m, le), rows)
    ensures forall i, k :: 0 <= i < k < |rows| ==> rows[i].name != rows[k].name
    ensures TotalPreorder(le) ==> forall i, k :: 0 <= i < k < |rows| ==> le(rows[i].name, rows[k].name)
    ensures forall row :: row in rows ==> (exists t :: t in m.tests && t.project == row.name) && RowTells(m, jobs, row)
    ensures forall t :: t in m.tests ==> exists row :: row in rows && row.name == t.project
  {
    var ks := SortedProjects(m, le);
    SortedProjectsAre(m, le);
    DistinctExactly(ks);
    if TotalPreorder(le) {
      SortSorts(Unique(ProjectsOf(m.tests)), le);
    }
    forall i | 0 <= i < |rows| ensures rows[i].name == ks[i] && RowTells(m, jobs, rows[i]) {
      RowIsTold(m, jobs, ks[i]);
    }
    forall row | row in rows ensures (exists t :: t in m.tests && t.project == row.name) && RowTells(m, jobs, row) {
      var i :| 0 <= i < |rows| && rows[i] == row;
      assert ks[i] in ks;
    }
    forall t | t in m.tests ensures exists row :: row in rows && row.name == t.project {
      assert t.project in ks;
      var i :| 0 <= i < |ks| && ks[i] == t.project;
      assert rows[i] in rows;
    }
  }

  /** The payload says of the jobs exactly what they hold. */
  lemma PayloadTells(m: RunManifest, jobs: seq<PublicationJob>, names: seq<string>, le: (string, string) -> bool)
    requires LegacyPayload(m, jobs, names, le).Ok?
    ensures Tells(m, jobs, names, le, LegacyPayload(m, jobs, names, le).value)
  {
    var rows := RowsWalk(m, jobs, SortedProjects(m, le));
    RowsTell(m, jobs, le, rows);
    TotalsTell(m, jobs);
    ListsTell(m, jobs, names, le, rows);
  }

  /** A refusal names the first project whose profiles are not settled. */
  lemma PayloadBlames(m: RunManifest, jobs: seq<PublicationJob>, names: seq<string>, le: (string, string) -> bool)
    requires LegacyPayload(m, jobs, names, le).Err?
    ensures Blames(m, jobs, le, LegacyPayload(m, jobs, names, le).error)
  {
    var ks := SortedProjects(m, le);
    var i := FirstError([], ks, RowStep(m, jobs), (p: string) => Row(m, jobs, p));
    SortedProjectsAre(m, le);
    assert ks[i] in ks;
    RowExactly(m, jobs, ks[i]);
    if TotalPreorder(le) {
      SortSorts(Unique(ProjectsOf(m.tests)), le);
      forall t | t in m.tests && !SettledIn(jobs, t.project) ensures le(ks[i], t.project) {
        assert t.project in ks;
        var k :| 0 <= k < |ks| && ks[k] == t.project;
        RowExactly(m, jobs, t.project);
        assert le(ks[i], ks[i]);
      }
    }
  }

  // ---------------------------------------------------------------------------
  // The counts balance
  // ---------------------------------------------------------------------------

  ghost predicate JobBalanced(j: PublicationJob) {
    && |j.actualTestIds| == |j.expectedScenarioIds| && |j.skippedTestIds| <= |j.actualTestIds|
    && |j.expectedEvidenceNames| == j.actualEvidenceCount
    && j.expectedProfile == j.actualProfile
  }

  /** Nothing is missing and nothing is double: expected and actual agree, and every test passed or was skipped. */
  ghost predicate Balanced(c: Counts) {
    && c.expectedTests == c.actualTests == c.expectedScenarios == c.actualScenarios
    && c.passed + c.skipped == c.actualTests && c.passed >= 0 && c.skipped >= 0
    && c.expectedEvidence == c.actualEvidence
  }

  lemma SameSize<T>(a: seq<T>, b: seq<T>)
    requires multiset(a) <= multiset(b)
    ensures |a| <= |b| && (multiset(a) == multiset(b) ==> |a| == |b|)
  {
    assert multiset(b) == multiset(a) + (multiset(b) - multiset(a));
    assert |multiset(b)| == |multiset(a)| + |multiset(b) - multiset(a)|;
  }

  lemma SoundJobBalances(p: ParsedJob)
    requires Sound(p)
    ensures JobBalanced(PublicationJobOf(p))
  {
    SameSize(p.actualTestIds, TestIds(p.spec.tests));
    SameSize(p.skippedTestIds, p.actualTestIds);
    SameSize(p.actualEvidenceNames, p.result.expectedEvidenceNames);
  }

  lemma {:induction false} SumsBalance(jobs: seq<PublicationJob>)
    requires forall j :: j in jobs ==> JobBalanced(j)
    ensures Sum(jobs, Actual()) == Sum(jobs, Scenarios()) == Sum(jobs, Passed()) + Sum(jobs, Skipped())
    ensures Sum(jobs, Passed()) >= 0 && Sum(jobs, Skipped()) >= 0 && Sum(jobs, Evidence()) == Sum(jobs, Found())
  {
    if jobs != [] {
      assert jobs[0] in jobs;
      SumsBalance(jobs[1..]);
    }
  }

  /** Every test of a job is of the job's project. */
  ghost predicate OwnTests(p: ParsedJob) {
    forall t :: t in p.spec.tests ==> t.project == p.spec.project
  }

  lemma {:induction false} AllOrNothing(tests: seq<DiscoveredTest>, project: string, k: string)
    requires forall t :: t in tests ==> t.project == project
    ensures |Filter(tests, Keyed(TestProject(), k))| == if project == k then |tests| else 0
  {
    if tests != [] {
      assert tests[0] in tests;
      AllOrNothing(tests[1..], project, k);
    }
  }

  /** The tests of a project are the tests its jobs were assigned. */
  lemma {:induction false} ProjectTests(parsed: seq<ParsedJob>, k: string)
    requires Profiled(parsed) && forall p :: p in parsed ==> OwnTests(p)
    ensures |Filter(Assigned(SpecsOf(parsed)), Keyed(TestProject(), k))|
      == Sum(Filter(PublicationJobs(parsed), Keyed(JobProject(), k)), Scenarios())
  {
    if parsed != [] {
      assert parsed[0] in parsed;
      ProjectTests(parsed[1..], k);
      var spec := parsed[0].spec;
      AllOrNothing(spec.tests, spec.project, k);
      FilterAppend(spec.tests, Assigned(SpecsOf(parsed[1..])), Keyed(TestProject(), k));
      assert SpecsOf(parsed)[1..] == SpecsOf(parsed[1..]);
      assert PublicationJobs(parsed)[1..] == PublicationJobs(parsed[1..]);
    }
  }

  lemma {:induction false} AllTests(parsed: seq<ParsedJob>)
    requires Profiled(parsed) && forall p :: p in parsed ==> OwnTests(p)
    ensures |Assigned(SpecsOf(parsed))| == Sum(PublicationJobs(parsed), Scenarios())
  {
    if parsed != [] {
      assert parsed[0] in parsed;
      AllTests(parsed[1..]);
      assert SpecsOf(parsed)[1..] == SpecsOf(parsed[1..]);
      assert PublicationJobs(parsed)[1..] == PublicationJobs(parsed[1..]);
    }
  }

  lemma RunJobs(m: RunManifest, results: seq<JobResult>, parsed: seq<ParsedJob>)
    requires WellFormed(m) && SoundRun(m, results, parsed)
    ensures Profiled(parsed) && forall p :: p in parsed ==> Sound(p) && OwnTests(p) && p.spec in m.jobs
    ensures forall j :: j in PublicationJobs(parsed) ==> JobBalanced(j)
  {
    forall p | p in parsed ensures Sound(p) && OwnTests(p) && p.spec in m.jobs { }
    forall j | j in PublicationJobs(parsed) ensures JobBalanced(j) {
      var i :| 0 <= i < |PublicationJobs(parsed)| && PublicationJobs(parsed)[i] == j;
      SoundJobBalances(parsed[i]);
    }
  }

  lemma TotalsBalance(m: RunManifest, results: seq<JobResult>, parsed: seq<ParsedJob>)
    requires WellFormed(m) && Parity(m, results, parsed)
    ensures Profiled(parsed) && Balanced(CountsOf(m.tests, PublicationJobs(parsed)))
  {
    RunJobs(m, results, parsed);
    SumsBalance(PublicationJobs(parsed));
    AllTests(parsed);
    SameSize(Assigned(SpecsOf(parsed)), m.tests);
  }

  lemma RowBalances(m: RunManifest, results: seq<JobResult>, parsed: seq<ParsedJob>, k: string)
    requires WellFormed(m) && Parity(m, results, parsed)
    ensures Profiled(parsed)
    ensures Balanced(CountsOf(Filter(m.tests, Keyed(TestProject(), k)),
                              Filter(PublicationJobs(parsed), Keyed(JobProject(), k))))
  {
    RunJobs(m, results, parsed);
    var mine := Filter(PublicationJobs(parsed), Keyed(JobProject(), k));
    forall j | j in mine ensures JobBalanced(j) {
      FilterElements(PublicationJobs(parsed), Keyed(JobProject(), k), j);
    }
    SumsBalance(mine);
    ProjectTests(parsed, k);
    FilterOfPermutation(Assigned(SpecsOf(parsed)), m.tests, Keyed(TestProject(), k));
  }

  // ---------------------------------------------------------------------------
  // Settled profiles, read off the manifest
  // ---------------------------------------------------------------------------

  predicate HasJob(m: RunManifest, project: string) {
    exists j :: j in m.jobs && j.project == project
  }

  predicate SameProfile(j: JobSpec, k: JobSpec) {
    forall u, v :: u in j.tests && v in k.tests ==> u.profile == v.profile
  }

  /** No two tests of the project's jobs declare different profiles. */
  predicate OneDeclared(m: RunManifest, project: string) {
    forall j, k :: j in m.jobs && k in m.jobs && j.project == project && k.project == project ==> SameProfile(j, k)
  }

  /** Every project with a test has a job, and its jobs declare one profile. */
  predicate ProjectsDeclared(m: RunManifest) {
    forall t :: t in m.tests ==> HasJob(m, t.project) && OneDeclared(m, t.project)
  }

  /** The parsed jobs and the jobs of the manifest answer each other. */
  ghost predicate Answered(m: RunManifest, parsed: seq<ParsedJob>) {
    && (forall p :: p in parsed ==> Sound(p) && p.spec in m.jobs)
    && (forall s :: s in m.jobs ==> exists p :: p in parsed && p.spec == s)
  }

  lemma RunIsAnswered(m: RunManifest, results: seq<JobResult>, parsed: seq<ParsedJob>)
    requires SoundRun(m, results, parsed) && multiset(SpecsOf(parsed)) == multiset(m.jobs)
    ensures Profiled(parsed) && Answered(m, parsed)
  {
    forall s | s in m.jobs ensures exists p :: p in parsed && p.spec == s {
      assert s in multiset(SpecsOf(parsed));
      var i :| 0 <= i < |parsed| && SpecsOf(parsed)[i] == s;
      assert parsed[i] in parsed;
    }
  }

  /** The published profiles of a job are the one that its tests declare. */
  lemma PublishedProfile(parsed: seq<ParsedJob>, j: PublicationJob) returns (p: ParsedJob)
    requires Profiled(parsed) && (forall p :: p in parsed ==> Sound(p)) && j in PublicationJobs(parsed)
    ensures p in parsed && j == PublicationJobOf(p) && j.project == p.spec.project
    ensures j.expectedProfile == j.actualProfile && p.spec.tests != []
    ensures forall u :: u in p.spec.tests ==> u.profile == j.expectedProfile
  {
    var i :| 0 <= i < |parsed| && PublicationJobs(parsed)[i] == j;
    p := parsed[i];
    assert p in parsed;
  }

  lemma PublishedJob(parsed: seq<ParsedJob>, p: ParsedJob)
    requires Profiled(parsed) && p in parsed
    ensures PublicationJobOf(p) in PublicationJobs(parsed)
  {
    var i :| 0 <= i < |parsed| && parsed[i] == p;
    assert PublicationJobs(parsed)[i] == PublicationJobOf(p);
  }

  lemma OneIn(jobs: seq<PublicationJob>, project: string, profile: Profile)
    requires exists j :: j in jobs && j.project == project
    requires forall j :: j in jobs && j.project == project ==>
      j.expectedProfile == profile && j.actualProfile == profile
    ensures SettledIn(jobs, project)
  {
    assert ExpectedIn(jobs, project) == {profile} && ActualIn(jobs, project) == {profile};
  }

  lemma SameInOne(profiles: set<Profile>, a: Profile, b: Profile)
    requires |profiles| == 1 && a in profiles && b in profiles
    ensures a == b
  {
    assert |profiles - {a}| == 0;
    assert b !in profiles - {a};
  }

  lemma SameDeclared(m: RunManifest, parsed: seq<ParsedJob>, project: string, j: PublicationJob, k: PublicationJob)
    requires Profiled(parsed) && Answered(m, parsed) && OneDeclared(m, project)
    requires j in PublicationJobs(parsed) && k in PublicationJobs(parsed)
    requires j.project == project && k.project == project
    ensures k.expectedProfile == j.expectedProfile && k.actualProfile == j.expectedProfile
  {
    var p := PublishedProfile(parsed, j);
    var q := PublishedProfile(parsed, k);
    assert SameProfile(p.spec, q.spec);
    assert p.spec.tests[0] in p.spec.tests && q.spec.tests[0] in q.spec.tests;
  }

  lemma JobIsPublished(m: RunManifest, parsed: seq<ParsedJob>, s: JobSpec) returns (j: PublicationJob)
    requires Profiled(parsed) && Answered(m, parsed) && s in m.jobs
    ensures j in PublicationJobs(parsed) && j.project == s.project
    ensures forall u :: u in s.tests ==> u.profile == j.expectedProfile
  {
    var p :| p in parsed && p.spec == s;
    PublishedJob(parsed, p);
    j := PublicationJobOf(p);
  }

  lemma DeclaredIsSettled(m: RunManifest, parsed: seq<ParsedJob>, project: string)
    requires Profiled(parsed) && Answered(m, parsed) && HasJob(m, project) && OneDeclared(m, project)
    ensures SettledIn(PublicationJobs(parsed), project)
  {
    var jobs := PublicationJobs(parsed);
    var s :| s in m.jobs && s.project == project;
    var first := JobIsPublished(m, parsed, s);
    forall j | j in jobs && j.project == project
      ensures j.expectedProfile == first.expectedProfile && j.actualProfile == first.expectedProfile
    {
      SameDeclared(m, parsed, project, first, j);
    }
    OneIn(jobs, project, first.expectedProfile);
  }

  lemma SettledIsDeclared(m: RunManifest, parsed: seq<ParsedJob>, project: string)
    requires Profiled(parsed) && Answered(m, parsed) && SettledIn(PublicationJobs(parsed), project)
    ensures HasJob(m, project) && OneDeclared(m, project)
  {
    var jobs := PublicationJobs(parsed);
    var profile :| profile in ExpectedIn(jobs, project);
    var j :| j in jobs && j.project == project && j.expectedProfile == profile;
    var p := PublishedProfile(parsed, j);
    forall s, u | s in m.jobs && s.project == project && u in s.tests ensures u.profile == profile {
      var k := JobIsPublished(m, parsed, s);
      assert k.expectedProfile in ExpectedIn(jobs, project);
      SameInOne(ExpectedIn(jobs, project), k.expectedProfile, profile);
    }
  }

  lemma SettledInExactly(m: RunManifest, parsed: seq<ParsedJob>, project: string)
    requires Profiled(parsed) && Answered(m, parsed)
    ensures SettledIn(PublicationJobs(parsed), project) <==> HasJob(m, project) && OneDeclared(m, project)
  {
    if HasJob(m, project) && OneDeclared(m, project) {
      DeclaredIsSettled(m, parsed, project);
    } else if SettledIn(PublicationJobs(parsed), project) {
      SettledIsDeclared(m, parsed, project);
    }
  }

  /** Once the results answer the jobs, the profiles are settled exactly when the manifest declares them. */
  lemma SettledExactly(m: RunManifest, parsed: seq<ParsedJob>)
    requires Profiled(parsed) && Answered(m, parsed)
    ensures ProfilesSettled(m, PublicationJobs(parsed)) <==> ProjectsDeclared(m)
  {
    forall project
      ensures SettledIn(PublicationJobs(parsed), project) <==> HasJob(m, project) && OneDeclared(m, project)
    {
      SettledInExactly(m, parsed, project);
    }
  }

  /** After the checks of a run with a covered manifest the payload exists exactly when every project with a test
      has a job and its jobs declare one profile. */
  lemma CheckedPayloadExactly(w: string -> World, m: RunManifest, results: seq<JobResult>,
                              rootsValid: JobResult -> bool,
                              names: seq<string>, le: (string, string) -> bool)
    requires Covered(m) && Checked(w, m, results, rootsValid).Ok?
    ensures var parsed := Checked(w, m, results, rootsValid).value;
      Profiled(parsed) && (LegacyPayload(m, PublicationJobs(parsed), names, le).Ok? <==> ProjectsDeclared(m))
  {
    var parsed := Checked(w, m, results, rootsValid).value;
    CheckedFacts(w, m, results, rootsValid);
    SpecsAreTheJobs(m, results, parsed);
    RunIsAnswered(m, results, parsed);
    SettledExactly(m, parsed);
    PayloadExactly(m, PublicationJobs(parsed), names, le);
  }

  // A well-formed manifest declares its profiles.

  lemma OneProfileOnly(m: RunManifest, t: DiscoveredTest, u: DiscoveredTest)
    requires OneProfilePerProject(m) && t in m.tests && u in m.tests && t.project == u.project
    ensures t.profile == u.profile
  {
    var mine := Filter(m.tests, InProject(t.project));
    FilterElements(m.tests, InProject(t.project), t);
    FilterElements(m.tests, InProject(t.project), u);
    assert t.project in ExpectedProjects(m);
    OneProfile(mine);
  }

  lemma {:induction false} AssignedSomewhere(jobs: seq<JobSpec>, t: DiscoveredTest) returns (j: JobSpec)
    requires t in Assigned(jobs)
    ensures j in jobs && t in j.tests
  {
    if t in jobs[0].tests {
      j := jobs[0];
    } else {
      j := AssignedSomewhere(jobs[1..], t);
    }
  }

  lemma WellFormedIsDeclared(m: RunManifest)
    requires WellFormed(m) && OneProfilePerProject(m)
    ensures ProjectsDeclared(m)
  {
    AssignedAreListed(m, m.jobs);
    SameRecords(m.tests, Assigned(m.jobs));
    forall t | t in m.tests ensures HasJob(m, t.project) && OneDeclared(m, t.project) {
      assert t in multiset(m.tests) && t in Assigned(m.jobs);
      var j := AssignedSomewhere(m.jobs, t);
      forall a, b, u, v | a in m.jobs && b in m.jobs && a.project == t.project && b.project == t.project
                          && u in a.tests && v in b.tests
        ensures u.profile == v.profile
      {
        OneProfileOnly(m, u, v);
      }
    }
  }

  /** After the checks of the run, the payload of a well-formed manifest is never refused. */
  lemma PayloadExists(m: RunManifest, results: seq<JobResult>, parsed: seq<ParsedJob>, names: seq<string>,
                      le: (string, string) -> bool)
    requires WellFormed(m) && OneProfilePerProject(m) && Parity(m, results, parsed)
    ensures Profiled(parsed) && LegacyPayload(m, PublicationJobs(parsed), names, le).Ok?
  {
    forall n ensures multiset(JobIds(m.jobs))[n] == multiset(ResultIds(results))[n] { }
    SpecsAreTheJobs(m, results, parsed);
    RunIsAnswered(m, results, parsed);
    WellFormedIsDeclared(m);
    SettledExactly(m, parsed);
    PayloadExactly(m, PublicationJobs(parsed), names, le);
  }

  // ---------------------------------------------------------------------------
  // The rows add up to the totals
  // ---------------------------------------------------------------------------

  function Plus(a: Counts, b: Counts): Counts {
    Counts(a.expectedTests + b.expectedTests, a.actualTests + b.actualTests, a.passed + b.passed, a.skipped + b.skipped,
           a.expectedScenarios + b.expectedScenarios, a.actualScenarios + b.actualScenarios,
           a.expectedEvidence + b.expectedEvidence, a.actualEvidence + b.actualEvidence)
  }

  const ZERO := Counts(0, 0, 0, 0, 0, 0, 0, 0)

  function SumOfRows(rows: seq<ProjectSummary>): Counts {
    if rows == [] then ZERO else Plus(rows[0].counts, SumOfRows(rows[1..]))
  }

  lemma {:induction false} CountOnes(tests: seq<DiscoveredTest>)
    ensures Sum(tests, One()) == |tests|
  {
    if tests != [] {
      CountOnes(tests[1..]);
    }
  }

  function ProjectCounts(tests: seq<DiscoveredTest>, jobs: seq<PublicationJob>, k: string): Counts {
    CountsOf(Filter(tests, Keyed(TestProject(), k)), Filter(jobs, Keyed(JobProject(), k)))
  }

  ghost predicate CountsAre(tests: seq<DiscoveredTest>, jobs: seq<PublicationJob>, ks: seq<string>,
                            rows: seq<ProjectSummary>) {
    && |rows| == |ks|
    && forall i :: 0 <= i < |rows| ==> rows[i].counts == ProjectCounts(tests, jobs, ks[i])
  }

  ghost predicate Additive(field: Counts -> int) {
    field(ZERO) == 0 && forall a, b :: field(Plus(a, b)) == field(a) + field(b)
  }

  ghost predicate FieldIs<T>(rows: seq<ProjectSummary>, ks: seq<string>, s: seq<T>, key: T -> string, f: T -> int,
                             field: Counts -> int)
  {
    |rows| == |ks| && forall i :: 0 <= i < |rows| ==> field(rows[i].counts) == Sum(Filter(s, Keyed(key, ks[i])), f)
  }

  lemma {:induction false} FieldOfRows<T>(rows: seq<ProjectSummary>, ks: seq<string>, s: seq<T>, key: T -> string,
                                          f: T -> int, field: Counts -> int)
    requires Additive(field) && FieldIs(rows, ks, s, key, f, field)
    ensures field(SumOfRows(rows)) == GroupSum(ks, s, key, f)
    decreases |rows|
  {
    if rows != [] {
      FieldOfRows(rows[1..], ks[1..], s, key, f, field);
    }
  }

  lemma FieldAddsUp<T>(rows: seq<ProjectSummary>, ks: seq<string>, s: seq<T>, key: T -> string, f: T -> int,
                       field: Counts -> int)
    requires Additive(field) && FieldIs(rows, ks, s, key, f, field)
    requires NoRepeats(ks) && forall x :: x in s ==> key(x) in ks
    ensures field(SumOfRows(rows)) == Sum(s, f)
  {
    FieldOfRows(rows, ks, s, key, f, field);
    GroupsAddUp(ks, s, key, f);
  }

  lemma TestsAddUp(tests: seq<DiscoveredTest>, jobs: seq<PublicationJob>, ks: seq<string>, rows: seq<ProjectSummary>)
    requires CountsAre(tests, jobs, ks, rows) && NoRepeats(ks) && forall t :: t in tests ==> t.project in ks
    ensures SumOfRows(rows).expectedTests == |tests|
  {
    forall i | 0 <= i < |rows|
      ensures rows[i].counts.expectedTests == Sum(Filter(tests, Keyed(TestProject(), ks[i])), One())
    {
      CountOnes(Filter(tests, Keyed(TestProject(), ks[i])));
    }
    FieldAddsUp(rows, ks, tests, TestProject(), One(), (c: Counts) => c.expectedTests);
    CountOnes(tests);
  }

  lemma JobsAddUp(tests: seq<DiscoveredTest>, jobs: seq<PublicationJob>, ks: seq<string>, rows: seq<ProjectSummary>)
    requires CountsAre(tests, jobs, ks, rows) && NoRepeats(ks) && forall j :: j in jobs ==> j.project in ks
    ensures SumOfRows(rows).(expectedTests := 0) == CountsOf([], jobs)
  {
    FieldAddsUp(rows, ks, jobs, JobProject(), Actual(), (c: Counts) => c.actualTests);
    FieldAddsUp(rows, ks, jobs, JobProject(), Passed(), (c: Counts) => c.passed);
    FieldAddsUp(rows, ks, jobs, JobProject(), Skipped(), (c: Counts) => c.skipped);
    FieldAddsUp(rows, ks, jobs, JobProject(), Scenarios(), (c: Counts) => c.expectedScenarios);
    FieldAddsUp(rows, ks, jobs, JobProject(), Actual(), (c: Counts) => c.actualScenarios);
    FieldAddsUp(rows, ks, jobs, JobProject(), Evidence(), (c: Counts) => c.expectedEvidence);
    FieldAddsUp(rows, ks, jobs, JobProject(), Found(), (c: Counts) => c.actualEvidence);
  }

  /** The rows add up to the totals when every test and every job is of a listed project. */
  lemma RowsAddUp(m: RunManifest, jobs: seq<PublicationJob>, ks: seq<string>, rows: seq<ProjectSummary>)
    requires RowsAre(m, jobs, ks, rows) && NoRepeats(ks)
    requires (forall t :: t in m.tests ==> t.project in ks) && (forall j :: j in jobs ==> j.project in ks)
    ensures SumOfRows(rows) == CountsOf(m.tests, jobs)
  {
    TestsAddUp(m.tests, jobs, ks, rows);
    JobsAddUp(m.tests, jobs, ks, rows);
  }

  // ---------------------------------------------------------------------------
  // The published payload
  // ---------------------------------------------------------------------------

  lemma JobsAreListed(m: RunManifest, parsed: seq<ParsedJob>, ks: seq<string>)
    requires WellFormed(m) && Profiled(parsed)
      && (forall p :: p in parsed ==> Sound(p) && OwnTests(p) && p.spec in m.jobs)
    requires forall t :: t in m.tests ==> t.project in ks
    ensures forall j :: j in PublicationJobs(parsed) ==> j.project in ks
  {
    forall j | j in PublicationJobs(parsed) ensures j.project in ks {
      var i :| 0 <= i < |PublicationJobs(parsed)| && PublicationJobs(parsed)[i] == j;
      var spec := parsed[i].spec;
      assert parsed[i] in parsed && spec.tests[0] in spec.tests && spec.tests[0] in m.tests;
    }
  }

  /** The payload of a checked run with a well-formed manifest: one row a project, every count balanced in the rows
      and in the totals, and the rows add up to the totals. */
  lemma PayloadBalances(m: RunManifest, results: seq<JobResult>, parsed: seq<ParsedJob>, names: seq<string>,
                        le: (string, string) -> bool)
    requires WellFormed(m) && OneProfilePerProject(m) && Parity(m, results, parsed)
    ensures Profiled(parsed) && LegacyPayload(m, PublicationJobs(parsed), names, le).Ok?
    ensures var p := LegacyPayload(m, PublicationJobs(parsed), names, le).value;
      && RowsAre(m, PublicationJobs(parsed), SortedProjects(m, le), p.projects)
      && Balanced(p.counts) && (forall row :: row in p.projects ==> Balanced(row.counts))
      && SumOfRows(p.projects) == p.counts
  {
    PayloadExists(m, results, parsed, names, le);
    var jobs, ks := PublicationJobs(parsed), SortedProjects(m, le);
    var rows := RowsWalk(m, jobs, ks);
    RunJobs(m, results, parsed);
    SortedProjectsAre(m, le);
    JobsAreListed(m, parsed, ks);
    RowsAddUp(m, jobs, ks, rows);
    TotalsBalance(m, results, parsed);
    forall i | 0 <= i < |rows| ensures Balanced(rows[i].counts) {
      RowBalances(m, results, parsed, ks[i]);
    }
  }

  lemma {:induction false} SameIds(jobs: seq<PublicationJob>)
    requires forall j :: j in jobs ==> multiset(j.expectedScenarioIds) == multiset(j.actualTestIds)
    requires forall j :: j in jobs ==> multiset(j.skippedTestIds) <= multiset(j.actualTestIds)
    ensures multiset(Flat(jobs, ExpectedIdsOf())) == multiset(Flat(jobs, ActualIdsOf()))
    ensures multiset(Flat(jobs, SkippedIdsOf())) <= multiset(Flat(jobs, ActualIdsOf()))
  {
    if jobs != [] {
      assert jobs[0] in jobs;
      SameIds(jobs[1..]);
    }
  }

  /** In the payload the sorted lists of expected and actual ids are the same list, and the skipped ids are among
      them. */
  lemma IdListsAgree(m: RunManifest, results: seq<JobResult>, parsed: seq<ParsedJob>, names: seq<string>,
                     le: (string, string) -> bool)
    requires SoundRun(m, results, parsed) && Profiled(parsed) && TotalPreorder(le) && Antisymmetric(le)
    requires LegacyPayload(m, PublicationJobs(parsed), names, le).Ok?
    ensures var p := LegacyPayload(m, PublicationJobs(parsed), names, le).value;
      p.expectedIds == p.actualIds && multiset(p.skippedIds) <= multiset(p.actualIds)
  {
    var jobs := PublicationJobs(parsed);
    forall j | j in jobs
      ensures multiset(j.expectedScenarioIds) == multiset(j.actualTestIds)
      ensures multiset(j.skippedTestIds) <= multiset(j.actualTestIds)
    {
      var i :| 0 <= i < |jobs| && jobs[i] == j;
      assert Sound(parsed[i]);
    }
    SameIds(jobs);
    IdListsSorted(Flat(jobs, ExpectedIdsOf()), Flat(jobs, ActualIdsOf()), Flat(jobs, SkippedIdsOf()), le);
  }

  lemma IdListsSorted(expected: seq<string>, actual: seq<string>, skipped: seq<string>, le: (string, string) -> bool)
    requires TotalPreorder(le) && Antisymmetric(le)
    requires multiset(expected) == multiset(actual) && multiset(skipped) <= multiset(actual)
    ensures Sort(expected, le) == Sort(actual, le) && multiset(Sort(skipped, le)) <= multiset(Sort(actual, le))
  {
    SortOfPermutation(expected, actual, le);
    SortPermutes(skipped, le);
    SortPermutes(actual, le);
  }

  /** A run that passes the checks of the aggregation publishes a balanced payload. */
  lemma CheckedRunBalances(w: string -> World, m: RunManifest, results: seq<JobResult>, rootsValid: JobResult -> bool,
                           names: seq<string>, le: (string, string) -> bool)
    requires WellFormed(m) && Checked(w, m, results, rootsValid).Ok?
    ensures var parsed := Checked(w, m, results, rootsValid).value;
      Profiled(parsed) && BalancedPayload(LegacyPayload(m, PublicationJobs(parsed), names, le))
  {
    var parsed := Checked(w, m, results, rootsValid).value;
    CheckedFacts(w, m, results, rootsValid);
    ExactlyOnce(w, m, results, rootsValid);
    PayloadBalances(m, results, parsed, names, le);
  }

  ghost predicate BalancedPayload(p: Result<Payload, PublicationError>) {
    && p.Ok? && Balanced(p.value.counts)
    && (forall row :: row in p.value.projects ==> Balanced(row.counts))
    && SumOfRows(p.value.projects) == p.value.counts
  }

  /** What is published of a job, read off its specification, its result and its report. */
  ghost predicate PublishedAs(w: string -> World, j: PublicationJob, spec: JobSpec, r: JobResult) {
    var report := ReportOf(w, spec, r);
    && spec.jobId == r.jobId == j.jobId && j.workerId == r.workerId && j.project == r.project
    && j.expectedProfile == r.profile && j.actualProfile == r.profile
    && j.expectedScenarioIds == TestIds(spec.tests)
    && report.Ok? && j.actualTestIds == report.value.testIds && j.skippedTestIds == report.value.skippedTestIds
    && j.expectedEvidenceNames == r.expectedEvidenceNames
    && multiset(j.actualEvidenceNames) == multiset(r.expectedEvidenceNames)
    && j.actualEvidenceCount == |r.expectedEvidenceNames| && r.screenshots == Some(j.screenshots)
  }

  /** After the checks of a run the published jobs answer the results one by one, and say what these hold. */
  lemma PublishedAsReported(w: string -> World, m: RunManifest, results: seq<JobResult>, rootsValid: JobResult -> bool)
    requires Checked(w, m, results, rootsValid).Ok?
    ensures var parsed := Checked(w, m, results, rootsValid).value;
      && Profiled(parsed) && |PublicationJobs(parsed)| == |results|
      && forall i :: 0 <= i < |results| ==>
           parsed[i].spec in m.jobs && PublishedAs(w, PublicationJobs(parsed)[i], parsed[i].spec, results[i])
  {
    var parsed := Checked(w, m, results, rootsValid).value;
    CheckedFacts(w, m, results, rootsValid);
    CheckedCarries(w, m, results, rootsValid);
    forall i | 0 <= i < |results|
      ensures parsed[i].spec in m.jobs && PublishedAs(w, PublicationJobs(parsed)[i], parsed[i].spec, results[i])
    {
      assert Sound(parsed[i]);
    }
  }
}
