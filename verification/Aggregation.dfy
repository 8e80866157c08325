/**
 The checks of one complete run before anything is published (scripts/e2e_scheduler/aggregate.py), over the
 manifests of scripts/e2e_scheduler/model.py.
 */
module Aggregation {
  import opened Outcomes
  import opened Sorting
  import opened Walks
  import opened Reports
  import StrictReport

  datatype Profile = Profile(browser: string, viewport: Option<(int, int)>)
  datatype DiscoveredTest = DiscoveredTest(testId: string, project: string, specPath: string, profile: Profile)
  datatype JobSpec = JobSpec(jobId: string, project: string, specPath: string, tests: seq<DiscoveredTest>)
  datatype RunManifest = RunManifest(runId: string, tests: seq<DiscoveredTest>, jobs: seq<JobSpec>)

  /** A file below an artifact directory, with the name that parity compares. */
  datatype File = File(path: string, name: string, size: nat)

  /** What one job left behind; a directory that does not exist is None. */
  datatype JobResult = JobResult(
    jobId: string, workerId: string, project: string, profile: Profile, repositoryRoot: string,
    returnCode: int, cleanupSucceeded: bool, expectedEvidenceNames: seq<string>,
    report: Option<Report>, screenshots: Option<seq<File>>, evidence: Option<seq<File>>)

  datatype ParsedJob = ParsedJob(
    spec: JobSpec, result: JobResult, actualTestIds: seq<string>, skippedTestIds: seq<string>,
    screenshots: seq<File>, actualEvidenceNames: seq<string>, actualEvidenceCount: nat)

  datatype AggregationError =
    | JobParity | ProjectProfiles | JobExited | CleanupFailed | DuplicateEvidence | InconsistentProfiles
    | ProfileMismatch
    | ReportRefused(reason: StrictReport.ReportError) | ArtifactsMissing | ArtifactsEmpty | EvidenceMismatch
    | TestParity | RepositoryRootsDiffer | ArtifactRootsInvalid | StagingFailed | CommitFailed

  // ---------------------------------------------------------------------------
  // Manifests
  // ---------------------------------------------------------------------------

  function TestIds(tests: seq<DiscoveredTest>): (ids: seq<string>)
    ensures |ids| == |tests|
    ensures forall i :: 0 <= i < |ids| ==> ids[i] == tests[i].testId
  {
    if tests == [] then [] else [tests[0].testId] + TestIds(tests[1..])
  }

  function JobIds(jobs: seq<JobSpec>): seq<string> {
    if jobs == [] then [] else [jobs[0].jobId] + JobIds(jobs[1..])
  }

  function Assigned(jobs: seq<JobSpec>): seq<DiscoveredTest> {
    if jobs == [] then [] else jobs[0].tests + Assigned(jobs[1..])
  }

  /** The checks of `RunManifest.__post_init__` on jobs and coverage. */
  ghost predicate Covered(m: RunManifest) {
    && (forall j, t :: j in m.jobs && t in j.tests ==> t.project == j.project && t.specPath == j.specPath)
    && NoRepeats(TestIds(m.tests))
    && multiset(TestIds(Assigned(m.jobs))) == multiset(TestIds(m.tests))
  }

  /** Ids stand for records: a test that a job lists is the manifest's own test. */
  ghost predicate RecordsAgree(m: RunManifest) {
    forall j, t :: j in m.jobs && t in j.tests ==> t in m.tests
  }

  ghost predicate WellFormed(m: RunManifest) { Covered(m) && RecordsAgree(m) }

  function ProfilesOf(tests: seq<DiscoveredTest>): set<Profile> { set t | t in tests :: t.profile }

  function InProject(project: string): DiscoveredTest -> bool { (t: DiscoveredTest) => t.project == project }

  function ExpectedProjects(m: RunManifest): set<string> { set t | t in m.tests :: t.project }

  predicate OneProfilePerProject(m: RunManifest) {
    forall p :: p in ExpectedProjects(m) ==> |ProfilesOf(Filter(m.tests, InProject(p)))| == 1
  }

  // ---------------------------------------------------------------------------
  // One job
  // ---------------------------------------------------------------------------

  /** The one runtime profile of a job (aggregate_report.py:150-155). */
  function ExpectedProfile(spec: JobSpec): (r: Result<Profile, AggregationError>)
    ensures r.Ok? ==> spec.tests != [] && forall t :: t in spec.tests ==> t.profile == r.value
  {
    var profiles := ProfilesOf(spec.tests);
    if |profiles| != 1 then Err(InconsistentProfiles)
    else
      OneProfile(spec.tests);
      Ok(spec.tests[0].profile)
  }

  lemma OneProfile(tests: seq<DiscoveredTest>)
    requires |ProfilesOf(tests)| == 1
    ensures tests != [] && forall t :: t in tests ==> t.profile == tests[0].profile
  {
    var p :| p in ProfilesOf(tests);
    assert |ProfilesOf(tests) - {p}| == 0;
    forall t | t in tests ensures t.profile == p {
      assert t.profile in ProfilesOf(tests);
      assert t.profile !in ProfilesOf(tests) - {p};
    }
  }

  function ArtifactFiles(directory: Option<seq<File>>): Result<seq<File>, AggregationError> {
    if directory.None? then Err(ArtifactsMissing)
    else if exists f :: f in directory.value && f.size == 0 then Err(ArtifactsEmpty)
    else Ok(directory.value)
  }

  function FileNames(files: seq<File>): (names: seq<string>)
    ensures |names| == |files|
  {
    if files == [] then [] else [files[0].name] + FileNames(files[1..])
  }

  function ExpectationOf(spec: JobSpec): StrictReport.Expectation {
    StrictReport.Expectation(spec.project, spec.specPath, TestIds(spec.tests))
  }

  function RepeatsNothing(names: seq<string>): (r: bool)
    ensures r <==> NoRepeats(names)
  {
    forall n :: n in names ==> multiset(names)[n] == 1
  }

  function ParseJob(w: string -> World, spec: JobSpec, result: JobResult): Result<ParsedJob, AggregationError> {
    if result.returnCode != 0 then Err(JobExited)
    else if !result.cleanupSucceeded then Err(CleanupFailed)
    else if !RepeatsNothing(result.expectedEvidenceNames) then Err(DuplicateEvidence)
    else match ExpectedProfile(spec)
      case Err(e) => Err(e)
      case Ok(profile) =>
        if result.project != spec.project || result.profile != profile then Err(ProfileMismatch)
        else match StrictReport.Parsed(w(result.repositoryRoot), ExpectationOf(spec), result.report)
          case Err(e) => Err(ReportRefused(e))
          case Ok(report) => WithArtifacts(w, spec, result, report)
  }

  function WithArtifacts(w: string -> World, spec: JobSpec, result: JobResult, report: StrictReport.ReportedJob)
    : Result<ParsedJob, AggregationError>
  {
    match ArtifactFiles(result.screenshots)
    case Err(e) => Err(e)
    case Ok(screenshots) => match ArtifactFiles(result.evidence)
      case Err(e) => Err(e)
      case Ok(evidence) =>
        var names := FileNames(screenshots) + FileNames(evidence);
        if multiset(names) != multiset(result.expectedEvidenceNames) then Err(EvidenceMismatch)
        else Ok(ParsedJob(spec, result, report.testIds, report.skippedTestIds, screenshots,
                          Sort(names, w(result.repositoryRoot).le), |names|))
  }

  /** What a parsed job is known to satisfy. */
  ghost predicate Sound(j: ParsedJob) {
    && j.spec.jobId == j.result.jobId
    && j.result.returnCode == 0 && j.result.cleanupSucceeded
    && j.result.project == j.spec.project
    && ExpectedProfile(j.spec) == Ok(j.result.profile)
    && multiset(j.actualTestIds) == multiset(TestIds(j.spec.tests))
    && multiset(j.skippedTestIds) <= multiset(j.actualTestIds)
    && NoRepeats(j.result.expectedEvidenceNames)
    && multiset(j.actualEvidenceNames) == multiset(j.result.expectedEvidenceNames)
    && j.actualEvidenceCount == |j.actualEvidenceNames|
  }

  lemma ParsedJobIsSound(w: string -> World, spec: JobSpec, result: JobResult)
    requires spec.jobId == result.jobId && ParseJob(w, spec, result).Ok?
    ensures Sound(ParseJob(w, spec, result).value)
    ensures ParseJob(w, spec, result).value.spec == spec && ParseJob(w, spec, result).value.result == result
  {
    StrictReport.SkippedAreReported(w(result.repositoryRoot), ExpectationOf(spec), result.report);
    var names := FileNames(result.screenshots.value) + FileNames(result.evidence.value);
    SortPermutes(names, w(result.repositoryRoot).le);
  }

  lemma ProfileExactly(spec: JobSpec, profile: Profile)
    ensures ExpectedProfile(spec) == Ok(profile)
      <==> spec.tests != [] && forall t :: t in spec.tests ==> t.profile == profile
  {
    if spec.tests != [] && forall t :: t in spec.tests ==> t.profile == profile {
      assert spec.tests[0] in spec.tests;
      assert ProfilesOf(spec.tests) == {profile};
    }
  }

  /** What the strict parser makes of the report of a job. */
  function ReportOf(w: string -> World, spec: JobSpec, result: JobResult)
    : Result<StrictReport.ReportedJob, StrictReport.ReportError>
  {
    StrictReport.Parsed(w(result.repositoryRoot),
                        StrictReport.Expectation(spec.project, spec.specPath, TestIds(spec.tests)), result.report)
  }

  /** The artifacts are taken exactly when both directories exist, no file is empty, and the names found are the
      names expected. */
  lemma ArtifactsExactly(w: string -> World, spec: JobSpec, result: JobResult, report: StrictReport.ReportedJob)
    ensures WithArtifacts(w, spec, result, report).Ok? <==> ArtifactsMatch(result)
  {
  }

  predicate ArtifactsMatch(result: JobResult) {
    && ArtifactFiles(result.screenshots).Ok? && ArtifactFiles(result.evidence).Ok?
    && multiset(FileNames(result.screenshots.value) + FileNames(result.evidence.value))
       == multiset(result.expectedEvidenceNames)
  }

  /** A job is taken exactly when it exited well and cleaned up, ran in the one profile its tests declare, left a
      report that the strict parser accepts, and left every expected artifact, non-empty, and nothing else. */
  lemma JobAcceptedExactly(w: string -> World, spec: JobSpec, result: JobResult)
    ensures ParseJob(w, spec, result).Ok?
      <==> (&& result.returnCode == 0 && result.cleanupSucceeded && NoRepeats(result.expectedEvidenceNames)
            && spec.tests != [] && (forall t :: t in spec.tests ==> t.profile == result.profile)
            && result.project == spec.project
            && ReportOf(w, spec, result).Ok? && ArtifactsMatch(result))
  {
    ProfileExactly(spec, result.profile);
    var parsed := ReportOf(w, spec, result);
    if parsed.Ok? {
      ArtifactsExactly(w, spec, result, parsed.value);
    }
  }

  /** A parsed job holds what its report and its directories hold. */
  ghost predicate Carries(w: string -> World, j: ParsedJob) {
    var report := ReportOf(w, j.spec, j.result);
    && report.Ok? && j.actualTestIds == report.value.testIds && j.skippedTestIds == report.value.skippedTestIds
    && j.result.screenshots == Some(j.screenshots) && j.result.evidence.Some?
    && multiset(j.actualEvidenceNames) == multiset(j.result.expectedEvidenceNames)
    && j.actualEvidenceCount == |j.screenshots| + |j.result.evidence.value| == |j.result.expectedEvidenceNames|
  }

  lemma ParsedJobCarries(w: string -> World, spec: JobSpec, result: JobResult)
    requires ParseJob(w, spec, result).Ok?
    ensures Carries(w, ParseJob(w, spec, result).value)
  {
    var report := ReportOf(w, spec, result);
    assert WithArtifacts(w, spec, result, report.value) == ParseJob(w, spec, result);
    ArtifactsCarry(w, spec, result, report.value);
  }

  lemma ArtifactsCarry(w: string -> World, spec: JobSpec, result: JobResult, report: StrictReport.ReportedJob)
    requires WithArtifacts(w, spec, result, report).Ok?
    ensures var j := WithArtifacts(w, spec, result, report).value;
      && j.spec == spec && j.result == result
      && j.actualTestIds == report.testIds && j.skippedTestIds == report.skippedTestIds
      && result.screenshots == Some(j.screenshots) && result.evidence.Some?
      && multiset(j.actualEvidenceNames) == multiset(result.expectedEvidenceNames)
      && j.actualEvidenceCount == |j.screenshots| + |result.evidence.value| == |result.expectedEvidenceNames|
  {
    var names := FileNames(result.screenshots.value) + FileNames(result.evidence.value);
    SortPermutes(names, w(result.repositoryRoot).le);
    assert |multiset(names)| == |multiset(result.expectedEvidenceNames)|;
  }

  lemma ArtifactsRefusedFor(w: string -> World, spec: JobSpec, result: JobResult, report: StrictReport.ReportedJob)
    requires WithArtifacts(w, spec, result, report).Err?
    ensures WithArtifacts(w, spec, result, report).error ==
      if result.screenshots.None? then ArtifactsMissing
      else if exists f :: f in result.screenshots.value && f.size == 0 then ArtifactsEmpty
      else if result.evidence.None? then ArtifactsMissing
      else if exists f :: f in result.evidence.value && f.size == 0 then ArtifactsEmpty
      else EvidenceMismatch
  {
  }

  /** Why a result is refused: the first of the checks, in this order, that it fails. */
  lemma JobRefusedFor(w: string -> World, spec: JobSpec, result: JobResult)
    requires ParseJob(w, spec, result).Err?
    ensures var error, report := ParseJob(w, spec, result).error, ReportOf(w, spec, result);
      if result.returnCode != 0 then error == JobExited
      else if !result.cleanupSucceeded then error == CleanupFailed
      else if !RepeatsNothing(result.expectedEvidenceNames) then error == DuplicateEvidence
      else if !OneProfileDeclared(spec) then error == InconsistentProfiles
      else if result.project != spec.project || result.profile != spec.tests[0].profile then error == ProfileMismatch
      else if report.Err? then error == ReportRefused(report.error)
      else WithArtifacts(w, spec, result, report.value) == Err(error)
  {
    if OneProfileDeclared(spec) {
      ProfileExactly(spec, spec.tests[0].profile);
    }
  }

  predicate OneProfileDeclared(spec: JobSpec) {
    spec.tests != [] && forall t :: t in spec.tests ==> t.profile == spec.tests[0].profile
  }

  // ---------------------------------------------------------------------------
  // The run
  // ---------------------------------------------------------------------------

  function ResultIds(results: seq<JobResult>): seq<string> {
    if results == [] then [] else [results[0].jobId] + ResultIds(results[1..])
  }

  /** Each job of the manifest has exactly one result, and there are no others. */
  predicate JobsMatch(m: RunManifest, results: seq<JobResult>) {
    multiset(JobIds(m.jobs)) == multiset(ResultIds(results)) && RepeatsNothing(JobIds(m.jobs))
  }

  /** `jobs_by_id`. */
  function JobById(jobs: seq<JobSpec>, id: string): (j: Option<JobSpec>)
    ensures j.Some? <==> id in JobIds(jobs)
    ensures j.Some? ==> j.value in jobs && j.value.jobId == id
  {
    if jobs == [] then None
    else if JobById(jobs[1..], id).Some? then JobById(jobs[1..], id)
    else if jobs[0].jobId == id then Some(jobs[0])
    else None
  }

  function TakeResult(w: string -> World, m: RunManifest, r: JobResult): Result<ParsedJob, AggregationError> {
    match JobById(m.jobs, r.jobId)
    case None => Err(JobParity)
    case Some(spec) => ParseJob(w, spec, r)
  }

  function TakeStep(w: string -> World, m: RunManifest)
    : (seq<ParsedJob>, JobResult) -> Result<seq<ParsedJob>, AggregationError>
  {
    (jobs: seq<ParsedJob>, r: JobResult) =>
      match TakeResult(w, m, r)
      case Err(e) => Err(e)
      case Ok(job) => Ok(jobs + [job])
  }

  function ParseJobs(w: string -> World, m: RunManifest, results: seq<JobResult>)
    : Result<seq<ParsedJob>, AggregationError>
  {
    Walk([], results, TakeStep(w, m))
  }

  function AllActual(jobs: seq<ParsedJob>): seq<string> {
    if jobs == [] then [] else jobs[0].actualTestIds + AllActual(jobs[1..])
  }

  function Roots(results: seq<JobResult>): set<string> { set r | r in results :: r.repositoryRoot }

  /** Every check of `prepare_aggregation` before the first stage. */
  function Checked(w: string -> World, m: RunManifest, results: seq<JobResult>, rootsValid: JobResult -> bool)
    : Result<seq<ParsedJob>, AggregationError>
  {
    if !JobsMatch(m, results) then Err(JobParity)
    else if !OneProfilePerProject(m) then Err(ProjectProfiles)
    else match ParseJobs(w, m, results)
      case Err(e) => Err(e)
      case Ok(jobs) =>
        var error := RunError(m, results, jobs, rootsValid);
        if error.Some? then Err(error.value) else Ok(jobs)
  }

  /** The checks over all jobs at once. */
  function RunError(m: RunManifest, results: seq<JobResult>, jobs: seq<ParsedJob>, rootsValid: JobResult -> bool)
    : Option<AggregationError>
  {
    if multiset(TestIds(m.tests)) != multiset(AllActual(jobs)) then Some(TestParity)
    else if |Roots(results)| != 1 then Some(RepositoryRootsDiffer)
    else if exists r :: r in results && !rootsValid(r) then Some(ArtifactRootsInvalid)
    else None
  }

  /** The parsed jobs answer the results one by one, from jobs of the manifest. */
  ghost predicate SoundRun(m: RunManifest, results: seq<JobResult>, jobs: seq<ParsedJob>) {
    && |jobs| == |results|
    && forall i :: 0 <= i < |jobs| ==> jobs[i].result == results[i] && jobs[i].spec in m.jobs && Sound(jobs[i])
  }

  /** The result belongs to a job of the manifest and is taken. */
  predicate Taken(w: string -> World, m: RunManifest, r: JobResult) { TakeResult(w, m, r).Ok? }

  lemma ParsedOneByOne(w: string -> World, m: RunManifest, results: seq<JobResult>)
    ensures ParseJobs(w, m, results).Ok? <==> forall r :: r in results ==> Taken(w, m, r)
    ensures ParseJobs(w, m, results).Ok? ==>
      var jobs := ParseJobs(w, m, results).value;
      |jobs| == |results| && forall i :: 0 <= i < |results| ==> TakeResult(w, m, results[i]) == Ok(jobs[i])
  {
    var jobs := AppendWalk([], results, TakeStep(w, m), (r: JobResult) => TakeResult(w, m, r));
    assert [] + jobs == jobs;
  }

  lemma TakenIsSound(w: string -> World, m: RunManifest, r: JobResult)
    requires Taken(w, m, r)
    ensures var j := TakeResult(w, m, r).value; Sound(j) && j.result == r && j.spec in m.jobs
  {
    ParsedJobIsSound(w, JobById(m.jobs, r.jobId).value, r);
  }

  lemma ParsedJobsAreSound(w: string -> World, m: RunManifest, results: seq<JobResult>)
    requires ParseJobs(w, m, results).Ok?
    ensures SoundRun(m, results, ParseJobs(w, m, results).value)
  {
    ParsedOneByOne(w, m, results);
    var jobs := ParseJobs(w, m, results).value;
    forall i | 0 <= i < |jobs| ensures jobs[i].result == results[i] && jobs[i].spec in m.jobs && Sound(jobs[i]) {
      assert TakeResult(w, m, results[i]) == Ok(jobs[i]);
      TakenIsSound(w, m, results[i]);
    }
  }

  /** The jobs that a checked run hands on hold what the results and their reports hold. */
  lemma CheckedCarries(w: string -> World, m: RunManifest, results: seq<JobResult>, rootsValid: JobResult -> bool)
    requires Checked(w, m, results, rootsValid).Ok?
    ensures var jobs := Checked(w, m, results, rootsValid).value;
      && |jobs| == |results|
      && forall i :: 0 <= i < |jobs| ==> jobs[i].result == results[i] && Carries(w, jobs[i])
  {
    ParsedOneByOne(w, m, results);
    var jobs := Checked(w, m, results, rootsValid).value;
    forall i | 0 <= i < |jobs| ensures jobs[i].result == results[i] && Carries(w, jobs[i]) {
      assert TakeResult(w, m, results[i]) == Ok(jobs[i]);
      TakenIsSound(w, m, results[i]);
      ParsedJobCarries(w, JobById(m.jobs, results[i].jobId).value, results[i]);
    }
  }

  /** Why a run is refused: the first of its checks that fails; of the results, the first that is not taken. */
  lemma CheckedRefusedFor(w: string -> World, m: RunManifest, results: seq<JobResult>, rootsValid: JobResult -> bool)
    requires Checked(w, m, results, rootsValid).Err?
    ensures var error := Checked(w, m, results, rootsValid).error;
      if !JobsMatch(m, results) then error == JobParity
      else if !OneProfilePerProject(m) then error == ProjectProfiles
      else if exists r :: r in results && !Taken(w, m, r) then
        exists i :: 0 <= i < |results| && TakeResult(w, m, results[i]) == Err(error)
                    && forall k :: 0 <= k < i ==> Taken(w, m, results[k])
      else error in {TestParity, RepositoryRootsDiffer, ArtifactRootsInvalid}
           && (error == ArtifactRootsInvalid ==> |Roots(results)| == 1 && exists r :: r in results && !rootsValid(r))
           && (error == RepositoryRootsDiffer ==> |Roots(results)| != 1)
  {
    ParsedOneByOne(w, m, results);
    if JobsMatch(m, results) && OneProfilePerProject(m) && ParseJobs(w, m, results).Err? {
      var i := FirstError([], results, TakeStep(w, m), (r: JobResult) => TakeResult(w, m, r));
    }
  }

  // ---------------------------------------------------------------------------
  // Exactly-once parity
  // ---------------------------------------------------------------------------

  function SpecsOf(jobs: seq<ParsedJob>): (specs: seq<JobSpec>)
    ensures |specs| == |jobs|
    ensures forall i :: 0 <= i < |specs| ==> specs[i] == jobs[i].spec
  {
    if jobs == [] then [] else [jobs[0].spec] + SpecsOf(jobs[1..])
  }

  lemma {:induction false} TestIdsAppend(a: seq<DiscoveredTest>, b: seq<DiscoveredTest>)
    ensures TestIds(a + b) == TestIds(a) + TestIds(b)
  {
  }

  /** The ids that the jobs report are the ids they were assigned. */
  lemma {:induction false} ActualIsAssigned(jobs: seq<ParsedJob>)
    requires forall j :: j in jobs ==> Sound(j)
    ensures multiset(AllActual(jobs)) == multiset(TestIds(Assigned(SpecsOf(jobs))))
  {
    if jobs != [] {
      assert jobs[0] in jobs;
      ActualIsAssigned(jobs[1..]);
      assert SpecsOf(jobs)[1..] == SpecsOf(jobs[1..]);
      TestIdsAppend(jobs[0].spec.tests, Assigned(SpecsOf(jobs[1..])));
    }
  }

  lemma {:induction false} AssignedAreListed(m: RunManifest, specs: seq<JobSpec>)
    requires RecordsAgree(m) && forall s :: s in specs ==> s in m.jobs
    ensures forall t :: t in Assigned(specs) ==> t in m.tests
  {
    if specs != [] {
      assert specs[0] in m.jobs;
      AssignedAreListed(m, specs[1..]);
    }
  }

  /** Records are counted like their ids as long as no id stands for two records. */
  lemma {:induction false} CountsById(tests: seq<DiscoveredTest>, t: DiscoveredTest)
    requires forall u :: u in tests && u.testId == t.testId ==> u == t
    ensures multiset(tests)[t] == multiset(TestIds(tests))[t.testId]
  {
    if tests != [] {
      assert tests == [tests[0]] + tests[1..];
      assert TestIds(tests) == [tests[0].testId] + TestIds(tests[1..]);
      assert tests[0] in tests;
      CountsById(tests[1..], t);
    }
  }

  lemma SameIdSameTest(tests: seq<DiscoveredTest>, t: DiscoveredTest, u: DiscoveredTest)
    requires NoRepeats(TestIds(tests)) && t in tests && u in tests && t.testId == u.testId
    ensures t == u
  {
    var i :| 0 <= i < |tests| && tests[i] == t;
    var k :| 0 <= k < |tests| && tests[k] == u;
    var ids := TestIds(tests);
    if i < k {
      OneOfEach(ids, i, k);
    } else if k < i {
      OneOfEach(ids, k, i);
    }
  }

  /** Lists of records with the same ids hold the same records, when ids stand for records. */
  lemma SameRecords(tests: seq<DiscoveredTest>, listed: seq<DiscoveredTest>)
    requires NoRepeats(TestIds(tests)) && (forall t :: t in listed ==> t in tests)
    requires multiset(TestIds(listed)) == multiset(TestIds(tests))
    ensures multiset(listed) == multiset(tests)
  {
    forall t ensures multiset(listed)[t] == multiset(tests)[t] {
      if t in tests {
        forall u | u in tests && u.testId == t.testId ensures u == t { SameIdSameTest(tests, t, u); }
        CountsById(tests, t);
        CountsById(listed, t);
      } else {
        assert t !in listed;
      }
    }
  }

  lemma AssignedAreTheManifest(m: RunManifest, results: seq<JobResult>, jobs: seq<ParsedJob>)
    requires WellFormed(m) && SoundRun(m, results, jobs) && multiset(AllActual(jobs)) == multiset(TestIds(m.tests))
    ensures multiset(Assigned(SpecsOf(jobs))) == multiset(m.tests)
  {
    ActualIsAssigned(jobs);
    AssignedAreListed(m, SpecsOf(jobs));
    SameRecords(m.tests, Assigned(SpecsOf(jobs)));
  }

  /** The results answer the jobs one for one, and the reported tests are the manifest's, each one once: what
      the jobs were assigned are the manifest's own records. */
  ghost predicate Parity(m: RunManifest, results: seq<JobResult>, jobs: seq<ParsedJob>) {
    && SoundRun(m, results, jobs)
    && multiset(ResultIds(results)) == multiset(JobIds(m.jobs)) && NoRepeats(ResultIds(results))
    && multiset(AllActual(jobs)) == multiset(TestIds(m.tests)) && NoRepeats(TestIds(m.tests))
    && multiset(Assigned(SpecsOf(jobs))) == multiset(m.tests)
  }

  lemma CheckedFacts(w: string -> World, m: RunManifest, results: seq<JobResult>, rootsValid: JobResult -> bool)
    requires Checked(w, m, results, rootsValid).Ok?
    ensures JobsMatch(m, results) && OneProfilePerProject(m)
    ensures OneValidRepository(results, rootsValid)
    ensures SoundRun(m, results, Checked(w, m, results, rootsValid).value)
    ensures multiset(TestIds(m.tests)) == multiset(AllActual(Checked(w, m, results, rootsValid).value))
  {
    ParsedJobsAreSound(w, m, results);
    RunErrorExactly(m, results, ParseJobs(w, m, results).value, rootsValid);
  }

  lemma ExactlyOnce(w: string -> World, m: RunManifest, results: seq<JobResult>, rootsValid: JobResult -> bool)
    requires WellFormed(m) && Checked(w, m, results, rootsValid).Ok?
    ensures Parity(m, results, Checked(w, m, results, rootsValid).value)
  {
    CheckedFacts(w, m, results, rootsValid);
    AssignedAreTheManifest(m, results, Checked(w, m, results, rootsValid).value);
    assert forall n :: multiset(ResultIds(results))[n] == multiset(JobIds(m.jobs))[n];
  }

  // ---------------------------------------------------------------------------
  // Exactly when a run passes the checks
  // ---------------------------------------------------------------------------

  lemma {:induction false} SpecIds(m: RunManifest, results: seq<JobResult>, jobs: seq<ParsedJob>)
    requires SoundRun(m, results, jobs)
    ensures JobIds(SpecsOf(jobs)) == ResultIds(results)
    decreases |jobs|
  {
    if jobs != [] {
      assert Sound(jobs[0]);
      SpecIds(m, results[1..], jobs[1..]);
      assert SpecsOf(jobs)[1..] == SpecsOf(jobs[1..]);
    }
  }

  /** Jobs are counted like their ids as long as no id stands for two jobs. */
  lemma {:induction false} CountsByJob(jobs: seq<JobSpec>, j: JobSpec)
    requires forall k :: k in jobs && k.jobId == j.jobId ==> k == j
    ensures multiset(jobs)[j] == multiset(JobIds(jobs))[j.jobId]
  {
    if jobs != [] {
      assert jobs == [jobs[0]] + jobs[1..];
      assert jobs[0] in jobs;
      CountsByJob(jobs[1..], j);
    }
  }

  lemma {:induction false} JobIdsAt(jobs: seq<JobSpec>)
    ensures |JobIds(jobs)| == |jobs| && forall i :: 0 <= i < |jobs| ==> JobIds(jobs)[i] == jobs[i].jobId
  {
    if jobs != [] {
      JobIdsAt(jobs[1..]);
    }
  }

  lemma SameIdSameJob(jobs: seq<JobSpec>, j: JobSpec, k: JobSpec)
    requires NoRepeats(JobIds(jobs)) && j in jobs && k in jobs && j.jobId == k.jobId
    ensures j == k
  {
    JobIdsAt(jobs);
    var a :| 0 <= a < |jobs| && jobs[a] == j;
    var b :| 0 <= b < |jobs| && jobs[b] == k;
    if a < b {
      OneOfEach(JobIds(jobs), a, b);
    } else if b < a {
      OneOfEach(JobIds(jobs), b, a);
    }
  }

  lemma SameJobs(jobs: seq<JobSpec>, found: seq<JobSpec>)
    requires NoRepeats(JobIds(jobs)) && (forall j :: j in found ==> j in jobs)
    requires multiset(JobIds(found)) == multiset(JobIds(jobs))
    ensures multiset(found) == multiset(jobs)
  {
    forall j ensures multiset(found)[j] == multiset(jobs)[j] {
      if j in jobs {
        forall k | k in jobs && k.jobId == j.jobId ensures k == j { SameIdSameJob(jobs, j, k); }
        CountsByJob(jobs, j);
        CountsByJob(found, j);
      } else {
        assert j !in found;
      }
    }
  }

  function IdsOfJob(): JobSpec -> seq<string> { (j: JobSpec) => TestIds(j.tests) }

  lemma {:induction false} AssignedIdsAreFlat(jobs: seq<JobSpec>)
    ensures TestIds(Assigned(jobs)) == Flat(jobs, IdsOfJob())
  {
    if jobs != [] {
      AssignedIdsAreFlat(jobs[1..]);
      TestIdsAppend(jobs[0].tests, Assigned(jobs[1..]));
    }
  }

  /** The jobs that were parsed are the jobs of the manifest. */
  lemma SpecsAreTheJobs(m: RunManifest, results: seq<JobResult>, jobs: seq<ParsedJob>)
    requires SoundRun(m, results, jobs) && NoRepeats(JobIds(m.jobs))
    requires multiset(ResultIds(results)) == multiset(JobIds(m.jobs))
    ensures multiset(SpecsOf(jobs)) == multiset(m.jobs)
  {
    SpecIds(m, results, jobs);
    forall s | s in SpecsOf(jobs) ensures s in m.jobs { }
    SameJobs(m.jobs, SpecsOf(jobs));
  }

  /** When every result is taken, the parity of the whole run follows from the parity of its jobs and the coverage
      of the manifest. */
  lemma ParityFollows(m: RunManifest, results: seq<JobResult>, jobs: seq<ParsedJob>)
    requires Covered(m) && JobsMatch(m, results) && SoundRun(m, results, jobs)
    ensures multiset(TestIds(m.tests)) == multiset(AllActual(jobs))
  {
    var specs := SpecsOf(jobs);
    SpecsAreTheJobs(m, results, jobs);
    FlatPermutes(specs, m.jobs, IdsOfJob());
    AssignedIdsAreFlat(specs);
    AssignedIdsAreFlat(m.jobs);
    ActualIsAssigned(jobs);
  }

  predicate OneValidRepository(results: seq<JobResult>, rootsValid: JobResult -> bool) {
    |Roots(results)| == 1 && forall r :: r in results ==> rootsValid(r)
  }

  lemma RunErrorExactly(m: RunManifest, results: seq<JobResult>, jobs: seq<ParsedJob>, rootsValid: JobResult -> bool)
    ensures RunError(m, results, jobs, rootsValid).None?
      <==> multiset(TestIds(m.tests)) == multiset(AllActual(jobs)) && OneValidRepository(results, rootsValid)
  {
  }

  /** With a covered manifest a run passes exactly when the results answer the jobs, each project has one profile,
      every result is taken, and the results lie in valid directories of one repository: the test parity of the
      whole run never decides. */
  lemma CheckedExactly(w: string -> World, m: RunManifest, results: seq<JobResult>, rootsValid: JobResult -> bool)
    requires Covered(m)
    ensures Checked(w, m, results, rootsValid).Ok?
      <==> (&& JobsMatch(m, results) && OneProfilePerProject(m) && (forall r :: r in results ==> Taken(w, m, r))
            && OneValidRepository(results, rootsValid))
  {
    ParsedOneByOne(w, m, results);
    if JobsMatch(m, results) && ParseJobs(w, m, results).Ok? {
      var jobs := ParseJobs(w, m, results).value;
      ParsedJobsAreSound(w, m, results);
      ParityFollows(m, results, jobs);
      RunErrorExactly(m, results, jobs, rootsValid);
    }
  }

  // ---------------------------------------------------------------------------
  // The smallest run
  // ---------------------------------------------------------------------------

  /** A manifest that lists one test, with a job that has its own record of it. */
  function SmallManifest(listed: DiscoveredTest, test: DiscoveredTest): RunManifest {
    RunManifest("run", [listed], [JobSpec("job", test.project, test.specPath, [test])])
  }

  function SmallResult(test: DiscoveredTest, report: Report): JobResult {
    JobResult("job", "worker", test.project, test.profile, "repository", 0, true, [], Some(report), Some([]), Some([]))
  }

  function SmallRun(root: string, file: string, test: DiscoveredTest): seq<JobResult> {
    [SmallResult(test, OneTestReport(root, file, test.project, Absent))]
  }

  /** The test is where the report says it is. */
  ghost predicate Located(w: World, root: string, file: string, test: DiscoveredTest) {
    && w.isAbsolute(root) && w.locate(root, file) == Some(test.specPath)
    && test.testId == w.idOf(test.project, test.specPath, 1, [""])
  }

  lemma SmallJobTaken(w: World, root: string, file: string, listed: DiscoveredTest, test: DiscoveredTest)
    requires Located(w, root, file, test)
    ensures Taken((r: string) => w, SmallManifest(listed, test), SmallRun(root, file, test)[0])
  {
    var m, spec := SmallManifest(listed, test), SmallManifest(listed, test).jobs[0];
    var result := SmallRun(root, file, test)[0];
    assert m.jobs[1..] == [];
    assert JobById(m.jobs, "job") == Some(spec);
    assert TestIds([test]) == [test.testId];
    StrictReport.OneTestAccepted(w, root, file, test.specPath, test.project, Absent);
    JobAcceptedExactly((r: string) => w, spec, result);
  }

  /** The checks can be passed: by a run of one job with one test. They compare ids, so that the record of the job
      may differ from that of the manifest. */
  lemma SmallRunPasses(w: World, root: string, file: string, listed: DiscoveredTest, test: DiscoveredTest)
    requires Located(w, root, file, test) && listed.testId == test.testId
    ensures Covered(SmallManifest(listed, test)) && (RecordsAgree(SmallManifest(listed, test)) <==> listed == test)
    ensures Checked((r: string) => w, SmallManifest(listed, test), SmallRun(root, file, test),
                    (r: JobResult) => true).Ok?
  {
    var m := SmallManifest(listed, test);
    var result := SmallRun(root, file, test)[0];
    SmallIsCovered(listed, test);
    SmallJobTaken(w, root, file, listed, test);
    SmallMatches(listed, test, result);
    assert SmallRun(root, file, test) == [result];
    OneResultPasses((r: string) => w, m, result, (r: JobResult) => true);
  }

  lemma OneResultPasses(w: string -> World, m: RunManifest, result: JobResult, rootsValid: JobResult -> bool)
    requires Covered(m) && OneProfilePerProject(m)
    requires JobsMatch(m, [result]) && Taken(w, m, result) && rootsValid(result)
    ensures Checked(w, m, [result], rootsValid).Ok?
  {
    OneRoot(result);
    CheckedExactly(w, m, [result], rootsValid);
  }

  lemma OneRoot(result: JobResult)
    ensures |Roots([result])| == 1
  {
    assert Roots([result]) == {result.repositoryRoot};
  }

  lemma SmallIsCovered(listed: DiscoveredTest, test: DiscoveredTest)
    requires listed.testId == test.testId
    ensures Covered(SmallManifest(listed, test)) && OneProfilePerProject(SmallManifest(listed, test))
    ensures RecordsAgree(SmallManifest(listed, test)) <==> listed == test
  {
    var m := SmallManifest(listed, test);
    assert TestIds(m.tests) == [listed.testId];
    assert Assigned(m.jobs) == [test];
    assert TestIds([test]) == [test.testId];
    assert Filter([listed], InProject(listed.project)) == [listed];
    assert ProfilesOf([listed]) == {listed.profile};
    assert ExpectedProjects(m) == {listed.project};
    assert m.jobs[0] in m.jobs && test in m.jobs[0].tests;
  }

  lemma SmallMatches(listed: DiscoveredTest, test: DiscoveredTest, result: JobResult)
    requires result.jobId == "job"
    ensures JobsMatch(SmallManifest(listed, test), [result])
  {
    assert JobIds(SmallManifest(listed, test).jobs) == ["job"] && ResultIds([result]) == ["job"];
  }
}
