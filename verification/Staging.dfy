/**
 Staging, committing and discarding of a run's publications (scripts/e2e_scheduler/aggregate.py:96-195,
 aggregate_publish.py:52-81, over publication_transaction.py).
 */
module Staging {
  import opened Outcomes
  import opened Sorting
  import opened Counting
  import opened Reports
  import opened Aggregation
  import opened Publication
  import PublicationTransaction

  /** What the file system does to the UI evidence: there is none, it is refused before or after its stage was
      allocated, or it is staged. */
  datatype UiuxFate = NoEvidence | RefusedUnstaged | CopyingFailed | Staged(files: seq<string>)

  /** What goes wrong outside: `copyFails` is the first screenshot that cannot be copied, `pathsPass` what the commit
      finds of the paths, and `evidence` and `output` which of its operations on the two targets fail. */
  datatype Faults = Faults(uiux: UiuxFate, allocationFails: bool, copyFails: Option<nat>, writeFails: bool,
                           pathsPass: bool, evidence: PublicationTransaction.Faults,
                           output: PublicationTransaction.Faults)

  /** What the evidence directory and the output directory hold; the content of a stage is its id. */
  datatype Targets = Targets(evidence: Option<PublicationTransaction.Content>,
                             output: Option<PublicationTransaction.Content>)

  datatype Stage = Stage(id: nat, files: seq<string>)

  datatype Stages = Stages(live: set<nat>, committed: set<nat>, discarded: set<nat>, next: nat)

  /** Every stage ever allocated is live, committed or discarded, and only one of these. */
  ghost predicate Accounted(s: Stages) {
    && (forall i: nat :: i < s.next <==> i in s.live || i in s.committed || i in s.discarded)
    && (forall i: nat :: i in s.live ==> i !in s.committed && i !in s.discarded)
    && (forall i: nat :: i in s.committed ==> i !in s.discarded)
  }

  datatype Summary = Summary(
    expectedTestIds: set<string>, actualTestIds: set<string>, skippedTestIds: set<string>,
    expectedEvidenceCount: nat, actualEvidenceCount: nat, publishedFiles: seq<string>)

  // ---------------------------------------------------------------------------
  // What is copied
  // ---------------------------------------------------------------------------

  datatype Copy = Copy(source: string, name: string)

  function JobCopies(runId: string, job: PublicationJob, files: seq<File>): seq<Copy> {
    if files == [] then []
    else [Copy(files[0].path, runId + "-" + job.workerId + "-" + job.jobId + "-" + files[0].name)]
         + JobCopies(runId, job, files[1..])
  }

  function Copies(runId: string, jobs: seq<PublicationJob>): seq<Copy> {
    if jobs == [] then [] else JobCopies(runId, jobs[0], jobs[0].screenshots) + Copies(runId, jobs[1..])
  }

  function CopyNames(copies: seq<Copy>): (names: seq<string>)
    ensures |names| == |copies|
    ensures forall i :: 0 <= i < |names| ==> names[i] == copies[i].name
  {
    if copies == [] then [] else [copies[0].name] + CopyNames(copies[1..])
  }

  /** The files of the stage after the copies were made in order. */
  function Held(copies: seq<Copy>): map<string, string> {
    if copies == [] then map[]
    else
      var last := copies[|copies| - 1];
      Held(copies[..|copies| - 1])[last.name := last.source]
  }

  /** The names under which the screenshots of a job are published. */
  ghost function ShotNames(runId: string): PublicationJob -> seq<string> {
    (j: PublicationJob) =>
      seq(|j.screenshots|, k requires 0 <= k < |j.screenshots| =>
        runId + "-" + j.workerId + "-" + j.jobId + "-" + j.screenshots[k].name)
  }

  ghost function Shots(): PublicationJob -> seq<File> { (j: PublicationJob) => j.screenshots }

  /** The same for a result. */
  ghost function ResultShotNames(runId: string): JobResult -> seq<string> {
    (r: JobResult) =>
      if r.screenshots.None? then []
      else seq(|r.screenshots.value|, k requires 0 <= k < |r.screenshots.value| =>
             runId + "-" + r.workerId + "-" + r.jobId + "-" + r.screenshots.value[k].name)
  }

  ghost function ResultShots(): JobResult -> seq<File> {
    (r: JobResult) => if r.screenshots.None? then [] else r.screenshots.value
  }

  /** Every file is there under its name, with its own source. */
  ghost predicate HoldsAll(held: map<string, string>, names: seq<string>, files: seq<File>) {
    && |names| == |files|
    && forall k :: 0 <= k < |names| ==> names[k] in held && held[names[k]] == files[k].path
  }

  /** The files of every element are there, and nothing else. */
  ghost predicate HoldsExactly<X>(held: map<string, string>, s: seq<X>, names: X -> seq<string>, files: X -> seq<File>)
  {
    && (forall i :: 0 <= i < |s| ==> HoldsAll(held, names(s[i]), files(s[i])))
    && (forall name :: name in held ==>
          exists i, k :: 0 <= i < |s| && 0 <= k < |names(s[i])| && names(s[i])[k] == name)
    && |held| == |Places(s, SizeOf(names), Everywhere())|
  }

  /** Two screenshots would get the same name. */
  ghost predicate Collide(runId: string, jobs: seq<PublicationJob>) {
    exists name :: |Occurrences(jobs, ShotNames(runId), name)| > 1
  }

  // ---------------------------------------------------------------------------
  // What staging the screenshots comes to
  // ---------------------------------------------------------------------------

  datatype Fate = Refused | Dropped | Leaked | Prepared

  function CopyFate(distinct: bool, copies: nat, faults: Faults): Fate {
    if !distinct || faults.allocationFails then Refused
    else if faults.copyFails.Some? && faults.copyFails.value < copies then Dropped
    else Prepared
  }

  /** Only a failing copy or write drops the stage again: a refused payload leaves it behind. */
  function FateOf(distinct: bool, copies: nat, payloadOk: bool, faults: Faults): Fate {
    if CopyFate(distinct, copies, faults) != Prepared then CopyFate(distinct, copies, faults)
    else if !payloadOk then Leaked
    else if faults.writeFails then Dropped
    else Prepared
  }

  function UiuxStage(fate: UiuxFate, next: nat): Option<Option<Stage>> {
    match fate
    case NoEvidence => Some(None)
    case RefusedUnstaged => None
    case CopyingFailed => None
    case Staged(files) => Some(Some(Stage(next, files)))
  }

  function AfterUiux(fate: UiuxFate, s: Stages): Stages {
    match fate
    case NoEvidence => s
    case RefusedUnstaged => s
    case CopyingFailed => Drop(Grow(s), s.next)
    case Staged(_) => Grow(s)
  }

  function RunFate(m: RunManifest, jobs: seq<PublicationJob>, faults: Faults, le: (string, string) -> bool): Fate {
    var copies := Copies(m.runId, jobs);
    FateOf(RepeatsNothing(CopyNames(copies)), |copies|, LegacyPayload(m, jobs, Sort(CopyNames(copies), le), le).Ok?,
           faults)
  }

  function Grow(s: Stages): Stages { Stages(s.live + {s.next}, s.committed, s.discarded, s.next + 1) }

  function Drop(s: Stages, stage: nat): Stages {
    Stages(s.live - {stage}, s.committed, s.discarded + {stage}, s.next)
  }

  function Settle(s: Stages, stages: set<nat>): Stages {
    Stages(s.live - stages, s.committed + stages, s.discarded, s.next)
  }

  function After(fate: Fate, s: Stages): Stages {
    match fate
    case Refused => s
    case Dropped => Drop(Grow(s), s.next)
    case Leaked => Grow(s)
    case Prepared => Grow(s)
  }

  function DropUiux(fate: UiuxFate, stage: nat, s: Stages): Stages {
    if fate.Staged? then Drop(s, stage) else s
  }

  /** Where preparing leaves the stages. */
  function PreparedState(s: Stages, run: Fate, faults: Faults): Stages {
    var staged := AfterUiux(faults.uiux, s);
    if UiuxStage(faults.uiux, s.next).None? then staged
    else if run != Prepared then DropUiux(faults.uiux, s.next, After(run, staged))
    else Grow(staged)
  }

  function PublicationsOf(t: Targets, uiux: Option<nat>, screenshots: nat, pathsPass: bool)
    : seq<PublicationTransaction.Publication>
  {
    (if uiux.Some?
     then [PublicationTransaction.Publication(t.evidence, Some(uiux.value), None, pathsPass)]
     else [])
    + [PublicationTransaction.Publication(t.output, Some(screenshots), None, pathsPass)]
  }

  /** What a run hands to the transaction once it is staged. */
  function Publishing(s: Stages, t: Targets, faults: Faults): seq<PublicationTransaction.Publication> {
    PublicationsOf(t, if faults.uiux.Staged? then Some(s.next) else None, AfterUiux(faults.uiux, s).next,
                   faults.pathsPass)
  }

  function CommitFaults(faults: Faults): seq<PublicationTransaction.Faults> {
    (if faults.uiux.Staged? then [faults.evidence] else []) + [faults.output]
  }

  function CommitOutcome(s: Stages, t: Targets, faults: Faults): PublicationTransaction.Outcome {
    PublicationTransaction.OutcomeOf(Publishing(s, t, faults), CommitFaults(faults))
  }

  predicate Attempted(run: Fate, faults: Faults) { UiuxStage(faults.uiux, 0).Some? && run == Prepared }

  predicate Succeeds(s: Stages, t: Targets, run: Fate, faults: Faults) {
    Attempted(run, faults) && CommitOutcome(s, t, faults).Committed?
  }

  /** Where a run that passed its checks leaves the stages. */
  function Final(s: Stages, t: Targets, run: Fate, faults: Faults): Stages {
    var staged, prepared := AfterUiux(faults.uiux, s), PreparedState(s, run, faults);
    if !Attempted(run, faults) then prepared
    else if Succeeds(s, t, run, faults) then
      Settle(prepared, (if faults.uiux.Staged? then {s.next} else {}) + {staged.next})
    else Drop(DropUiux(faults.uiux, s.next, prepared), staged.next)
  }

  /** The targets as the transaction left them in its places. */
  function TargetsIn(places: seq<PublicationTransaction.Slot>, staged: bool, t: Targets): Targets
    requires places != []
  {
    Targets(if staged then places[0].target else t.evidence, places[|places| - 1].target)
  }

  ghost predicate AllKept(ps: seq<PublicationTransaction.Publication>, places: seq<PublicationTransaction.Slot>) {
    |places| == |ps| && forall i :: 0 <= i < |ps| ==> PublicationTransaction.PreviousKept(ps[i], places[i])
  }

  /** After a commit both targets hold what was staged, or both what they held before; only when rolling back failed
      they are as the transaction left them, and then no previous content is lost. */
  ghost predicate Moved(ps: seq<PublicationTransaction.Publication>, outcome: PublicationTransaction.Outcome,
                        staged: bool, before: Targets, after: Targets, places: seq<PublicationTransaction.Slot>)
    requires ps != []
  {
    match outcome
    case Committed(_) => after == Targets(if staged then ps[0].stage else before.evidence, ps[|ps| - 1].stage)
    case RollbackFailed => AllKept(ps, places) && after == TargetsIn(places, staged, before)
    case _ => after == before
  }

  /** What a run that passed its checks does to the targets: nothing unless everything was staged. */
  ghost predicate TargetsAfter(s: Stages, before: Targets, after: Targets, places: seq<PublicationTransaction.Slot>,
                               run: Fate, faults: Faults)
  {
    if !Attempted(run, faults) then after == before
    else
      Moved(Publishing(s, before, faults), CommitOutcome(s, before, faults), faults.uiux.Staged?, before, after, places)
  }

  const EVIDENCE_PARENT := ".omo/evidence/mobile-uiux-v0.1.49/"

  function Prefixed(files: seq<string>): seq<string> {
    if files == [] then [] else [EVIDENCE_PARENT + files[0]] + Prefixed(files[1..])
  }

  function PublishedFiles(m: RunManifest, jobs: seq<PublicationJob>, fate: UiuxFate,
                          le: (string, string) -> bool): seq<string> {
    Sort(CopyNames(Copies(m.runId, jobs)), le) + if fate.Staged? then Prefixed(fate.files) else []
  }

  function EvidenceTotal(jobs: seq<ParsedJob>): nat {
    if jobs == [] then 0 else |jobs[0].result.expectedEvidenceNames| + EvidenceTotal(jobs[1..])
  }

  function FoundTotal(jobs: seq<ParsedJob>): nat {
    if jobs == [] then 0 else jobs[0].actualEvidenceCount + FoundTotal(jobs[1..])
  }

  function AllSkipped(jobs: seq<ParsedJob>): seq<string> {
    if jobs == [] then [] else jobs[0].skippedTestIds + AllSkipped(jobs[1..])
  }

  function SummaryOf(m: RunManifest, jobs: seq<ParsedJob>, files: seq<string>): Summary {
    Summary((set t | t in m.tests :: t.testId), (set id | id in AllActual(jobs)), (set id | id in AllSkipped(jobs)),
            EvidenceTotal(jobs), FoundTotal(jobs), files)
  }

  ghost predicate ShotsStaged(runId: string, jobs: seq<PublicationJob>, le: (string, string) -> bool,
                              files: seq<string>, held: map<string, string>)
  {
    HoldsExactly(held, jobs, ShotNames(runId), Shots()) && Lists(files, jobs, ShotNames(runId), le)
  }

  lemma PayloadNamesDiffer(m: RunManifest, jobs: seq<PublicationJob>, names: seq<string>, le: (string, string) -> bool)
    ensures LegacyPayload(m, jobs, names, le) != Err(NamesCollide)
  {
    if LegacyPayload(m, jobs, names, le).Err? {
      PayloadBlames(m, jobs, names, le);
    }
  }

  lemma FateNeedsNames(m: RunManifest, jobs: seq<PublicationJob>, faults: Faults, le: (string, string) -> bool)
    requires RunFate(m, jobs, faults, le) == Prepared
    ensures RepeatsNothing(CopyNames(Copies(m.runId, jobs)))
  {
  }

  ghost predicate ListsThenEvidence<X>(files: seq<string>, s: seq<X>, names: X -> seq<string>, fate: UiuxFate,
                                       le: (string, string) -> bool)
  {
    var evidence := if fate.Staged? then fate.files else [];
    var n := |files| - |evidence|;
    && n >= 0 && Lists(files[..n], s, names, le)
    && forall k :: 0 <= k < |evidence| ==> files[n + k] == ".omo/evidence/mobile-uiux-v0.1.49/" + evidence[k]
  }

  /** Of a run with these results the stage holds every screenshot under its own name and nothing else, and the
      published files are these names in order and then the evidence. */
  ghost predicate ResultsStaged(runId: string, results: seq<JobResult>, fate: UiuxFate, le: (string, string) -> bool,
                                files: seq<string>, held: map<string, string>)
  {
    && HoldsExactly(held, results, ResultShotNames(runId), ResultShots())
    && ListsThenEvidence(files, results, ResultShotNames(runId), fate, le)
  }

  class StageStore {
    var live: set<nat>
    var committed: set<nat>
    var discarded: set<nat>
    var next: nat
    var contents: map<nat, map<string, string>>
    var evidence: Option<PublicationTransaction.Content>
    var output: Option<PublicationTransaction.Content>
    var places: seq<PublicationTransaction.Slot>  // what the last commit left

    function State(): Stages
      reads this
    {
      Stages(live, committed, discarded, next)
    }

    function Published(): Targets
      reads this
    {
      Targets(evidence, output)
    }

    ghost predicate Valid()
      reads this
    {
      Accounted(State())
    }

    constructor (published: Targets)
      ensures Valid() && State() == Stages({}, {}, {}, 0) && Published() == published
    {
      evidence, output, places := published.evidence, published.output, [];
      live, committed, discarded, next, contents := {}, {}, {}, 0, map[];
    }

    method Allocate() returns (stage: nat)
      modifies `live, `next, `contents
      ensures stage == old(next) && State() == Grow(old(State()))
      ensures contents == old(contents)[stage := map[]]
    {
      stage := next;
      live, next, contents := live + {stage}, next + 1, contents[stage := map[]];
    }

    method Discard(stage: nat)
      modifies `live, `discarded
      ensures State() == Drop(old(State()), stage)
    {
      live, discarded := live - {stage}, discarded + {stage};
    }

    method DiscardIfStaged(uiux: Option<Stage>)
      modifies `live, `discarded
      ensures State() == if uiux.Some? then Drop(old(State()), uiux.value.id) else old(State())
    {
      if uiux.Some? {
        Discard(uiux.value.id);
      }
    }

    method PrepareUiuxEvidence(fate: UiuxFate) returns (r: Option<Option<Stage>>)
      modifies `live, `discarded, `next, `contents
      ensures State() == AfterUiux(fate, old(State()))
      ensures r == UiuxStage(fate, old(next))
    {
      if fate.NoEvidence? {
        return Some(None);
      }
      if fate.RefusedUnstaged? {
        return None;
      }
      var stage := Allocate();
      if fate.CopyingFailed? {
        Discard(stage);
        return None;
      }
      return Some(Some(Stage(stage, fate.files)));
    }

    /** Copies the screenshots one by one, up to the first that fails. */
    method CopyScreenshots(stage: nat, copies: seq<Copy>, fails: Option<nat>) returns (ok: bool)
      requires stage in contents && contents[stage] == map[]
      modifies this`contents
      ensures ok <==> fails.None? || fails.value >= |copies|
      ensures contents == old(contents)[stage := Held(if ok then copies else copies[..fails.value])]
    {
      for i := 0 to |copies|
        invariant fails.Some? ==> i <= fails.value
        invariant contents == old(contents)[stage := Held(copies[..i])]
      {
        if fails == Some(i) {
          return false;
        }
        assert copies[..i + 1][..i] == copies[..i];
        contents := contents[stage := contents[stage][copies[i].name := copies[i].source]];
      }
      assert copies[..|copies|] == copies;
      return true;
    }

    method StageCopies(copies: seq<Copy>, faults: Faults) returns (r: Result<nat, PublicationError>)
      modifies `live, `discarded, `next, `contents
      ensures State() == After(CopyFate(RepeatsNothing(CopyNames(copies)), |copies|, faults), old(State()))
      ensures r.Ok? <==> CopyFate(RepeatsNothing(CopyNames(copies)), |copies|, faults) == Prepared
      ensures r.Ok? ==> r.value == old(next) && contents == old(contents)[old(next) := Held(copies)]
      ensures r == Err(NamesCollide) <==> !RepeatsNothing(CopyNames(copies))
    {
      if !RepeatsNothing(CopyNames(copies)) {
        return Err(NamesCollide);
      }
      if faults.allocationFails {
        return Err(PublicationFailed);
      }
      var stage := Allocate();
      var copied := CopyScreenshots(stage, copies, faults.copyFails);
      if !copied {
        Discard(stage);
        return Err(PublicationFailed);
      }
      return Ok(stage);
    }

    /** A failing write drops the stage; a refused payload does not. */
    method WritePayload(stage: nat, payload: Result<Payload, PublicationError>, writeFails: bool)
      returns (error: Option<PublicationError>)
      modifies `live, `discarded
      ensures error.None? <==> payload.Ok? && !writeFails
      ensures payload != Err(NamesCollide) ==> error != Some(NamesCollide)
      ensures State() == if payload.Ok? && writeFails then Drop(old(State()), stage) else old(State())
    {
      if payload.Err? {
        return Some(payload.error);
      }
      if writeFails {
        Discard(stage);
        return Some(PublicationFailed);
      }
      return None;
    }

    method StageRun(m: RunManifest, jobs: seq<PublicationJob>, faults: Faults, le: (string, string) -> bool)
      returns (r: Result<Stage, PublicationError>)
      modifies `live, `discarded, `next, `contents
      ensures r.Ok? <==> RunFate(m, jobs, faults, le) == Prepared
      ensures State() == After(RunFate(m, jobs, faults, le), old(State()))
      ensures r.Ok? ==> r.value == Stage(old(next), Sort(CopyNames(Copies(m.runId, jobs)), le))
      ensures r.Ok? ==> contents == old(contents)[old(next) := Held(Copies(m.runId, jobs))]
      ensures r == Err(NamesCollide) <==> !RepeatsNothing(CopyNames(Copies(m.runId, jobs)))
    {
      var copies := Copies(m.runId, jobs);
      var names := Sort(CopyNames(copies), le);
      var staged := StageCopies(copies, faults);
      if staged.Err? {
        return Err(staged.error);
      }
      var payload := BuildLegacyPayload(m, jobs, names, le);
      PayloadNamesDiffer(m, jobs, names, le);
      var error := WritePayload(staged.value, payload, faults.writeFails);
      if error.Some? {
        return Err(error.value);
      }
      return Ok(Stage(staged.value, names));
    }

    method PrepareRun(m: RunManifest, jobs: seq<PublicationJob>, faults: Faults, le: (string, string) -> bool)
      returns (r: Result<Stage, PublicationError>)
      modifies `live, `discarded, `next, `contents
      ensures r.Ok? <==> RunFate(m, jobs, faults, le) == Prepared
      ensures State() == After(RunFate(m, jobs, faults, le), old(State()))
      ensures r.Ok? ==> r.value.id == old(next) && r.value.files == Sort(CopyNames(Copies(m.runId, jobs)), le)
      ensures r.Ok? ==> r.value.id in contents && contents[r.value.id] == Held(Copies(m.runId, jobs))
      ensures r.Ok? ==> ShotsStaged(m.runId, jobs, le, r.value.files, contents[r.value.id])
      ensures r == Err(NamesCollide) <==> Collide(m.runId, jobs)
    {
      CopiesTell(m.runId, jobs, le);
      if RunFate(m, jobs, faults, le) == Prepared {
        FateNeedsNames(m, jobs, faults, le);
      }
      r := StageRun(m, jobs, faults, le);
    }

    method PrepareAggregation(m: RunManifest, jobs: seq<PublicationJob>, faults: Faults, le: (string, string) -> bool)
      returns (uiux: Option<Stage>, files: seq<string>, r: Result<Stage, AggregationError>)
      modifies `live, `discarded, `next, `contents
      ensures State() == PreparedState(old(State()), RunFate(m, jobs, faults, le), faults)
      ensures r.Ok? <==> UiuxStage(faults.uiux, old(next)).Some? && RunFate(m, jobs, faults, le) == Prepared
      ensures r.Ok? ==> uiux == UiuxStage(faults.uiux, old(next)).value
      ensures r.Ok? ==> r.value.id == AfterUiux(faults.uiux, old(State())).next
      ensures r.Ok? ==> files == PublishedFiles(m, jobs, faults.uiux, le)
      ensures r.Ok? ==> r.value.id in contents && contents[r.value.id] == Held(Copies(m.runId, jobs))
    {
      uiux, files := None, [];
      var prepared := PrepareUiuxEvidence(faults.uiux);
      if prepared.None? {
        return None, [], Err(StagingFailed);
      }
      uiux := prepared.value;
      var screenshots := PrepareRun(m, jobs, faults, le);
      if screenshots.Err? {
        DiscardIfStaged(uiux);
        return uiux, [], Err(StagingFailed);
      }
      files := screenshots.value.files + (if uiux.Some? then Prefixed(uiux.value.files) else []);
      return uiux, files, Ok(screenshots.value);
    }

    /** Commits what a run that started in `s` has staged; when that fails the stages are discarded. */
    method CommitAll(ghost s: Stages, uiux: Option<Stage>, screenshots: Stage, faults: Faults)
      returns (outcome: PublicationTransaction.Outcome)
      requires UiuxStage(faults.uiux, s.next) == Some(uiux) && screenshots.id == AfterUiux(faults.uiux, s).next
      requires State() == PreparedState(s, Prepared, faults)
      modifies `live, `committed, `discarded, `evidence, `output, `places
      ensures outcome == CommitOutcome(s, old(Published()), faults)
      ensures State() == Final(s, old(Published()), Prepared, faults)
      ensures Moved(Publishing(s, old(Published()), faults), outcome, faults.uiux.Staged?, old(Published()),
                    Published(), places)
    {
      StagedIsPublishing(s, Published(), uiux, screenshots.id, faults);
      var staged := if uiux.Some? then Some(uiux.value.id) else None;
      var ps := PublicationsOf(Published(), staged, screenshots.id, faults.pathsPass);
      places, outcome := PublicationTransaction.CommitPublications(ps, CommitFaults(faults));
      if uiux.Some? {
        evidence := places[0].target;
      }
      output := places[|places| - 1].target;
      if outcome.Committed? {
        var stages := (if uiux.Some? then {uiux.value.id} else {}) + {screenshots.id};
        live, committed := live - stages, committed + stages;
      } else {
        DiscardIfStaged(uiux);
        Discard(screenshots.id);
      }
    }

    /** Commits unless preparing failed; `run` is what staging the screenshots came to. */
    method CommitPrepared(ghost s: Stages, ghost run: Fate, uiux: Option<Stage>,
                          prepared: Result<Stage, AggregationError>, faults: Faults)
      returns (error: Option<AggregationError>)
      requires State() == PreparedState(s, run, faults)
      requires prepared.Ok? <==> UiuxStage(faults.uiux, s.next).Some? && run == Prepared
      requires prepared.Ok? ==>
        Some(uiux) == UiuxStage(faults.uiux, s.next) && prepared.value.id == AfterUiux(faults.uiux, s).next
      modifies `live, `committed, `discarded, `evidence, `output, `places
      ensures State() == Final(s, old(Published()), run, faults)
      ensures TargetsAfter(s, old(Published()), Published(), places, run, faults)
      ensures error.None? <==> Succeeds(s, old(Published()), run, faults)
    {
      if prepared.Err? {
        return Some(prepared.error);
      }
      var outcome := CommitAll(s, uiux, prepared.value, faults);
      error := if outcome.Committed? then None else Some(CommitFailed);
    }

    method PublishJobs(m: RunManifest, jobs: seq<PublicationJob>, faults: Faults, le: (string, string) -> bool)
      returns (files: seq<string>, error: Option<AggregationError>)
      modifies this
      ensures State() == Final(old(State()), old(Published()), RunFate(m, jobs, faults, le), faults)
      ensures TargetsAfter(old(State()), old(Published()), Published(), places, RunFate(m, jobs, faults, le), faults)
      ensures error.None? <==> Succeeds(old(State()), old(Published()), RunFate(m, jobs, faults, le), faults)
      ensures error.None? ==> files == PublishedFiles(m, jobs, faults.uiux, le)
      ensures var stage := AfterUiux(faults.uiux, old(State())).next;
        error.None? ==> stage in contents && contents[stage] == Held(Copies(m.runId, jobs))
    {
      ghost var run := RunFate(m, jobs, faults, le);
      var uiux, prepared;
      uiux, files, prepared := PrepareAggregation(m, jobs, faults, le);
      error := CommitPrepared(old(State()), run, uiux, prepared, faults);
    }

    method AggregateJobs(m: RunManifest, jobs: seq<ParsedJob>, faults: Faults, le: (string, string) -> bool)
      returns (r: Result<Summary, AggregationError>)
      requires Profiled(jobs)
      modifies this
      ensures State() == Final(old(State()), old(Published()), RunFate(m, PublicationJobs(jobs), faults, le), faults)
      ensures TargetsAfter(old(State()), old(Published()), Published(), places,
                           RunFate(m, PublicationJobs(jobs), faults, le), faults)
      ensures r.Ok?
        <==> Succeeds(old(State()), old(Published()), RunFate(m, PublicationJobs(jobs), faults, le), faults)
      ensures r.Ok? ==> r.value == SummaryOf(m, jobs, PublishedFiles(m, PublicationJobs(jobs), faults.uiux, le))
      ensures var stage := AfterUiux(faults.uiux, old(State())).next;
        r.Ok? ==> stage in contents && contents[stage] == Held(Copies(m.runId, PublicationJobs(jobs)))
    {
      var files, error := PublishJobs(m, PublicationJobs(jobs), faults, le);
      r := if error.Some? then Err(error.value) else Ok(SummaryOf(m, jobs, files));
    }

    /** The whole run. After its checks it leaves the stages and the targets as stated, whatever fails. */
    method AggregateRun(w: string -> World, m: RunManifest, results: seq<JobResult>, rootsValid: JobResult -> bool,
                        faults: Faults, le: (string, string) -> bool)
      returns (checked: Result<seq<ParsedJob>, AggregationError>, r: Result<Summary, AggregationError>)
      requires Valid()
      modifies this
      ensures Valid() && (WellFormed(m) ==> live == old(live))
      ensures checked == Checked(w, m, results, rootsValid)
      ensures checked.Err? ==> r == Err(checked.error) && State() == old(State()) && Published() == old(Published())
      ensures checked.Ok? ==> Profiled(checked.value)
      ensures checked.Ok? ==>
        var run := RunFate(m, PublicationJobs(checked.value), faults, le);
        && State() == Final(old(State()), old(Published()), run, faults)
        && TargetsAfter(old(State()), old(Published()), Published(), places, run, faults)
        && (r.Ok? <==> Succeeds(old(State()), old(Published()), run, faults))
      ensures r.Ok? ==> (
        && checked.Ok?
        && r.value == SummaryOf(m, checked.value, PublishedFiles(m, PublicationJobs(checked.value), faults.uiux, le)))
      ensures var stage := AfterUiux(faults.uiux, old(State())).next;
        r.Ok? ==> stage in contents
                  && ResultsStaged(m.runId, results, faults.uiux, le, r.value.publishedFiles, contents[stage])
      ensures r.Ok? ==> Summarises(w, m, checked.value, results, r.value)
    {
      checked := Checked(w, m, results, rootsValid);
      if checked.Err? {
        return checked, Err(checked.error);
      }
      CheckedIsProfiled(w, m, results, rootsValid);
      StagesAfterRun(State(), Published(), RunFate(m, PublicationJobs(checked.value), faults, le), faults);
      if WellFormed(m) {
        WellFormedNeverLeaks(w, m, results, rootsValid, faults, le);
      }
      r := AggregateJobs(m, checked.value, faults, le);
      if r.Ok? {
        RunTells(w, m, results, rootsValid, faults, le);
      }
    }
  }

  lemma FilesTell<X>(shots: seq<string>, s: seq<X>, names: X -> seq<string>, fate: UiuxFate,
                     le: (string, string) -> bool)
    requires Lists(shots, s, names, le)
    ensures ListsThenEvidence(shots + if fate.Staged? then Prefixed(fate.files) else [], s, names, fate, le)
  {
    if fate.Staged? {
      PrefixedTell(fate.files);
      assert (shots + Prefixed(fate.files))[..|shots|] == shots;
    }
  }

  lemma {:induction false} PrefixedTell(files: seq<string>)
    ensures |Prefixed(files)| == |files|
    ensures forall k :: 0 <= k < |files| ==> Prefixed(files)[k] == ".omo/evidence/mobile-uiux-v0.1.49/" + files[k]
  {
    if files != [] {
      PrefixedTell(files[1..]);
    }
  }

  /** Once everything is staged, the commit gets what the run has to publish, and leaves the stages as stated. */
  lemma StagedIsPublishing(s: Stages, t: Targets, uiux: Option<Stage>, screenshots: nat, faults: Faults)
    requires UiuxStage(faults.uiux, s.next) == Some(uiux) && screenshots == AfterUiux(faults.uiux, s).next
    ensures Publishing(s, t, faults)
      == PublicationsOf(t, if uiux.Some? then Some(uiux.value.id) else None, screenshots, faults.pathsPass)
    ensures var before, also := PreparedState(s, Prepared, faults), if uiux.Some? then {uiux.value.id} else {};
      Final(s, t, Prepared, faults)
      == if CommitOutcome(s, t, faults).Committed? then Settle(before, also + {screenshots})
         else Drop(if uiux.Some? then Drop(before, uiux.value.id) else before, screenshots)
  {
  }

  lemma CheckedIsProfiled(w: string -> World, m: RunManifest, results: seq<JobResult>, rootsValid: JobResult -> bool)
    requires Checked(w, m, results, rootsValid).Ok?
    ensures Profiled(Checked(w, m, results, rootsValid).value)
  {
    CheckedFacts(w, m, results, rootsValid);
  }

  // ---------------------------------------------------------------------------
  // No screenshot overwrites another
  // ---------------------------------------------------------------------------

  ghost predicate NamesDistinct(copies: seq<Copy>) {
    forall i, k :: 0 <= i < k < |copies| ==> copies[i].name != copies[k].name
  }

  /** The collision check passes exactly when all names are different. */
  lemma CollisionCheck(copies: seq<Copy>)
    ensures RepeatsNothing(CopyNames(copies)) <==> NamesDistinct(copies)
  {
    DistinctExactly(CopyNames(copies));
  }

  lemma NamesOfPrefix(copies: seq<Copy>)
    requires copies != []
    ensures CopyNames(copies[..|copies| - 1]) == CopyNames(copies)[..|copies| - 1]
  {
  }

  /** With distinct names, no screenshot overwrites another: each is in the stage under its own name. */
  lemma {:induction false} EveryCopyIsHeld(copies: seq<Copy>, i: nat)
    requires NamesDistinct(copies) && i < |copies|
    ensures copies[i].name in Held(copies) && Held(copies)[copies[i].name] == copies[i].source
    decreases |copies|
  {
    if i < |copies| - 1 {
      EveryCopyIsHeld(copies[..|copies| - 1], i);
    }
  }

  lemma {:induction false} OnlyCopiesAreHeld(copies: seq<Copy>, n: string)
    requires n in Held(copies)
    ensures n in CopyNames(copies)
    decreases |copies|
  {
    var names := CopyNames(copies);
    NamesOfPrefix(copies);
    if n == copies[|copies| - 1].name {
      assert names[|copies| - 1] == n;
    } else {
      OnlyCopiesAreHeld(copies[..|copies| - 1], n);
      assert names[..|copies| - 1] <= names;
    }
  }

  // The copies, told by the jobs.

  lemma {:induction false} JobCopiesAre(runId: string, job: PublicationJob, files: seq<File>)
    ensures var copies := JobCopies(runId, job, files);
      && |copies| == |files|
      && forall k :: 0 <= k < |files| ==>
           copies[k] == Copy(files[k].path, runId + "-" + job.workerId + "-" + job.jobId + "-" + files[k].name)
  {
    if files != [] {
      JobCopiesAre(runId, job, files[1..]);
    }
  }

  /** The copies are those of all screenshots of all jobs, in order. */
  lemma {:induction false} CopiesAreFlat(runId: string, jobs: seq<PublicationJob>)
    ensures |Copies(runId, jobs)| == |Flat(jobs, Shots())|
    ensures CopyNames(Copies(runId, jobs)) == Flat(jobs, ShotNames(runId))
  {
    if jobs != [] {
      var first := JobCopies(runId, jobs[0], jobs[0].screenshots);
      JobCopiesAre(runId, jobs[0], jobs[0].screenshots);
      CopiesAreFlat(runId, jobs[1..]);
      NamesOfAppend(first, Copies(runId, jobs[1..]));
      assert CopyNames(first) == ShotNames(runId)(jobs[0]);
    }
  }

  lemma NamesOfAppend(a: seq<Copy>, b: seq<Copy>)
    ensures CopyNames(a + b) == CopyNames(a) + CopyNames(b)
  {
  }

  lemma {:induction false} CopyOfShot(runId: string, jobs: seq<PublicationJob>, i: nat, k: nat)
    requires i < |jobs| && k < |jobs[i].screenshots|
    ensures Copy(jobs[i].screenshots[k].path, ShotNames(runId)(jobs[i])[k]) in Copies(runId, jobs)
  {
    JobCopiesAre(runId, jobs[0], jobs[0].screenshots);
    if i > 0 {
      CopyOfShot(runId, jobs[1..], i - 1, k);
    } else {
      assert JobCopies(runId, jobs[0], jobs[0].screenshots)[k]
        == Copy(jobs[i].screenshots[k].path, ShotNames(runId)(jobs[i])[k]);
    }
  }

  lemma {:induction false} ShotOfCopy(runId: string, jobs: seq<PublicationJob>, name: string)
    requires name in CopyNames(Copies(runId, jobs))
    ensures exists i, k ::
      0 <= i < |jobs| && 0 <= k < |ShotNames(runId)(jobs[i])| && ShotNames(runId)(jobs[i])[k] == name
  {
    var first := JobCopies(runId, jobs[0], jobs[0].screenshots);
    JobCopiesAre(runId, jobs[0], jobs[0].screenshots);
    NamesOfAppend(first, Copies(runId, jobs[1..]));
    if name in CopyNames(first) {
      var k :| 0 <= k < |first| && CopyNames(first)[k] == name;
      assert ShotNames(runId)(jobs[0])[k] == name;
    } else {
      ShotOfCopy(runId, jobs[1..], name);
      var i, k :| 0 <= i < |jobs[1..]| && 0 <= k < |ShotNames(runId)(jobs[1..][i])|
                  && ShotNames(runId)(jobs[1..][i])[k] == name;
      assert jobs[1..][i] == jobs[i + 1];
    }
  }

  lemma {:induction false} HeldSize(copies: seq<Copy>)
    requires NamesDistinct(copies)
    ensures |Held(copies)| == |copies|
    decreases |copies|
  {
    if copies != [] {
      var front, last := copies[..|copies| - 1], copies[|copies| - 1];
      HeldSize(front);
      if last.name in Held(front) {
        OnlyCopiesAreHeld(front, last.name);
      }
      assert Held(copies).Keys == Held(front).Keys + {last.name};
    }
  }

  lemma ShotIsHeld(runId: string, jobs: seq<PublicationJob>, i: nat, k: nat)
    requires NamesDistinct(Copies(runId, jobs)) && i < |jobs| && k < |jobs[i].screenshots|
    ensures var name := ShotNames(runId)(jobs[i])[k];
      name in Held(Copies(runId, jobs)) && Held(Copies(runId, jobs))[name] == jobs[i].screenshots[k].path
  {
    var copies := Copies(runId, jobs);
    CopyOfShot(runId, jobs, i, k);
    var n :| 0 <= n < |copies| && copies[n] == Copy(jobs[i].screenshots[k].path, ShotNames(runId)(jobs[i])[k]);
    EveryCopyIsHeld(copies, n);
  }

  lemma HeldSizeTells(runId: string, jobs: seq<PublicationJob>)
    requires NamesDistinct(Copies(runId, jobs))
    ensures |Held(Copies(runId, jobs))|
      == |Places(jobs, SizeOf(ShotNames(runId)), Everywhere())|
  {
    HeldSize(Copies(runId, jobs));
    CopiesAreFlat(runId, jobs);
    FlatLength(jobs, ShotNames(runId), SizeOf(ShotNames(runId)), Everywhere());
  }

  lemma HeldTells(runId: string, jobs: seq<PublicationJob>)
    requires NamesDistinct(Copies(runId, jobs))
    ensures HoldsExactly(Held(Copies(runId, jobs)), jobs, ShotNames(runId), Shots())
  {
    var held, names := Held(Copies(runId, jobs)), ShotNames(runId);
    forall i | 0 <= i < |jobs| ensures HoldsAll(held, names(jobs[i]), Shots()(jobs[i])) {
      forall k | 0 <= k < |names(jobs[i])|
        ensures names(jobs[i])[k] in held && held[names(jobs[i])[k]] == jobs[i].screenshots[k].path
      {
        ShotIsHeld(runId, jobs, i, k);
      }
    }
    forall name | name in held
      ensures exists i, k :: 0 <= i < |jobs| && 0 <= k < |names(jobs[i])| && names(jobs[i])[k] == name
    {
      OnlyCopiesAreHeld(Copies(runId, jobs), name);
      ShotOfCopy(runId, jobs, name);
    }
    HeldSizeTells(runId, jobs);
  }

  /** What is staged and listed for the jobs: every screenshot once, under its own name, unless two would get the same
      name. */
  lemma CopiesTell(runId: string, jobs: seq<PublicationJob>, le: (string, string) -> bool)
    ensures RepeatsNothing(CopyNames(Copies(runId, jobs))) <==> !Collide(runId, jobs)
    ensures !Collide(runId, jobs) ==> HoldsExactly(Held(Copies(runId, jobs)), jobs, ShotNames(runId), Shots())
    ensures Lists(Sort(CopyNames(Copies(runId, jobs)), le), jobs, ShotNames(runId), le)
  {
    var names := CopyNames(Copies(runId, jobs));
    CopiesAreFlat(runId, jobs);
    ListTells(jobs, ShotNames(runId), le);
    forall name ensures multiset(names)[name] == |Occurrences(jobs, ShotNames(runId), name)| {
      FlatOccurrences(jobs, ShotNames(runId), name);
    }
    if !Collide(runId, jobs) {
      CollisionCheck(Copies(runId, jobs));
      HeldTells(runId, jobs);
    }
  }

  /** The names and files of the published jobs are those of the results. */
  lemma SameShots(w: string -> World, m: RunManifest, results: seq<JobResult>, rootsValid: JobResult -> bool)
    requires Checked(w, m, results, rootsValid).Ok?
    ensures Profiled(Checked(w, m, results, rootsValid).value)
    ensures var jobs := PublicationJobs(Checked(w, m, results, rootsValid).value);
      && |jobs| == |results|
      && forall i :: 0 <= i < |jobs| ==> ShotNames(m.runId)(jobs[i]) == ResultShotNames(m.runId)(results[i])
                                         && Shots()(jobs[i]) == ResultShots()(results[i])
  {
    PublishedAsReported(w, m, results, rootsValid);
  }

  lemma HeldTransfers<X, Y>(held: map<string, string>, s: seq<X>, names: X -> seq<string>, files: X -> seq<File>,
                            t: seq<Y>, namesOf: Y -> seq<string>, filesOf: Y -> seq<File>)
    requires HoldsExactly(held, s, names, files) && |s| == |t|
    requires forall i :: 0 <= i < |s| ==> names(s[i]) == namesOf(t[i]) && files(s[i]) == filesOf(t[i])
    ensures HoldsExactly(held, t, namesOf, filesOf)
  {
    SamePlaces(s, names, t, namesOf);
    forall name | name in held
      ensures exists i, k :: 0 <= i < |t| && 0 <= k < |namesOf(t[i])| && namesOf(t[i])[k] == name
    {
      var i, k :| 0 <= i < |s| && 0 <= k < |names(s[i])| && names(s[i])[k] == name;
      assert namesOf(t[i])[k] == name;
    }
    forall i | 0 <= i < |t| ensures HoldsAll(held, namesOf(t[i]), filesOf(t[i])) {
      assert HoldsAll(held, names(s[i]), files(s[i]));
    }
  }

  lemma ListsTransfer(files: seq<string>, jobs: seq<PublicationJob>, results: seq<JobResult>, runId: string,
                      fate: UiuxFate, le: (string, string) -> bool)
    requires ListsThenEvidence(files, jobs, ShotNames(runId), fate, le) && |jobs| == |results|
    requires forall i :: 0 <= i < |jobs| ==> ShotNames(runId)(jobs[i]) == ResultShotNames(runId)(results[i])
    ensures ListsThenEvidence(files, results, ResultShotNames(runId), fate, le)
  {
    var n := |files| - if fate.Staged? then |fate.files| else 0;
    SameLists(files[..n], jobs, ShotNames(runId), results, ResultShotNames(runId), le);
  }

  /** What a checked run stages and lists, told by its results. */
  lemma RunTells(w: string -> World, m: RunManifest, results: seq<JobResult>, rootsValid: JobResult -> bool,
                 faults: Faults, le: (string, string) -> bool)
    requires Checked(w, m, results, rootsValid).Ok? && Profiled(Checked(w, m, results, rootsValid).value)
    requires RunFate(m, PublicationJobs(Checked(w, m, results, rootsValid).value), faults, le) == Prepared
    ensures var parsed := Checked(w, m, results, rootsValid).value;
      var files := PublishedFiles(m, PublicationJobs(parsed), faults.uiux, le);
      && ResultsStaged(m.runId, results, faults.uiux, le, files, Held(Copies(m.runId, PublicationJobs(parsed))))
      && Summarises(w, m, parsed, results, SummaryOf(m, parsed, files))
  {
    var parsed := Checked(w, m, results, rootsValid).value;
    var jobs := PublicationJobs(parsed);
    CopiesTell(m.runId, jobs, le);
    FateNeedsNames(m, jobs, faults, le);
    SameShots(w, m, results, rootsValid);
    HeldTransfers(Held(Copies(m.runId, jobs)), jobs, ShotNames(m.runId), Shots(), results, ResultShotNames(m.runId),
                  ResultShots());
    FilesTell(Sort(CopyNames(Copies(m.runId, jobs)), le), jobs, ShotNames(m.runId), faults.uiux, le);
    var files := PublishedFiles(m, jobs, faults.uiux, le);
    PublishedFilesAre(m, jobs, faults.uiux, le);
    ListsTransfer(files, jobs, results, m.runId, faults.uiux, le);
    CheckedCarries(w, m, results, rootsValid);
    SummaryTells(w, m, parsed, results, files);
  }

  lemma PublishedFilesAre(m: RunManifest, jobs: seq<PublicationJob>, fate: UiuxFate, le: (string, string) -> bool)
    ensures PublishedFiles(m, jobs, fate, le)
      == Sort(CopyNames(Copies(m.runId, jobs)), le) + if fate.Staged? then Prefixed(fate.files) else []
  {
  }

  // The summary, told by the results and their reports.

  /** The id is in one of the lists. */
  ghost predicate Somewhere(id: string, jobs: seq<ParsedJob>, idsOf: ParsedJob -> seq<string>) {
    exists i :: 0 <= i < |jobs| && id in idsOf(jobs[i])
  }

  ghost function Reported(w: string -> World): ParsedJob -> seq<string> {
    (j: ParsedJob) => if ReportOf(w, j.spec, j.result).Ok? then ReportOf(w, j.spec, j.result).value.testIds else []
  }

  ghost function ReportedSkipped(w: string -> World): ParsedJob -> seq<string> {
    (j: ParsedJob) =>
      if ReportOf(w, j.spec, j.result).Ok? then ReportOf(w, j.spec, j.result).value.skippedTestIds else []
  }

  /** The ids of the manifest, the reported and the skipped ids of all jobs, and the evidence names and files at their
      places in the results. */
  ghost predicate Summarises(w: string -> World, m: RunManifest, jobs: seq<ParsedJob>, results: seq<JobResult>,
                             s: Summary)
  {
    && (forall id :: id in s.expectedTestIds <==> exists t :: t in m.tests && t.testId == id)
    && (forall id :: id in s.actualTestIds <==> Somewhere(id, jobs, Reported(w)))
    && (forall id :: id in s.skippedTestIds <==> Somewhere(id, jobs, ReportedSkipped(w)))
    && s.expectedEvidenceCount
       == |Places(results, (r: JobResult) => |r.expectedEvidenceNames|, (r: JobResult) => true)|
    && s.actualEvidenceCount == |Places(results, FilesFound(), (r: JobResult) => true)|
  }

  ghost function FilesFound(): JobResult -> nat {
    (r: JobResult) => (if r.screenshots.Some? then |r.screenshots.value| else 0)
                      + if r.evidence.Some? then |r.evidence.value| else 0
  }

  lemma {:induction false} AllSomewhere(w: string -> World, jobs: seq<ParsedJob>, id: string)
    requires forall i :: 0 <= i < |jobs| ==> Carries(w, jobs[i])
    ensures id in AllActual(jobs) <==> Somewhere(id, jobs, Reported(w))
    ensures id in AllSkipped(jobs) <==> Somewhere(id, jobs, ReportedSkipped(w))
  {
    if jobs != [] {
      assert Carries(w, jobs[0]);
      AllSomewhere(w, jobs[1..], id);
      SomewhereSplit(id, jobs, Reported(w));
      SomewhereSplit(id, jobs, ReportedSkipped(w));
    }
  }

  lemma SomewhereSplit(id: string, jobs: seq<ParsedJob>, idsOf: ParsedJob -> seq<string>)
    requires jobs != []
    ensures Somewhere(id, jobs, idsOf) <==> id in idsOf(jobs[0]) || Somewhere(id, jobs[1..], idsOf)
  {
    if Somewhere(id, jobs[1..], idsOf) {
      var i :| 0 <= i < |jobs[1..]| && id in idsOf(jobs[1..][i]);
      assert jobs[1..][i] == jobs[i + 1];
    }
    if Somewhere(id, jobs, idsOf) {
      var i :| 0 <= i < |jobs| && id in idsOf(jobs[i]);
      if i > 0 {
        assert jobs[1..][i - 1] == jobs[i];
      }
    }
  }

  lemma {:induction false} EvidencePlaces(w: string -> World, jobs: seq<ParsedJob>, results: seq<JobResult>,
                                          names: JobResult -> nat, found: JobResult -> nat)
    requires |jobs| == |results| && forall i :: 0 <= i < |jobs| ==> jobs[i].result == results[i] && Carries(w, jobs[i])
    requires forall r :: names(r) == |r.expectedEvidenceNames|
    requires forall r :: found(r) == FilesFound()(r)
    ensures EvidenceTotal(jobs) == Sum(results, (r: JobResult) => names(r))
    ensures FoundTotal(jobs) == Sum(results, (r: JobResult) => found(r))
    decreases |jobs|
  {
    if jobs != [] {
      assert Carries(w, jobs[0]);
      EvidencePlaces(w, jobs[1..], results[1..], names, found);
    }
  }

  lemma SumPlaces(results: seq<JobResult>, size: JobResult -> nat, all: JobResult -> bool)
    requires forall r :: all(r)
    ensures Sum(results, (r: JobResult) => size(r)) == |Places(results, size, all)|
  {
    FilterAll(results, all);
    SumIsPlaces(results, (r: JobResult) => size(r), size, all);
  }

  lemma SummaryTells(w: string -> World, m: RunManifest, jobs: seq<ParsedJob>, results: seq<JobResult>,
                     files: seq<string>)
    requires |jobs| == |results| && forall i :: 0 <= i < |jobs| ==> jobs[i].result == results[i] && Carries(w, jobs[i])
    ensures Summarises(w, m, jobs, results, SummaryOf(m, jobs, files))
  {
    forall id
      ensures id in AllActual(jobs) <==> Somewhere(id, jobs, Reported(w))
      ensures id in AllSkipped(jobs) <==> Somewhere(id, jobs, ReportedSkipped(w))
    {
      AllSomewhere(w, jobs, id);
    }
    var names := (r: JobResult) => |r.expectedEvidenceNames|;
    EvidencePlaces(w, jobs, results, names, FilesFound());
    SumPlaces(results, names, (r: JobResult) => true);
    SumPlaces(results, FilesFound(), (r: JobResult) => true);
  }

  // ---------------------------------------------------------------------------
  // No stage outlives the run
  // ---------------------------------------------------------------------------

  /** The UI evidence was prepared, or there is none, and the screenshots were staged but their payload refused. */
  ghost predicate Leaks(run: Fate, faults: Faults) {
    UiuxStage(faults.uiux, 0).Some? && run == Leaked
  }

  lemma GrowDrop(s: Stages)
    requires Accounted(s)
    ensures Accounted(Grow(s)) && Accounted(Drop(Grow(s), s.next))
    ensures Drop(Grow(s), s.next).live == s.live && Drop(Grow(s), s.next).committed == s.committed
  {
    assert s.next !in s.live;
  }

  lemma DropLive(s: Stages, stage: nat)
    requires Accounted(s) && stage in s.live
    ensures Accounted(Drop(s, stage))
  {
  }

  lemma SettleLive(s: Stages, stages: set<nat>)
    requires Accounted(s) && stages <= s.live
    ensures Accounted(Settle(s, stages))
  {
  }

  /** Every stage that a run allocates ends committed or discarded, whatever fails, except one: the screenshot
      stage whose payload was refused. They are committed exactly when the transaction commits. */
  lemma StagesAfterRun(s: Stages, t: Targets, run: Fate, faults: Faults)
    requires Accounted(s)
    ensures var final := Final(s, t, run, faults);
      && Accounted(final)
      && final.live == s.live + (if Leaks(run, faults) then {AfterUiux(faults.uiux, s).next} else {})
      && final.committed == s.committed
         + if !Succeeds(s, t, run, faults) then {} else if faults.uiux.Staged? then {s.next, s.next + 1} else {s.next}
  {
    var staged := AfterUiux(faults.uiux, s);
    GrowDrop(s);
    GrowDrop(staged);
    if faults.uiux.Staged? {
      DropLive(After(run, staged), s.next);
      DropLive(Grow(staged), s.next);
      DropLive(Drop(Grow(staged), s.next), staged.next);
      SettleLive(Grow(staged), {s.next, staged.next});
    } else if faults.uiux.NoEvidence? {
      SettleLive(Grow(staged), {staged.next});
    }
  }

  /** Preparing the screenshots leaves a stage behind exactly when everything was copied and some project of the
      manifest has not one expected and one actual profile among its jobs. */
  lemma LeaksExactly(m: RunManifest, jobs: seq<PublicationJob>, faults: Faults, le: (string, string) -> bool)
    ensures RunFate(m, jobs, faults, le) == Leaked
      <==> (&& NoRepeats(CopyNames(Copies(m.runId, jobs))) && !faults.allocationFails
            && (faults.copyFails.Some? ==> faults.copyFails.value >= |Copies(m.runId, jobs)|)
            && !ProfilesSettled(m, jobs))
  {
    PayloadExactly(m, jobs, Sort(CopyNames(Copies(m.runId, jobs)), le), le);
  }

  /** After the checks of a run with a covered manifest the same holds of the manifest alone: some project with a
      test has no job, or its jobs declare two profiles. */
  lemma CheckedLeaksExactly(w: string -> World, m: RunManifest, results: seq<JobResult>, rootsValid: JobResult -> bool,
                            faults: Faults, le: (string, string) -> bool)
    requires Covered(m) && Checked(w, m, results, rootsValid).Ok?
    ensures Profiled(Checked(w, m, results, rootsValid).value)
    ensures var jobs := PublicationJobs(Checked(w, m, results, rootsValid).value);
      RunFate(m, jobs, faults, le) == Leaked
      <==> CopyFate(RepeatsNothing(CopyNames(Copies(m.runId, jobs))), |Copies(m.runId, jobs)|, faults) == Prepared
           && !ProjectsDeclared(m)
  {
    CheckedIsProfiled(w, m, results, rootsValid);
    var jobs := PublicationJobs(Checked(w, m, results, rootsValid).value);
    CheckedPayloadExactly(w, m, results, rootsValid, Sort(CopyNames(Copies(m.runId, jobs)), le), le);
  }

  /** It does happen: a manifest with a test, prepared on its own with no job at all. */
  lemma PreparedAloneItLeaks(m: RunManifest, faults: Faults, le: (string, string) -> bool)
    requires m.tests != [] && !faults.allocationFails
    ensures RunFate(m, [], faults, le) == Leaked
  {
    LeaksExactly(m, [], faults, le);
    assert m.tests[0] in m.tests;
    assert ExpectedIn([], m.tests[0].project) == {};
  }

  lemma ScreenshotsTaken(w: string -> World, m: RunManifest, r: JobResult)
    requires Taken(w, m, r)
    ensures r.screenshots == Some(TakeResult(w, m, r).value.screenshots)
  {
  }

  /** A run of one job without screenshots has nothing to copy. */
  lemma NothingToCopy(w: string -> World, m: RunManifest, r: JobResult, rootsValid: JobResult -> bool)
    requires Checked(w, m, [r], rootsValid).Ok? && r.screenshots == Some([])
    ensures Profiled(Checked(w, m, [r], rootsValid).value)
    ensures Copies(m.runId, PublicationJobs(Checked(w, m, [r], rootsValid).value)) == []
  {
    var parsed := Checked(w, m, [r], rootsValid).value;
    CheckedIsProfiled(w, m, [r], rootsValid);
    ParsedOneByOne(w, m, [r]);
    assert TakeResult(w, m, [r][0]) == Ok(parsed[0]);
    ScreenshotsTaken(w, m, r);
    var jobs := PublicationJobs(parsed);
    assert jobs[1..] == [] && jobs[0].screenshots == [];
  }

  lemma OtherProjectUndeclared(listed: DiscoveredTest, test: DiscoveredTest)
    requires listed.project != test.project
    ensures !ProjectsDeclared(SmallManifest(listed, test))
  {
    var m := SmallManifest(listed, test);
    assert listed in m.tests && !HasJob(m, listed.project);
  }

  /** And after the checks of a run: with a covered manifest whose one job lists its test under another project. */
  lemma CheckedRunLeaks(w: World, root: string, file: string, listed: DiscoveredTest, test: DiscoveredTest,
                        faults: Faults, le: (string, string) -> bool)
    requires Located(w, root, file, test) && listed.testId == test.testId && listed.project != test.project
    requires !faults.allocationFails
    ensures
      var m, checked := SmallManifest(listed, test),
          Checked((r: string) => w, SmallManifest(listed, test), SmallRun(root, file, test), (r: JobResult) => true);
      && Covered(m) && checked.Ok? && Profiled(checked.value)
      && RunFate(m, PublicationJobs(checked.value), faults, le) == Leaked
  {
    var m, results := SmallManifest(listed, test), SmallRun(root, file, test);
    var worlds, valid := (r: string) => w, (r: JobResult) => true;
    SmallRunPasses(w, root, file, listed, test);
    assert results == [results[0]];
    NothingToCopy(worlds, m, results[0], valid);
    OtherProjectUndeclared(listed, test);
    CheckedLeaksExactly(worlds, m, results, valid, faults, le);
  }

  lemma WellFormedNeverLeaks(w: string -> World, m: RunManifest, results: seq<JobResult>, rootsValid: JobResult -> bool,
                             faults: Faults, le: (string, string) -> bool)
    requires WellFormed(m) && Checked(w, m, results, rootsValid).Ok?
    ensures Profiled(Checked(w, m, results, rootsValid).value)
    ensures RunFate(m, PublicationJobs(Checked(w, m, results, rootsValid).value), faults, le) != Leaked
  {
    var parsed := Checked(w, m, results, rootsValid).value;
    CheckedFacts(w, m, results, rootsValid);
    ExactlyOnce(w, m, results, rootsValid);
    NeverLeaks(m, results, parsed, faults, le);
  }

  lemma NeverLeaks(m: RunManifest, results: seq<JobResult>, parsed: seq<ParsedJob>, faults: Faults,
                   le: (string, string) -> bool)
    requires WellFormed(m) && OneProfilePerProject(m) && Parity(m, results, parsed)
    ensures Profiled(parsed) && RunFate(m, PublicationJobs(parsed), faults, le) != Leaked
  {
    RunJobs(m, results, parsed);
    PayloadExists(m, results, parsed, Sort(CopyNames(Copies(m.runId, PublicationJobs(parsed))), le), le);
  }

  /** With a well-formed manifest no stage outlives the run: every outcome leaves live exactly what was live. */
  lemma NoStageOutlivesTheRun(w: string -> World, m: RunManifest, results: seq<JobResult>,
                              rootsValid: JobResult -> bool,
                              faults: Faults, le: (string, string) -> bool, s: Stages, t: Targets)
    requires WellFormed(m) && Checked(w, m, results, rootsValid).Ok? && Accounted(s)
    ensures Profiled(Checked(w, m, results, rootsValid).value)
    ensures Final(s, t, RunFate(m, PublicationJobs(Checked(w, m, results, rootsValid).value), faults, le), faults).live
      == s.live
  {
    WellFormedNeverLeaks(w, m, results, rootsValid, faults, le);
    StagesAfterRun(s, t, RunFate(m, PublicationJobs(Checked(w, m, results, rootsValid).value), faults, le), faults);
  }

  // ---------------------------------------------------------------------------
  // The summary
  // ---------------------------------------------------------------------------

  lemma {:induction false} EvidenceAgrees(jobs: seq<ParsedJob>)
    requires forall j :: j in jobs ==> Sound(j)
    ensures EvidenceTotal(jobs) == FoundTotal(jobs)
    ensures forall id :: id in AllSkipped(jobs) ==> id in AllActual(jobs)
  {
    if jobs != [] {
      assert jobs[0] in jobs;
      EvidenceAgrees(jobs[1..]);
      SameSize(jobs[0].actualEvidenceNames, jobs[0].result.expectedEvidenceNames);
      forall id | id in jobs[0].skippedTestIds ensures id in jobs[0].actualTestIds {
        assert id in multiset(jobs[0].actualTestIds);
      }
    }
  }

  /** The summary of a checked run: the ids found are the ids expected, the skipped ones are among them, and as much
      evidence was found as expected. */
  lemma SummaryAgrees(m: RunManifest, results: seq<JobResult>, jobs: seq<ParsedJob>, files: seq<string>)
    requires SoundRun(m, results, jobs) && multiset(TestIds(m.tests)) == multiset(AllActual(jobs))
    ensures var s := SummaryOf(m, jobs, files);
      && s.expectedTestIds == s.actualTestIds && s.skippedTestIds <= s.actualTestIds
      && s.expectedEvidenceCount == s.actualEvidenceCount
  {
    EvidenceAgrees(jobs);
    forall id ensures (exists t :: t in m.tests && t.testId == id) <==> id in AllActual(jobs) {
      assert id in AllActual(jobs) <==> id in multiset(TestIds(m.tests));
      if id in TestIds(m.tests) {
        var i :| 0 <= i < |m.tests| && TestIds(m.tests)[i] == id;
        assert m.tests[i] in m.tests;
      }
      if t :| t in m.tests && t.testId == id {
        var i :| 0 <= i < |m.tests| && m.tests[i] == t;
        assert TestIds(m.tests)[i] == id;
      }
    }
  }
}
