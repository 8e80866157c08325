/**
 The reporter's document both parsers read (aggregate_report.py:29-82, benchmark_report.py:18-67).
 The reports are trees of suites; both parsers go through them in the same order.
 */
module Reports {
  import opened Outcomes

  datatype Status = Passed | Failed | TimedOut | Skipped | Interrupted
  datatype TestStatus = Expected | SkippedTest | Unexpected | Flaky
  datatype Duration = Absent | Null | Millis(value: real)

  datatype Attempt = Attempt(status: Status, duration: Duration, retry: int)
  datatype Test = Test(project: string, expected: Status, status: TestStatus, results: seq<Attempt>)
  datatype Spec = Spec(title: string, file: string, line: int, tests: seq<Test>)
  datatype Suite = Suite(title: string, specs: seq<Spec>, suites: seq<Suite>)
  datatype Project = Project(name: string, retries: int)
  datatype Report = Report(rootDir: string, projects: seq<Project>, suites: seq<Suite>, errors: seq<string>)

  /** The file system and the naming of tests. `locate(root, file)` is the resolved path relative to the
      repository, or None when it lies outside; `idOf` is `canonical_test_id`. */
  datatype World = World(
    isAbsolute: string -> bool,
    inRepository: string -> string,
    locate: (string, string) -> Option<string>,
    idOf: (string, string, int, seq<string>) -> string,
    le: (string, string) -> bool)

  /** A spec with the titles of the suites around it. */
  datatype Entry = Entry(titles: seq<string>, spec: Spec)

  function SpecEntries(titles: seq<string>, specs: seq<Spec>): (es: seq<Entry>)
    ensures |es| == |specs|
  {
    if specs == [] then [] else [Entry(titles, specs[0])] + SpecEntries(titles, specs[1..])
  }

  function Titles(suite: Suite, parents: seq<string>, includeTitle: bool): seq<string> {
    if includeTitle then parents + [suite.title] else parents
  }

  /** The specs of a suite in the order of the traversal: its own, then those of its children. */
  function SuiteEntries(suite: Suite, parents: seq<string>, includeTitle: bool): seq<Entry>
    decreases suite
  {
    var titles := Titles(suite, parents, includeTitle);
    SpecEntries(titles, suite.specs) + ForestEntries(suite.suites, titles, true)
  }

  function ForestEntries(suites: seq<Suite>, parents: seq<string>, includeTitle: bool): seq<Entry>
    decreases suites
  {
    if suites == [] then []
    else SuiteEntries(suites[0], parents, includeTitle) + ForestEntries(suites[1..], parents, includeTitle)
  }

  function Entries(report: Report): seq<Entry> { ForestEntries(report.suites, [], false) }

  function Names(projects: seq<Project>): (names: seq<string>)
    ensures |names| == |projects|
    ensures forall i :: 0 <= i < |names| ==> names[i] == projects[i].name
  {
    if projects == [] then [] else [projects[0].name] + Names(projects[1..])
  }

  function Statuses(attempts: seq<Attempt>): (s: seq<Status>)
    ensures |s| == |attempts|
    ensures forall i :: 0 <= i < |s| ==> s[i] == attempts[i].status
  {
    if attempts == [] then [] else [attempts[0].status] + Statuses(attempts[1..])
  }

  /** The two outcomes a run may have without failing (aggregate_report.py:222-235,
      benchmark_report.py:195-210): expected and observed status agree, with no attempt to spare. */
  predicate CleanPass(t: Test) {
    t.expected == Passed && t.status == Expected && Statuses(t.results) == [Passed]
  }

  predicate CleanSkip(t: Test) {
    t.expected == Skipped && t.status == SkippedTest && (Statuses(t.results) == [] || Statuses(t.results) == [Skipped])
  }

  // ---------------------------------------------------------------------------
  // The traversal visits every spec
  // ---------------------------------------------------------------------------

  /** The spec stands in one of the suites, at any depth. */
  predicate Nested(suites: seq<Suite>, spec: Spec)
    decreases suites
  {
    exists i :: 0 <= i < |suites| && (spec in suites[i].specs || Nested(suites[i].suites, spec))
  }

  predicate Visited(entries: seq<Entry>, spec: Spec) {
    exists e :: e in entries && e.spec == spec
  }

  lemma {:induction false} SpecsVisited(titles: seq<string>, specs: seq<Spec>, spec: Spec)
    ensures Visited(SpecEntries(titles, specs), spec) <==> spec in specs
  {
    if specs != [] {
      SpecsVisited(titles, specs[1..], spec);
      VisitedAppend([Entry(titles, specs[0])], SpecEntries(titles, specs[1..]), spec);
      assert Entry(titles, specs[0]) in [Entry(titles, specs[0])];
    }
  }

  lemma VisitedAppend(a: seq<Entry>, b: seq<Entry>, spec: Spec)
    ensures Visited(a + b, spec) <==> Visited(a, spec) || Visited(b, spec)
  {
    forall e ensures e in a + b <==> e in a || e in b { }
    if Visited(a, spec) {
      var e :| e in a && e.spec == spec;
      assert e in a + b;
    }
    if Visited(b, spec) {
      var e :| e in b && e.spec == spec;
      assert e in a + b;
    }
  }

  /** The traversal reaches a spec exactly when it is nested somewhere in the tree. */
  lemma {:induction false} ForestVisited(suites: seq<Suite>, parents: seq<string>, includeTitle: bool, spec: Spec)
    ensures Visited(ForestEntries(suites, parents, includeTitle), spec) <==> Nested(suites, spec)
    decreases suites
  {
    if suites != [] {
      var titles := Titles(suites[0], parents, includeTitle);
      SpecsVisited(titles, suites[0].specs, spec);
      ForestVisited(suites[0].suites, titles, true, spec);
      ForestVisited(suites[1..], parents, includeTitle, spec);
      VisitedAppend(SpecEntries(titles, suites[0].specs), ForestEntries(suites[0].suites, titles, true), spec);
      VisitedAppend(SuiteEntries(suites[0], parents, includeTitle), ForestEntries(suites[1..], parents, includeTitle),
                    spec);
      NestedSplit(suites, spec);
    }
  }

  lemma NestedSplit(suites: seq<Suite>, spec: Spec)
    requires suites != []
    ensures Nested(suites, spec)
      <==> spec in suites[0].specs || Nested(suites[0].suites, spec) || Nested(suites[1..], spec)
  {
    if Nested(suites[1..], spec) {
      var i :| 0 <= i < |suites[1..]| && (spec in suites[1..][i].specs || Nested(suites[1..][i].suites, spec));
      assert suites[1..][i] == suites[i + 1];
    }
    if Nested(suites, spec) {
      var i :| 0 <= i < |suites| && (spec in suites[i].specs || Nested(suites[i].suites, spec));
      if i > 0 {
        assert suites[1..][i - 1] == suites[i];
      }
    }
  }

  // ---------------------------------------------------------------------------
  // Once each, in order, with the titles on the way
  // ---------------------------------------------------------------------------

  /** Spec number k of the suite that the path leads to, from the outermost suite inwards. */
  datatype Position = Position(path: seq<nat>, k: nat)

  function SuiteAt(suites: seq<Suite>, path: seq<nat>): Option<Suite>
    decreases |path|
  {
    if path == [] || path[0] >= |suites| then None
    else if |path| == 1 then Some(suites[path[0]])
    else SuiteAt(suites[path[0]].suites, path[1..])
  }

  predicate Exists(suites: seq<Suite>, p: Position) {
    SuiteAt(suites, p.path).Some? && p.k < |SuiteAt(suites, p.path).value.specs|
  }

  /** The titles of the suites on the path. */
  function TitlesOn(suites: seq<Suite>, path: seq<nat>): (titles: seq<string>)
    requires SuiteAt(suites, path).Some?
    ensures |titles| == |path|
    decreases |path|
  {
    [suites[path[0]].title] + if |path| == 1 then [] else TitlesOn(suites[path[0]].suites, path[1..])
  }

  /** The entry is the spec at this position, with the titles of the suites on the way behind those of the parents; the
      outermost suite, which stands for a file, counts only if `includeTitle`. */
  ghost predicate StandsAt(suites: seq<Suite>, parents: seq<string>, includeTitle: bool, p: Position, e: Entry) {
    && Exists(suites, p) && e.spec == SuiteAt(suites, p.path).value.specs[p.k]
    && e.titles == parents + TitlesOn(suites, p.path)[if includeTitle then 0 else 1..]
  }

  /** The order of the traversal: the specs of a suite before those of its children, which come one after another. */
  predicate Before(p: Position, q: Position) {
    if p.path == q.path then p.k < q.k
    else p.path <= q.path || (exists d :: 0 <= d < |p.path| && d < |q.path| && p.path[..d] == q.path[..d]
                                          && p.path[d] < q.path[d])
  }

  ghost predicate InOrder(ps: seq<Position>) {
    forall i, j :: 0 <= i < j < |ps| ==> Before(ps[i], ps[j])
  }

  /** The positions, one for each entry, in order, and none is left out. */
  ghost predicate Traverses(suites: seq<Suite>, parents: seq<string>, includeTitle: bool, es: seq<Entry>,
                            ps: seq<Position>)
  {
    && |ps| == |es| && InOrder(ps)
    && (forall i :: 0 <= i < |ps| ==> StandsAt(suites, parents, includeTitle, ps[i], es[i]))
    && (forall p :: Exists(suites, p) ==> p in ps)
  }

  /** The specs of the suite itself. */
  function OwnPositions(first: nat, n: nat): (ps: seq<Position>)
    ensures |ps| == n && forall i :: 0 <= i < n ==> ps[i] == Position([first], i)
  {
    seq(n, i requires 0 <= i < n => Position([first], i))
  }

  function Below(first: nat, ps: seq<Position>): (qs: seq<Position>)
    ensures |qs| == |ps|
    ensures forall i :: 0 <= i < |ps| ==> qs[i] == Position([first] + ps[i].path, ps[i].k)
  {
    seq(|ps|, i requires 0 <= i < |ps| => Position([first] + ps[i].path, ps[i].k))
  }

  function Shifted(ps: seq<Position>): (qs: seq<Position>)
    requires forall p :: p in ps ==> p.path != []
    ensures |qs| == |ps|
    ensures forall i :: 0 <= i < |ps| ==> qs[i] == Position([ps[i].path[0] + 1] + ps[i].path[1..], ps[i].k)
  {
    seq(|ps|, i requires 0 <= i < |ps| => Position([ps[i].path[0] + 1] + ps[i].path[1..], ps[i].k))
  }

  lemma BeforeBelow(first: nat, p: Position, q: Position)
    requires Before(p, q)
    ensures Before(Position([first] + p.path, p.k), Position([first] + q.path, q.k))
  {
    var a, b := [first] + p.path, [first] + q.path;
    assert a[1..] == p.path && b[1..] == q.path;
    if p.path != q.path && !(p.path <= q.path) {
      var d :| 0 <= d < |p.path| && d < |q.path| && p.path[..d] == q.path[..d] && p.path[d] < q.path[d];
      assert a[..d + 1] == [first] + p.path[..d] && b[..d + 1] == [first] + q.path[..d];
      assert a[d + 1] < b[d + 1];
    }
  }

  lemma BeforeShifted(p: Position, q: Position)
    requires Before(p, q) && p.path != [] && q.path != []
    ensures Before(Position([p.path[0] + 1] + p.path[1..], p.k), Position([q.path[0] + 1] + q.path[1..], q.k))
  {
    var a, b := [p.path[0] + 1] + p.path[1..], [q.path[0] + 1] + q.path[1..];
    if p.path == q.path {
    } else if p.path <= q.path {
      assert a <= b;
    } else {
      var d :| 0 <= d < |p.path| && d < |q.path| && p.path[..d] == q.path[..d] && p.path[d] < q.path[d];
      if d > 0 {
        assert p.path[0] == p.path[..d][0] && q.path[0] == q.path[..d][0];
        assert a[..d] == [a[0]] + p.path[..d][1..] && b[..d] == [b[0]] + q.path[..d][1..];
      }
      assert a[d] < b[d] && a[..d] == b[..d];
    }
  }

  lemma InOrderAppend(a: seq<Position>, b: seq<Position>)
    requires InOrder(a) && InOrder(b) && forall p, q :: p in a && q in b ==> Before(p, q)
    ensures InOrder(a + b)
  {
  }

  lemma {:induction false} SpecEntriesAt(titles: seq<string>, specs: seq<Spec>, k: nat)
    requires k < |specs|
    ensures SpecEntries(titles, specs)[k] == Entry(titles, specs[k])
  {
    if k > 0 {
      SpecEntriesAt(titles, specs[1..], k - 1);
    }
  }

  lemma OwnStands(suites: seq<Suite>, parents: seq<string>, includeTitle: bool, k: nat)
    requires suites != [] && k < |suites[0].specs|
    ensures StandsAt(suites, parents, includeTitle, Position([0], k),
                     SpecEntries(Titles(suites[0], parents, includeTitle), suites[0].specs)[k])
  {
    SpecEntriesAt(Titles(suites[0], parents, includeTitle), suites[0].specs, k);
    assert TitlesOn(suites, [0]) == [suites[0].title];
  }

  lemma BelowStands(suites: seq<Suite>, parents: seq<string>, includeTitle: bool, p: Position, e: Entry)
    requires suites != [] && StandsAt(suites[0].suites, Titles(suites[0], parents, includeTitle), true, p, e)
    ensures StandsAt(suites, parents, includeTitle, Position([0] + p.path, p.k), e)
  {
    assert ([0] + p.path)[1..] == p.path;
    assert TitlesOn(suites, [0] + p.path) == [suites[0].title] + TitlesOn(suites[0].suites, p.path);
  }

  lemma ShiftedStands(suites: seq<Suite>, parents: seq<string>, includeTitle: bool, p: Position, e: Entry)
    requires suites != [] && StandsAt(suites[1..], parents, includeTitle, p, e)
    ensures p.path != []
    ensures StandsAt(suites, parents, includeTitle, Position([p.path[0] + 1] + p.path[1..], p.k), e)
  {
    var path := [p.path[0] + 1] + p.path[1..];
    assert path[1..] == p.path[1..] && suites[1..][p.path[0]] == suites[path[0]];
    assert TitlesOn(suites, path) == TitlesOn(suites[1..], p.path);
  }

  lemma StandInOrder(own: seq<Position>, inner: seq<Position>, rest: seq<Position>, n: nat)
    requires own == OwnPositions(0, n) && InOrder(inner) && InOrder(rest)
    requires forall p :: p in inner ==> p.path != []
    requires forall p :: p in rest ==> p.path != []
    ensures InOrder(own + Below(0, inner) + Shifted(rest))
  {
    var below, shifted := Below(0, inner), Shifted(rest);
    forall i, j | 0 <= i < j < |inner| ensures Before(below[i], below[j]) { BeforeBelow(0, inner[i], inner[j]); }
    forall i, j | 0 <= i < j < |rest| ensures Before(shifted[i], shifted[j]) { BeforeShifted(rest[i], rest[j]); }
    forall p, q | p in own && q in below ensures Before(p, q) { }
    InOrderAppend(own, below);
    forall p, q | p in own + below && q in shifted ensures Before(p, q) {
      assert p.path[..0] == q.path[..0] && p.path[0] < q.path[0];
    }
    InOrderAppend(own + below, shifted);
  }

  lemma NoneLeftOut(suites: seq<Suite>, inner: seq<Position>, rest: seq<Position>, p: Position)
    requires suites != [] && Exists(suites, p)
    requires forall q :: Exists(suites[0].suites, q) ==> q in inner
    requires forall q :: Exists(suites[1..], q) ==> q in rest
    requires forall q :: q in rest ==> q.path != []
    ensures p in OwnPositions(0, |suites[0].specs|) + Below(0, inner) + Shifted(rest)
  {
    if p.path[0] > 0 {
      var q := Position([p.path[0] - 1] + p.path[1..], p.k);
      assert q.path[1..] == p.path[1..] && suites[1..][q.path[0]] == suites[p.path[0]];
      assert q in rest;
      var i :| 0 <= i < |rest| && rest[i] == q;
      assert p.path == [p.path[0]] + p.path[1..];
      assert Shifted(rest)[i] == p;
    } else if |p.path| > 1 {
      var q := Position(p.path[1..], p.k);
      assert q in inner;
      var i :| 0 <= i < |inner| && inner[i] == q;
      assert p.path == [0] + q.path;
      assert Below(0, inner)[i] == p;
    } else {
      assert p.path == [0];
      assert OwnPositions(0, |suites[0].specs|)[p.k] == p;
    }
  }

  /** The traversal reaches every spec of the tree exactly once, in order, with the titles of the suites on the way. */
  lemma {:induction false} Traversed(suites: seq<Suite>, parents: seq<string>, includeTitle: bool)
    returns (ps: seq<Position>)
    ensures Traverses(suites, parents, includeTitle, ForestEntries(suites, parents, includeTitle), ps)
    decreases suites
  {
    if suites == [] {
      ps := [];
    } else {
      var titles, n := Titles(suites[0], parents, includeTitle), |suites[0].specs|;
      var inner := Traversed(suites[0].suites, titles, true);
      var rest := Traversed(suites[1..], parents, includeTitle);
      var innerEntries := ForestEntries(suites[0].suites, titles, true);
      var restEntries := ForestEntries(suites[1..], parents, includeTitle);
      PathsNotEmpty(suites[0].suites, titles, true, innerEntries, inner);
      PathsNotEmpty(suites[1..], parents, includeTitle, restEntries, rest);
      ps := OwnPositions(0, n) + Below(0, inner) + Shifted(rest);
      StandInOrder(OwnPositions(0, n), inner, rest, n);
      forall p | Exists(suites, p) ensures p in ps { NoneLeftOut(suites, inner, rest, p); }
      AllStand(suites, parents, includeTitle, inner, innerEntries, rest, restEntries);
    }
  }

  lemma PathsNotEmpty(suites: seq<Suite>, parents: seq<string>, includeTitle: bool, es: seq<Entry>, ps: seq<Position>)
    requires Traverses(suites, parents, includeTitle, es, ps)
    ensures forall p :: p in ps ==> p.path != []
  {
    forall p | p in ps ensures p.path != [] {
      var i :| 0 <= i < |ps| && ps[i] == p;
      assert StandsAt(suites, parents, includeTitle, ps[i], es[i]);
    }
  }

  lemma AllStand(suites: seq<Suite>, parents: seq<string>, includeTitle: bool,
                 inner: seq<Position>, innerEntries: seq<Entry>, rest: seq<Position>, restEntries: seq<Entry>)
    requires suites != [] && |inner| == |innerEntries| && |rest| == |restEntries|
    requires forall p :: p in rest ==> p.path != []
    requires forall i :: 0 <= i < |inner| ==>
      StandsAt(suites[0].suites, Titles(suites[0], parents, includeTitle), true, inner[i], innerEntries[i])
    requires forall i :: 0 <= i < |rest| ==> StandsAt(suites[1..], parents, includeTitle, rest[i], restEntries[i])
    ensures var specs := suites[0].specs;
      var ps := OwnPositions(0, |specs|) + Below(0, inner) + Shifted(rest);
      var es := SpecEntries(Titles(suites[0], parents, includeTitle), specs) + innerEntries + restEntries;
      |ps| == |es| && forall i :: 0 <= i < |ps| ==> StandsAt(suites, parents, includeTitle, ps[i], es[i])
  {
    var specs := suites[0].specs;
    var ps := OwnPositions(0, |specs|) + Below(0, inner) + Shifted(rest);
    var es := SpecEntries(Titles(suites[0], parents, includeTitle), specs) + innerEntries + restEntries;
    forall i | 0 <= i < |ps| ensures StandsAt(suites, parents, includeTitle, ps[i], es[i]) {
      if i < |specs| {
        OwnStands(suites, parents, includeTitle, i);
      } else if i < |specs| + |inner| {
        BelowStands(suites, parents, includeTitle, inner[i - |specs|], innerEntries[i - |specs|]);
      } else {
        var k := i - |specs| - |inner|;
        ShiftedStands(suites, parents, includeTitle, rest[k], restEntries[k]);
      }
    }
  }

  // ---------------------------------------------------------------------------
  // The smallest report
  // ---------------------------------------------------------------------------

  /** A report with one file and one test, which passed. */
  function OneTestReport(root: string, file: string, project: string, duration: Duration): Report {
    Report(root, [Project(project, 0)], [Suite("", [OneTestSpec(file, project, duration)], [])], [])
  }

  function OneTestSpec(file: string, project: string, duration: Duration): Spec {
    Spec("", file, 1, [Test(project, Passed, Expected, [Attempt(Passed, duration, 0)])])
  }

  lemma OneEntry(root: string, file: string, project: string, duration: Duration)
    ensures Entries(OneTestReport(root, file, project, duration)) == [Entry([], OneTestSpec(file, project, duration))]
  {
    var spec := OneTestSpec(file, project, duration);
    var suite := Suite("", [spec], []);
    assert [spec][1..] == [] && [suite][1..] == [];
    assert SpecEntries([], [spec]) == [Entry([], spec)];
    assert ForestEntries([], [], true) == [];
    assert SuiteEntries(suite, [], false) == [Entry([], spec)];
    assert ForestEntries([suite], [], false) == SuiteEntries(suite, [], false) + ForestEntries([], [], false);
  }
}
