/** The runner's own check of a worker's summary: ci/p022_check_summary.py, `read_reports`,
    `check_counts`, `suite_clean` and `check`. Fields already have their types; JSON decoding and
    type tests are not modelled. */
module BatteryVerdict {
  import opened Wrappers
  import opened Ordering
  import Text

  const SCHEMA := "p022-public-battery/4"
  const KIND := "public-recovery-and-public-fixture-battery"
  const TRUST := "reviewed-recipe-self-reported"
  const PASS := "PUBLIC-BATTERY-PASS"
  const FAIL := "PUBLIC-BATTERY-FAIL"
  const MAX_INT: int := 1000000
  const PUBLIC_SLUGS: set<string> := {"vw", "biodiversity"}
  const SKIP_REASONS: set<string> := {"not-run-in-this-job"}

  // ----- The returned JUnit files

  datatype Key = Tests | Failures | Errors | Skipped

  /** The attributes of one testsuite element; an absent one counts 0. */
  datatype Suite = Suite(tests: int, failures: int, errors: int, skipped: int) {
    function Field(k: Key): int {
      match k
      case Tests => tests
      case Failures => failures
      case Errors => errors
      case Skipped => skipped
    }
  }

  /** One file: not XML, or its testsuite elements. */
  datatype Report = Unparseable | Parsed(suites: seq<Suite>)

  /** The aggregates over one phase. */
  datatype Counts = Counts(reports: int, tests: int, failures: int, errors: int, skipped: int, executed: int,
                           minExecuted: int) {
    function Total(k: Key): int {
      match k
      case Tests => tests
      case Failures => failures
      case Errors => errors
      case Skipped => skipped
    }
  }

  function SuiteSum(suites: seq<Suite>, k: Key): int {
    if suites == [] then 0 else SuiteSum(suites[..|suites| - 1], k) + suites[|suites| - 1].Field(k)
  }

  function Count(r: Report, k: Key): int {
    if r.Parsed? then SuiteSum(r.suites, k) else 0
  }

  function Sum(reports: seq<Report>, k: Key): int {
    if reports == [] then 0 else Sum(reports[..|reports| - 1], k) + Count(reports[|reports| - 1], k)
  }

  function Executed(r: Report): int {
    Count(r, Tests) - Count(r, Skipped)
  }

  /** `n` is the least value of the list, and 0 when there is none. */
  ghost predicate IsLeast(values: seq<int>, n: int) {
    if values == [] then n == 0 else n in values && forall i :: 0 <= i < |values| ==> n <= values[i]
  }

  function ExecutedOf(reports: seq<Report>): (r: seq<int>)
    ensures |r| == |reports| && forall i :: 0 <= i < |r| ==> r[i] == Executed(reports[i])
  {
    seq(|reports|, i requires 0 <= i < |reports| => Executed(reports[i]))
  }

  predicate Usable(r: Report) {
    r.Parsed? && r.suites != [] && Executed(r) > 0
  }

  predicate AllUsable(reports: seq<Report>) {
    forall r :: r in reports ==> Usable(r)
  }

  lemma AllUsableStep(reports: seq<Report>, i: nat)
    requires i < |reports|
    ensures AllUsable(reports[..i + 1]) <==> AllUsable(reports[..i]) && Usable(reports[i])
  {}

  method Least(values: seq<int>) returns (n: int)
    ensures IsLeast(values, n)
  {
    if values == [] { return 0; }
    n := values[0];
    for i := 1 to |values|
      invariant n in values && forall j :: 0 <= j < i ==> n <= values[j]
    {
      if values[i] < n { n := values[i]; }
    }
  }

  datatype Trouble = NotXml | NoSuite | NothingExecuted | NoDirectory

  /** None for a directory that is missing. */
  method ReadReports(directory: Option<seq<Report>>) returns (out: Counts, problems: seq<Trouble>)
    ensures directory.None? ==> problems != [] && out == Counts(0, 0, 0, 0, 0, 0, 0)
    ensures directory.Some? ==> Reads(directory.value, out)
    ensures directory.Some? ==> (problems == [] <==> AllUsable(directory.value))
  {
    hide Usable, AllUsable, Sum, Count;
    out, problems := Counts(0, 0, 0, 0, 0, 0, 0), [];
    Nothing();
    if directory.None? { return out, [NoDirectory]; }
    var reports := directory.value;
    var perReport: seq<int> := [];
    for i := 0 to |reports|
      invariant Tallied(reports[..i], out) && out.executed == 0 && out.minExecuted == 0
      invariant perReport == ExecutedOf(reports[..i])
      invariant problems == [] <==> AllUsable(reports[..i])
    {
      AllUsableStep(reports, i);
      TalliedStep(reports, i);
      var tests, failures, errors, skipped, trouble := ReadReport(reports[i]);
      out := out.(reports := out.reports + 1, tests := out.tests + tests, failures := out.failures + failures,
                  errors := out.errors + errors, skipped := out.skipped + skipped);
      perReport := perReport + [tests - skipped];
      problems := problems + trouble;
    }
    assert reports[..|reports|] == reports;
    var least := Least(perReport);
    out := out.(executed := out.tests - out.skipped, minExecuted := least);
  }

  lemma Nothing()
    ensures AllUsable([]) && forall k :: Sum([], k) == 0
  {}

  lemma TalliedStep(reports: seq<Report>, i: nat)
    requires i < |reports|
    ensures forall k :: Sum(reports[..i + 1], k) == Sum(reports[..i], k) + Count(reports[i], k)
    ensures ExecutedOf(reports[..i + 1]) == ExecutedOf(reports[..i]) + [Executed(reports[i])]
  {
    assert reports[..i + 1][..i] == reports[..i];
  }

  /** One file; a file that is not XML counts nothing. */
  method ReadReport(report: Report)
    returns (tests: int, failures: int, errors: int, skipped: int, problems: seq<Trouble>)
    ensures tests == Count(report, Tests) && failures == Count(report, Failures)
    ensures errors == Count(report, Errors) && skipped == Count(report, Skipped)
    ensures problems == [] <==> Usable(report)
  {
    if report.Unparseable? { return 0, 0, 0, 0, [NotXml]; }
    problems := if report.suites == [] then [NoSuite] else [];
    tests, failures, errors, skipped := AddSuites(report.suites);
    if tests - skipped <= 0 { problems := problems + [NothingExecuted]; }
  }

  method AddSuites(suites: seq<Suite>) returns (tests: int, failures: int, errors: int, skipped: int)
    ensures tests == SuiteSum(suites, Tests) && failures == SuiteSum(suites, Failures)
    ensures errors == SuiteSum(suites, Errors) && skipped == SuiteSum(suites, Skipped)
  {
    tests, failures, errors, skipped := 0, 0, 0, 0;
    for i := 0 to |suites|
      invariant tests == SuiteSum(suites[..i], Tests) && failures == SuiteSum(suites[..i], Failures)
      invariant errors == SuiteSum(suites[..i], Errors) && skipped == SuiteSum(suites[..i], Skipped)
    {
      assert suites[..i + 1][..i] == suites[..i];
      var s := suites[i];
      tests, failures := tests + s.tests, failures + s.failures;
      errors, skipped := errors + s.errors, skipped + s.skipped;
    }
    assert suites[..|suites|] == suites;
  }

  ghost predicate Tallied(reports: seq<Report>, c: Counts) {
    && c.reports == |reports|
    && c.tests == Sum(reports, Tests) && c.failures == Sum(reports, Failures)
    && c.errors == Sum(reports, Errors) && c.skipped == Sum(reports, Skipped)
  }

  ghost predicate Reads(reports: seq<Report>, c: Counts) {
    && Tallied(reports, c)
    && c.executed == c.tests - c.skipped
    && IsLeast(ExecutedOf(reports), c.minExecuted)
  }

  lemma ReadsOnce(reports: seq<Report>, a: Counts, b: Counts)
    requires Reads(reports, a) && Reads(reports, b)
    ensures a == b
  {}

  // ----- The summary and the run's declared scope

  datatype Recovery = Recovery(mainRc: Option<int>, racesRc: Option<int>, mainReports: int, raceReports: int,
                               expectedMain: int, expectedRaces: int, counts: Counts, racesCounts: Counts,
                               xpassed: int, status: string)

  datatype Battery = Battery(rc: Option<int>, selected: int, missing: int, datasets: seq<string>,
                             inventoryDigest: string, restartCases: int,
                             privateCases: string, skipReason: string, status: string)

  datatype Summary = Summary(schema: string, kind: string, isCertification: bool, trust: string, refSha: string,
                             recovery: Recovery, battery: Battery, verdict: string)

  /** The directories of both phases; None for one that is missing. */
  datatype Junit = Junit(recovery: Option<seq<Report>>, races: Option<seq<Report>>)

  /** `sha` and `batteryDigest` are empty when not supplied. */
  datatype Scope = Scope(runBattery: bool, batteryCases: int, datasets: seq<string>, mainReports: int, raceReports: int,
                         sha: string, batteryDigest: string, junit: Option<Junit>,
                         minMainExecuted: int, minRaceExecuted: int, minRestartCases: int)

  predicate InRange(n: int) {
    0 <= n <= MAX_INT
  }

  predicate InRangeOrNone(n: Option<int>) {
    n.Some? ==> InRange(n.value)
  }

  predicate CountsInRange(c: Counts) {
    && InRange(c.reports) && InRange(c.tests) && InRange(c.failures) && InRange(c.errors)
    && InRange(c.skipped) && InRange(c.executed) && InRange(c.minExecuted)
  }

  predicate Hex(c: char) {
    '0' <= c <= '9' || 'a' <= c <= 'f'
  }

  /** What `^[0-9a-f]{40}$` matches: `$` also stands before a final newline. */
  predicate LooksLikeSha(s: string) {
    && (|s| == 40 || (|s| == 41 && s[40] == '\n'))
    && forall i :: 0 <= i < 40 ==> Hex(s[i])
  }

  predicate SuiteClean(c: Counts, floor: int) {
    c.executed >= floor && c.minExecuted > 0 && c.failures == 0 && c.errors == 0
  }

  // ----- What the check demands

  ghost predicate PhaseMatches(directory: Option<seq<Report>>, claimed: Counts, files: int) {
    && directory.Some?
    && AllUsable(directory.value)
    && |directory.value| == files
    && Reads(directory.value, claimed)
  }

  predicate CountsOk(r: Recovery, exp: Scope) {
    && SuiteClean(r.counts, exp.minMainExecuted)
    && SuiteClean(r.racesCounts, exp.minRaceExecuted * r.expectedRaces)
    && r.counts.minExecuted >= exp.minMainExecuted
    && r.racesCounts.minExecuted >= exp.minRaceExecuted
  }

  predicate RecoveryOk(r: Recovery, exp: Scope) {
    && r.mainRc == Some(0) && r.racesRc == Some(0)
    && r.mainReports == r.expectedMain && r.expectedMain > 0 && r.raceReports == r.expectedRaces && r.expectedRaces > 0
    && CountsOk(r, exp)
  }

  predicate NumbersInRange(r: Recovery) {
    && InRangeOrNone(r.mainRc) && InRangeOrNone(r.racesRc) && InRange(r.mainReports) && InRange(r.raceReports)
    && InRange(r.expectedMain) && InRange(r.expectedRaces) && CountsInRange(r.counts) && CountsInRange(r.racesCounts)
    && InRange(r.xpassed)
  }

  ghost predicate RecoveryCoherent(r: Recovery, exp: Scope) {
    && NumbersInRange(r)
    && r.xpassed == 0 && r.status in {"pass", "fail"}
    && r.expectedMain == exp.mainReports && r.expectedRaces == exp.raceReports
    && (exp.junit.Some? ==>
      && PhaseMatches(exp.junit.value.recovery, r.counts, r.expectedMain)
      && PhaseMatches(exp.junit.value.races, r.racesCounts, r.expectedRaces))
    && (r.status == "pass" <==> RecoveryOk(r, exp))
  }

  predicate BatteryOk(b: Battery, exp: Scope) {
    exp.runBattery ==> b.rc == Some(0)
  }

  predicate BatteryFieldsOk(b: Battery) {
    && InRangeOrNone(b.rc) && InRange(b.selected) && InRange(b.missing) && InRange(b.restartCases)
    && (forall d :: d in b.datasets ==> d in PUBLIC_SLUGS)
    && b.privateCases == "not-run" && b.status in {"pass", "fail", "skipped"}
  }

  ghost predicate BatteryCoherent(b: Battery, exp: Scope) {
    && BatteryFieldsOk(b)
    && (!exp.runBattery ==> b.rc.None? && b.status == "skipped" && b.skipReason in SKIP_REASONS)
    && (exp.runBattery ==>
      && b.rc.Some? && b.skipReason == "" && b.selected == exp.batteryCases
      && multiset(b.datasets) == multiset(exp.datasets) && b.missing == 0
      && exp.batteryDigest != "" && b.inventoryDigest == exp.batteryDigest
      && b.restartCases >= exp.minRestartCases
      && (b.status == "pass" <==> b.rc == Some(0)))
  }

  predicate IdentityOk(s: Summary, exp: Scope) {
    && s.schema == SCHEMA && s.kind == KIND && !s.isCertification && s.trust == TRUST
    && LooksLikeSha(s.refSha) && exp.sha != "" && s.refSha == exp.sha
  }

  function VerdictOf(s: Summary, exp: Scope): string {
    if RecoveryOk(s.recovery, exp) && BatteryOk(s.battery, exp) then PASS else FAIL
  }

  ghost predicate Coherent(s: Summary, exp: Scope) {
    && IdentityOk(s, exp)
    && RecoveryCoherent(s.recovery, exp)
    && BatteryCoherent(s.battery, exp)
    && s.verdict == VerdictOf(s, exp)
  }

  method CheckPhase(directory: Option<seq<Report>>, claimed: Counts, files: int) returns (ok: bool)
    ensures ok <==> PhaseMatches(directory, claimed, files)
  {
    var actual, problems := ReadReports(directory);
    if problems != [] { return false; }
    if actual.reports != files { return false; }
    if Reads(directory.value, claimed) { ReadsOnce(directory.value, actual, claimed); }
    return actual == claimed;
  }

  /** Whether the recovery phases passed; None when the record contradicts itself or the files. */
  method CheckRecovery(r: Recovery, exp: Scope) returns (ok: Option<bool>)
    ensures ok.Some? <==> RecoveryCoherent(r, exp)
    ensures ok.Some? ==> ok.value == RecoveryOk(r, exp)
  {
    if !NumbersInRange(r) { return None; }
    if r.xpassed != 0 || r.status !in {"pass", "fail"} { return None; }
    if r.expectedMain != exp.mainReports || r.expectedRaces != exp.raceReports { return None; }
    if exp.junit.Some? {
      var main := CheckPhase(exp.junit.value.recovery, r.counts, r.expectedMain);
      if !main { return None; }
      var races := CheckPhase(exp.junit.value.races, r.racesCounts, r.expectedRaces);
      if !races { return None; }
    }
    var recoveryOk := RecoveryOk(r, exp);
    if (r.status == "pass") != recoveryOk { return None; }
    return Some(recoveryOk);
  }

  method CheckBattery(b: Battery, exp: Scope) returns (ok: Option<bool>)
    ensures ok.Some? <==> BatteryCoherent(b, exp)
    ensures ok.Some? ==> ok.value == BatteryOk(b, exp)
  {
    if !BatteryFieldsOk(b) { return None; }
    if !exp.runBattery {
      if b.rc.Some? || b.status != "skipped" || b.skipReason !in SKIP_REASONS { return None; }
      return Some(true);
    }
    if b.rc.None? || b.skipReason != "" || b.selected != exp.batteryCases { return None; }
    StringOrder();
    SortCanonical(StringLeq, b.datasets, exp.datasets);
    if Sort(StringLeq, b.datasets) != Sort(StringLeq, exp.datasets) || b.missing != 0 { return None; }
    if exp.batteryDigest == "" || b.inventoryDigest != exp.batteryDigest { return None; }
    if b.restartCases < exp.minRestartCases { return None; }
    var batteryOk := b.rc == Some(0);
    if (b.status == "pass") != batteryOk { return None; }
    return Some(batteryOk);
  }

  /** The recomputed verdict; None stands for a refused summary. */
  method Check(s: Summary, exp: Scope) returns (verdict: Option<string>)
    ensures verdict.Some? <==> Coherent(s, exp)
    ensures verdict.Some? ==> verdict.value == s.verdict
  {
    if !IdentityOk(s, exp) { return None; }
    var recoveryOk := CheckRecovery(s.recovery, exp);
    if recoveryOk.None? { return None; }
    var batteryOk := CheckBattery(s.battery, exp);
    if batteryOk.None? { return None; }
    var expected := if recoveryOk.value && batteryOk.value then PASS else FAIL;
    if s.verdict != expected { return None; }
    return Some(expected);
  }

  // ----- What a pass means

  ghost predicate NoneOf(r: Report, k: Key) {
    r.Parsed? ==> forall s :: s in r.suites ==> s.Field(k) == 0
  }

  ghost predicate NoNegative(reports: seq<Report>, k: Key) {
    forall r :: r in reports && r.Parsed? ==> forall s :: s in r.suites ==> s.Field(k) >= 0
  }

  lemma {:induction false} SuiteSumZero(suites: seq<Suite>, k: Key)
    requires forall s :: s in suites ==> s.Field(k) >= 0
    ensures SuiteSum(suites, k) >= 0
    ensures SuiteSum(suites, k) == 0 <==> forall s :: s in suites ==> s.Field(k) == 0
  {
    if suites != [] {
      var last := |suites| - 1;
      assert suites == suites[..last] + [suites[last]];
      SuiteSumZero(suites[..last], k);
    }
  }

  lemma {:induction false} SumZero(reports: seq<Report>, k: Key)
    requires NoNegative(reports, k)
    ensures Sum(reports, k) >= 0
    ensures Sum(reports, k) == 0 <==> forall r :: r in reports ==> NoneOf(r, k)
  {
    if reports != [] {
      var last := |reports| - 1;
      assert reports == reports[..last] + [reports[last]];
      SumZero(reports[..last], k);
      assert reports[last] in reports;
      if reports[last].Parsed? { SuiteSumZero(reports[last].suites, k); }
      assert Count(reports[last], k) >= 0 && (Count(reports[last], k) == 0 <==> NoneOf(reports[last], k));
    }
  }

  function SumInts(values: seq<int>): int {
    if values == [] then 0 else SumInts(values[..|values| - 1]) + values[|values| - 1]
  }

  /** The phase's executed count is the sum over its files. */
  lemma {:induction false} ExecutedIsSum(reports: seq<Report>)
    ensures Sum(reports, Tests) - Sum(reports, Skipped) == SumInts(ExecutedOf(reports))
  {
    if reports != [] {
      var last := |reports| - 1;
      ExecutedIsSum(reports[..last]);
      assert ExecutedOf(reports)[..last] == ExecutedOf(reports[..last]);
    }
  }

  lemma {:induction false} FloorTimesFiles(values: seq<int>, floor: int)
    requires forall i :: 0 <= i < |values| ==> values[i] >= floor
    ensures SumInts(values) >= floor * |values|
  {
    if values != [] {
      var last := |values| - 1;
      FloorTimesFiles(values[..last], floor);
      assert floor * |values| == floor * last + floor;
    }
  }

  /** The floor on a phase's total follows from the floor on each file. */
  lemma PhaseFloorFollows(reports: seq<Report>, c: Counts, floor: int)
    requires Reads(reports, c) && c.minExecuted >= floor
    ensures c.executed >= floor * |reports|
  {
    ExecutedIsSum(reports);
    FloorTimesFiles(ExecutedOf(reports), floor);
  }

  /** The files hold what a pass claims: the pinned number of them, each at its floor, none with a
      failure or an error. */
  ghost predicate PhaseBacked(directory: Option<seq<Report>>, files: int, floor: int) {
    && directory.Some? && |directory.value| == files && files > 0
    && forall r :: r in directory.value ==>
      (Usable(r) && Executed(r) >= floor && NoneOf(r, Failures) && NoneOf(r, Errors))
  }

  /** No suite of the phase reports a negative number of failures or errors. */
  ghost predicate Signed(directory: Option<seq<Report>>) {
    directory.Some? ==> NoNegative(directory.value, Failures) && NoNegative(directory.value, Errors)
  }

  /** With matching counts that read as clean, the files back them exactly when none of their failures
      and errors is negative; the signs of the other counters do not matter. */
  lemma BackedExactly(reports: seq<Report>, c: Counts, files: int, floor: int)
    requires PhaseMatches(Some(reports), c, files) && files > 0
    requires c.failures == 0 && c.errors == 0 && c.minExecuted >= floor
    ensures PhaseBacked(Some(reports), files, floor) <==> Signed(Some(reports))
  {
    if Signed(Some(reports)) {
      SumZero(reports, Failures);
      SumZero(reports, Errors);
      forall r | r in reports ensures Executed(r) >= floor {
        var i :| 0 <= i < |reports| && reports[i] == r;
        assert ExecutedOf(reports)[i] == Executed(r);
        assert c.minExecuted <= ExecutedOf(reports)[i];
      }
    }
  }

  lemma CleanWhenBacked(reports: seq<Report>, c: Counts, files: int, floor: int)
    requires PhaseBacked(Some(reports), files, floor) && Reads(reports, c)
    ensures PhaseMatches(Some(reports), c, files)
    ensures c.failures == 0 && c.errors == 0 && c.minExecuted >= floor && c.minExecuted > 0
    ensures c.executed >= floor * files && c.executed >= files
  {
    SumZero(reports, Failures);
    SumZero(reports, Errors);
    var i :| 0 <= i < |reports| && ExecutedOf(reports)[i] == c.minExecuted;
    assert reports[i] in reports;
    PhaseFloorFollows(reports, c, floor);
    PhaseFloorFollows(reports, c, 1);
  }

  /** A PASS checked against the returned files is of the expected commit and battery. Each phase's
      files back it, whatever the summary says, exactly when none of that phase's suites reports a
      negative number of failures or errors. */
  lemma PassIsBacked(s: Summary, exp: Scope)
    requires Coherent(s, exp) && s.verdict == PASS && exp.junit.Some?
    ensures PhaseBacked(exp.junit.value.recovery, exp.mainReports, exp.minMainExecuted)
       <==> Signed(exp.junit.value.recovery)
    ensures PhaseBacked(exp.junit.value.races, exp.raceReports, exp.minRaceExecuted) <==> Signed(exp.junit.value.races)
    ensures s.refSha == exp.sha
    ensures exp.runBattery ==> s.battery.rc == Some(0) && s.battery.inventoryDigest == exp.batteryDigest
  {
    assert PASS[15] == 'P' && FAIL[15] == 'F';
    var j, r := exp.junit.value, s.recovery;
    BackedExactly(j.recovery.value, r.counts, r.expectedMain, exp.minMainExecuted);
    BackedExactly(j.races.value, r.racesCounts, r.expectedRaces, exp.minRaceExecuted);
  }

  /** Conversely, a record that reports the files it returned passes whenever the files back it: with
      both phases' return codes 0, the recovery part is coherent and passes. */
  lemma BackedRunPasses(r: Recovery, exp: Scope)
    requires exp.junit.Some?
    requires PhaseBacked(exp.junit.value.recovery, exp.mainReports, exp.minMainExecuted)
    requires PhaseBacked(exp.junit.value.races, exp.raceReports, exp.minRaceExecuted)
    requires Reads(exp.junit.value.recovery.value, r.counts) && Reads(exp.junit.value.races.value, r.racesCounts)
    requires NumbersInRange(r) && r.mainRc == Some(0) && r.racesRc == Some(0) && r.xpassed == 0 && r.status == "pass"
    requires r.mainReports == r.expectedMain == exp.mainReports && r.raceReports == r.expectedRaces == exp.raceReports
    ensures RecoveryCoherent(r, exp) && RecoveryOk(r, exp)
  {
    var j := exp.junit.value;
    CleanWhenBacked(j.recovery.value, r.counts, exp.mainReports, exp.minMainExecuted);
    CleanWhenBacked(j.races.value, r.racesCounts, exp.raceReports, exp.minRaceExecuted);
    FloorOnce(exp.minMainExecuted, exp.mainReports);
    hide Reads, PhaseBacked;
  }

  /** What the summary of a run with a requested battery says when all of the pinned battery was there. */
  ghost predicate WholeBattery(b: Battery, exp: Scope) {
    && b.selected == exp.batteryCases && b.missing == 0 && multiset(b.datasets) == multiset(exp.datasets)
    && exp.batteryDigest != "" && b.inventoryDigest == exp.batteryDigest && b.restartCases >= exp.minRestartCases
  }

  /** A battery that is short of a case, a dataset, a fixture or a restart, or is another one, is refused,
      whatever it claims; so is the absence of its result. */
  lemma ShortBatteryRefused(s: Summary, exp: Scope)
    requires exp.runBattery && (!WholeBattery(s.battery, exp) || s.battery.rc.None?)
    ensures !Coherent(s, exp)
  {}

  /** One file of a phase in which no test was executed, because it is no XML, has no suite, or skipped all
      its tests, has the whole summary refused. */
  lemma NothingExecutedRefused(s: Summary, exp: Scope, reports: seq<Report>, r: Report)
    requires exp.junit.Some? && r in reports
    requires exp.junit.value.recovery == Some(reports) || exp.junit.value.races == Some(reports)
    requires r.Parsed? ==> forall x :: x in r.suites ==> x.tests <= x.skipped
    ensures !Coherent(s, exp)
  {
    if r.Parsed? { AllSkipped(r.suites); }
    assert !Usable(r);
  }

  lemma {:induction false} AllSkipped(suites: seq<Suite>)
    requires forall x :: x in suites ==> x.tests <= x.skipped
    ensures SuiteSum(suites, Tests) <= SuiteSum(suites, Skipped)
  {
    if suites != [] { AllSkipped(suites[..|suites| - 1]); }
  }

  /** The identity of a summary for the commit of this run. */
  ghost predicate Identifies(s: Summary, exp: Scope) {
    && s.schema == SCHEMA && s.kind == KIND && !s.isCertification && s.trust == TRUST && s.refSha == exp.sha
    && |exp.sha| == 40 && forall i :: 0 <= i < 40 ==> exp.sha[i] in Text.HEX
  }

  function CountNumbers(c: Counts): seq<int> {
    [c.reports, c.tests, c.failures, c.errors, c.skipped, c.executed, c.minExecuted]
  }

  function CodeNumber(rc: Option<int>): seq<int> {
    match rc
    case Some(n) => [n]
    case None => []
  }

  /** All numbers that a summary states. */
  function Numbers(s: Summary): seq<int> {
    var r, b := s.recovery, s.battery;
    CodeNumber(r.mainRc) + CodeNumber(r.racesRc) + CodeNumber(b.rc)
    + [r.mainReports, r.raceReports, r.expectedMain, r.expectedRaces, r.xpassed, b.selected, b.missing, b.restartCases]
    + CountNumbers(r.counts) + CountNumbers(r.racesCounts)
  }

  ghost predicate NumbersFit(s: Summary) {
    forall n :: n in Numbers(s) ==> 0 <= n <= 1000000
  }

  lemma CountsFit(c: Counts)
    ensures CountsInRange(c) <==> forall n :: n in CountNumbers(c) ==> 0 <= n <= 1000000
  {
    var ns := CountNumbers(c);
    assert ns[0] in ns && ns[1] in ns && ns[2] in ns && ns[3] in ns && ns[4] in ns && ns[5] in ns && ns[6] in ns;
  }

  lemma CodesFit(rc: Option<int>)
    ensures InRangeOrNone(rc) <==> forall n :: n in CodeNumber(rc) ==> 0 <= n <= 1000000
  {
    if rc.Some? { assert CodeNumber(rc)[0] in CodeNumber(rc); }
  }

  lemma NumbersFitExactly(s: Summary)
    ensures var b := s.battery;
      NumbersFit(s) <==>
        && NumbersInRange(s.recovery)
        && InRangeOrNone(b.rc) && InRange(b.selected) && InRange(b.missing) && InRange(b.restartCases)
  {
    var r, b := s.recovery, s.battery;
    var own := [r.mainReports, r.raceReports, r.expectedMain, r.expectedRaces, r.xpassed, b.selected, b.missing,
                b.restartCases];
    CodesFit(r.mainRc);
    CodesFit(r.racesRc);
    CodesFit(b.rc);
    CountsFit(r.counts);
    CountsFit(r.racesCounts);
    hide CodeNumber, CountNumbers, CountsInRange;
    assert own[0] in own && own[1] in own && own[2] in own && own[3] in own && own[4] in own && own[5] in own;
    assert own[6] in own && own[7] in own;
    forall n
      ensures n in Numbers(s) <==>
        || n in CodeNumber(r.mainRc) || n in CodeNumber(r.racesRc) || n in CodeNumber(b.rc) || n in own
        || n in CountNumbers(r.counts) || n in CountNumbers(r.racesCounts) {}
  }

  /** What every accepted summary states, whatever its verdict. */
  lemma AcceptedForm(s: Summary, exp: Scope)
    requires Coherent(s, exp)
    ensures s.schema == "p022-public-battery/4" && s.kind == "public-recovery-and-public-fixture-battery"
    ensures !s.isCertification && s.trust == "reviewed-recipe-self-reported" && s.recovery.xpassed == 0
    ensures s.refSha == exp.sha && |exp.sha| >= 40 && forall i :: 0 <= i < 40 ==> exp.sha[i] in Text.HEX
    ensures |exp.sha| == 40 || exp.sha[40..] == "\n"
    ensures NumbersFit(s)
    ensures forall d :: d in s.battery.datasets ==> d == "vw" || d == "biodiversity"
    ensures s.battery.privateCases == "not-run"
    ensures if exp.runBattery then s.battery.status == "pass" <==> s.battery.rc == Some(0)
            else s.battery.status == "skipped"
    ensures s.recovery.status == "pass" || s.recovery.status == "fail"
  {
    NumbersFitExactly(s);
    Text.HexDigits();
    hide NumbersFit, NumbersInRange, PhaseMatches, RecoveryOk;
    assert "pass"[0] == 'p' && "fail"[0] == 'f' && "skipped"[0] == 's';
  }

  /** A battery record that is whole, or was not asked for. */
  ghost predicate ReportsBattery(b: Battery, exp: Scope) {
    && (forall d :: d in b.datasets ==> d == "vw" || d == "biodiversity") && b.privateCases == "not-run"
    && if exp.runBattery then
         && WholeBattery(b, exp) && b.rc.Some? && b.skipReason == ""
         && b.status == (if b.rc == Some(0) then "pass" else "fail")
       else b.rc.None? && b.status == "skipped" && b.skipReason == "not-run-in-this-job"
  }

  /** A clean run gets exactly the verdict it deserves: when both phases are backed by their files and the
      battery is whole, PASS is accepted if the battery returned 0 or was not asked for, and FAIL if it
      was and did not; the other verdict is refused. */
  lemma CleanRunVerdict(s: Summary, exp: Scope)
    requires Identifies(s, exp) && ReportsBattery(s.battery, exp) && NumbersFit(s) && exp.junit.Some?
    requires PhaseBacked(exp.junit.value.recovery, exp.mainReports, exp.minMainExecuted)
    requires PhaseBacked(exp.junit.value.races, exp.raceReports, exp.minRaceExecuted)
    requires var r := s.recovery;
      && Reads(exp.junit.value.recovery.value, r.counts) && Reads(exp.junit.value.races.value, r.racesCounts)
      && r.mainRc == Some(0) && r.racesRc == Some(0) && r.xpassed == 0 && r.status == "pass"
      && r.mainReports == r.expectedMain == exp.mainReports && r.raceReports == r.expectedRaces == exp.raceReports
    ensures Coherent(s, exp) <==> s.verdict == if exp.runBattery && s.battery.rc != Some(0) then FAIL else PASS
  {
    NumbersFitExactly(s);
    Text.HexDigits();
    BackedRunPasses(s.recovery, exp);
    hide NumbersFit, PhaseBacked, Reads, RecoveryCoherent, RecoveryOk, NumbersInRange;
    assert "pass"[0] == 'p' && "fail"[0] == 'f';
    assert PASS[15] == 'P' && FAIL[15] == 'F';
  }

  /** And a run that is not clean never passes: an accepted summary says FAIL exactly when a return code is
      not 0, or the counts miss a floor or hold a failure or an error. */
  lemma FailExactly(s: Summary, exp: Scope)
    requires Coherent(s, exp)
    ensures s.verdict == PASS || s.verdict == FAIL
    ensures var r := s.recovery; s.verdict == FAIL <==>
      || r.mainRc != Some(0) || r.racesRc != Some(0) || (exp.runBattery && s.battery.rc != Some(0))
      || r.mainReports != exp.mainReports || r.raceReports != exp.raceReports
      || exp.mainReports <= 0 || exp.raceReports <= 0
      || r.counts.failures != 0 || r.counts.errors != 0 || r.racesCounts.failures != 0 || r.racesCounts.errors != 0
      || r.counts.minExecuted <= 0 || r.racesCounts.minExecuted <= 0
      || r.counts.minExecuted < exp.minMainExecuted || r.racesCounts.minExecuted < exp.minRaceExecuted
      || r.counts.executed < exp.minMainExecuted || r.racesCounts.executed < exp.minRaceExecuted * exp.raceReports
  {
    assert PASS[15] == 'P' && FAIL[15] == 'F';
    hide PhaseMatches, BatteryCoherent, IdentityOk, NumbersInRange;
  }

  lemma FloorOnce(floor: int, files: int)
    requires files > 0
    ensures floor * files >= floor || files > floor
  {}

  lemma OneFile(suites: seq<Suite>, c: Counts)
    requires c.reports == 1 && forall k :: SuiteSum(suites, k) == c.Total(k)
    requires c.executed == c.minExecuted == c.tests - c.skipped > 0 && suites != []
    ensures PhaseMatches(Some([Parsed(suites)]), c, 1)
  {
    var reports := [Parsed(suites)];
    assert reports[..0] == [];
    assert ExecutedOf(reports) == [c.executed];
    forall k ensures Sum(reports, k) == c.Total(k) {}
  }

  /** The condition is needed: a summary that is accepted as a PASS although a file of the recovery
      phase has a failure, which a negative count of another suite hides. */
  lemma NegativeCountersHideFailures() returns (s: Summary, exp: Scope)
    ensures Coherent(s, exp) && s.verdict == PASS && exp.junit.Some?
    ensures !PhaseBacked(exp.junit.value.recovery, exp.mainReports, exp.minMainExecuted)
  {
    var bad, odd, fine := Suite(200, 1, 0, 0), Suite(0, -1, 0, 0), Suite(20, 0, 0, 0);
    var main, races := [bad, odd], [fine];
    var counts, racesCounts := Counts(1, 200, 0, 0, 0, 200, 200), Counts(1, 20, 0, 0, 0, 20, 20);
    var sha := seq(40, _ => '0');
    var junit := Junit(Some([Parsed(main)]), Some([Parsed(races)]));
    exp := Scope(false, 6, [], 1, 1, sha, "", Some(junit), 100, 10, 1);
    s := Summary(SCHEMA, KIND, false, TRUST, sha,
                 Recovery(Some(0), Some(0), 1, 1, 1, 1, counts, racesCounts, 0, "pass"),
                 Battery(None, 0, 0, [], "", 0, "not-run", "not-run-in-this-job", "skipped"), PASS);
    assert main[..1] == [bad] && [bad][..0] == [] && races[..0] == [];
    forall k ensures SuiteSum(main, k) == counts.Total(k) {
      assert SuiteSum([bad], k) == bad.Field(k);
    }
    OneFile(main, counts);
    OneFile(races, racesCounts);
    assert bad in main && bad.Field(Failures) == 1;
    assert !NoneOf(Parsed(main), Failures) && Parsed(main) in junit.recovery.value;
  }
}
