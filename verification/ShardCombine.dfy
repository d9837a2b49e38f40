/** The auditor of the Cypress shards: ci/local/e2e_shards.py, `counts_of` and `cmd_combine`.

    A shard label "i/n" is the pair of its numbers; sorted label lists are equal exactly when
    the labels are equal as multisets. */
module ShardCombine {
  import opened Wrappers
  import opened Ordering
  import opened Counters
  import opened ShardPlan
  import Text

  datatype CountKey = Tests | Passed | Failed | Pending | Skipped | Retried

  datatype Record = Record(spec: string, counts: Counter<CountKey>)

  /** One shard's results; `runs` is None when there is no results.json or Cypress could not run. */
  datatype RunDir = RunDir(manifest: Manifest, runs: Option<seq<Record>>)

  datatype Problem =
    | DifferentSpecs(shard: nat)
    | SelectedTwice(spec: string)
    | RanUnselected(spec: string)
    | DidNotRun(spec: string)
    | RanTwice(spec: string)
    | NoTests(spec: string)
    | CountDisagrees
    | WrongShards
    | NotSelected(spec: string)
    | FailedTests(n: int)

  /** `parts[2]` of the path's parts when there are more than three, as in cypress/e2e/<suite>/<file>. */
  function SuiteOf(spec: string): string {
    var parts := PathParts(Text.Split(spec, '/'));
    if |parts| > 3 then parts[2] else "(top level)"
  }

  /** The parts of a relative path: empty and "." components are dropped. */
  function PathParts(parts: seq<string>): seq<string> {
    if parts == [] then []
    else (if parts[0] in {"", "."} then [] else [parts[0]]) + PathParts(parts[1..])
  }

  lemma {:induction false} NamedParts(parts: seq<string>)
    requires forall p :: p in parts ==> p != "" && p != "."
    ensures PathParts(parts) == parts
  {
    if parts != [] {
      assert parts == [parts[0]] + parts[1..] && parts[0] in parts;
      forall p | p in parts[1..] ensures p in parts {}
      NamedParts(parts[1..]);
    }
  }

  /** The suite of a path is its third part when there is a fourth, as in cypress/e2e/<suite>/<file>. */
  lemma SuiteOfPath(parts: seq<string>)
    requires parts != [] && forall p :: p in parts ==> p != "" && p != "." && '/' !in p
    ensures SuiteOf(Text.Join(parts, "/")) == if |parts| >= 4 then parts[2] else "(top level)"
  {
    Text.SplitJoin(parts, '/');
    NamedParts(parts);
  }

  /** A leading "./" or a doubled '/' does not count. */
  lemma SuiteOfSamePath(spec: string)
    ensures SuiteOf("./" + spec) == SuiteOf(spec) && SuiteOf("/" + spec) == SuiteOf(spec)
  {
    assert ("/" + spec)[1..] == spec && ("./" + spec)[1..] == "/" + spec;
    assert Text.Split("/" + spec, '/') == [[]] + Text.Split(spec, '/');
    assert ([[]] + Text.Split(spec, '/'))[1..] == Text.Split(spec, '/');
    var rest := Text.Split("/" + spec, '/');
    assert rest[0] == [] && rest[1..] == Text.Split(spec, '/') && ['.'] + rest[0] == ".";
    assert Text.Split("./" + spec, '/') == ["."] + rest[1..];
    assert (["."] + Text.Split(spec, '/'))[1..] == Text.Split(spec, '/');
  }

  // ----- What combine accumulates

  function Specs(records: seq<Record>): (r: seq<string>)
    ensures |r| == |records| && forall i :: 0 <= i < |r| ==> r[i] == records[i].spec
  {
    seq(|records|, i requires 0 <= i < |records| => records[i].spec)
  }

  /** Plain sum of one count. */
  function Sum(records: seq<Record>, k: CountKey): int {
    if records == [] then 0 else Sum(records[..|records| - 1], k) + Get(records[|records| - 1].counts, k)
  }

  /** Sum of one count over the records of one suite. */
  function SuiteSum(records: seq<Record>, suite: string, k: CountKey): int {
    if records == [] then 0
    else
      var r := records[|records| - 1];
      SuiteSum(records[..|records| - 1], suite, k) + if SuiteOf(r.spec) == suite then Get(r.counts, k) else 0
  }

  function AllSelected(dirs: seq<RunDir>): seq<string> {
    if dirs == [] then [] else AllSelected(dirs[..|dirs| - 1]) + dirs[|dirs| - 1].manifest.selected
  }

  function Runs(d: RunDir): seq<Record> {
    match d.runs
    case Some(records) => records
    case None => []
  }

  function AllRecords(dirs: seq<RunDir>): seq<Record> {
    if dirs == [] then [] else AllRecords(dirs[..|dirs| - 1]) + Runs(dirs[|dirs| - 1])
  }

  /** The running total of `total += c` over the directories. */
  function KeptTotal(dirs: seq<RunDir>, k: CountKey): int {
    if dirs == [] then 0 else Positive(KeptTotal(dirs[..|dirs| - 1], k) + Sum(Runs(dirs[|dirs| - 1]), k))
  }

  // ----- What combine checks

  /** The directory ran exactly what it selected, each spec once and with at least one test. */
  ghost predicate RanItsSelection(d: RunDir) {
    && d.runs.Some?
    && NoDuplicates(Specs(d.runs.value))
    && (forall s :: s in Specs(d.runs.value) <==> s in d.manifest.selected)
    && forall r :: r in d.runs.value ==> Get(r.counts, Tests) != 0
  }

  /** The labels are 1/n to n/n, each once. */
  ghost predicate LabelsComplete(dirs: seq<RunDir>) {
    && (forall d :: d in dirs ==> d.manifest.count == |dirs|)
    && multiset(Shards(dirs)) == multiset(Upto(|dirs|))
  }

  function Shards(dirs: seq<RunDir>): (r: seq<nat>)
    ensures |r| == |dirs|
  {
    seq(|dirs|, i requires 0 <= i < |dirs| => dirs[i].manifest.shard)
  }

  /** 1 to n. */
  function Upto(n: nat): (r: seq<nat>)
    ensures |r| == n
  {
    seq(n, i => i + 1)
  }

  /** What an accepted set of result directories is. */
  ghost predicate Clean(dirs: seq<RunDir>) {
    && dirs != []
    && (forall d :: d in dirs ==> RanItsSelection(d))
    && (forall d :: d in dirs ==> d.manifest.specs == dirs[0].manifest.specs)
    && NoDuplicates(AllSelected(dirs))
    && LabelsComplete(dirs)
    && (forall s :: s in dirs[0].manifest.specs ==> s in AllSelected(dirs))
    && KeptTotal(dirs, Failed) == 0
  }

  // ----- The checks of one directory

  function Missing(names: seq<string>, present: set<string>): (r: seq<string>)
    ensures r == [] <==> forall s :: s in names ==> s in present
  {
    if names == [] then []
    else
      assert names == [names[0]] + names[1..];
      (if names[0] in present then [] else [names[0]]) + Missing(names[1..], present)
  }

  function Repeated(names: seq<string>): (r: seq<string>)
    ensures r == [] <==> NoDuplicates(names)
  {
    if names == [] then []
    else
      assert names == [names[0]] + names[1..];
      RepeatedStep(names);
      (if names[0] in names[1..] then [names[0]] else []) + Repeated(names[1..])
  }

  lemma RepeatedStep(names: seq<string>)
    requires names != []
    ensures NoDuplicates(names) <==> names[0] !in names[1..] && NoDuplicates(names[1..])
  {
    var x, rest := names[0], names[1..];
    assert names == [x] + rest;
    if NoDuplicates(names) { NoDuplicatesSplit(names, 0); }
    if x !in rest && NoDuplicates(rest) {
      forall y ensures multiset(names)[y] <= 1 {
        assert multiset(rest)[y] <= 1;
        if y == x { assert x !in multiset(rest); }
      }
    }
  }

  method CheckRan(d: RunDir, records: seq<Record>) returns (problems: seq<Problem>)
    requires d.runs == Some(records)
    ensures problems == [] <==> RanItsSelection(d)
  {
    var ran := Specs(records);
    problems := [];
    var chosen, done := set s | s in d.manifest.selected, set s | s in ran;
    var strays, unrun, twice := Missing(ran, chosen), Missing(d.manifest.selected, done), Repeated(ran);
    problems := problems + seq(|strays|, i requires 0 <= i < |strays| => RanUnselected(strays[i]));
    problems := problems + seq(|unrun|, i requires 0 <= i < |unrun| => DidNotRun(unrun[i]));
    problems := problems + seq(|twice|, i requires 0 <= i < |twice| => RanTwice(twice[i]));
    for i := 0 to |records|
      invariant problems == [] <==> (strays == [] && unrun == [] && twice == [] &&
        forall r :: r in records[..i] ==> Get(r.counts, Tests) != 0)
    {
      assert records[..i + 1] == records[..i] + [records[i]];
      if Get(records[i].counts, Tests) == 0 { problems := problems + [NoTests(records[i].spec)]; }
    }
    assert records[..|records|] == records;
  }

  /** Adds one directory's selection to `owner`, reporting every spec that already has one. */
  method TakeSelection(owner: map<string, nat>, m: Manifest, ghost before: seq<string>)
    returns (owner': map<string, nat>, problems: seq<Problem>)
    requires forall s :: s in owner <==> s in before
    ensures forall s :: s in owner' <==> s in before + m.selected
    ensures NoDuplicates(before) ==> (problems == [] <==> NoDuplicates(before + m.selected))
    ensures !NoDuplicates(before) ==> !NoDuplicates(before + m.selected)
  {
    owner', problems := owner, [];
    assert before + m.selected[..0] == before;
    for i := 0 to |m.selected|
      invariant forall s :: s in owner' <==> s in before + m.selected[..i]
      invariant NoDuplicates(before) ==> (problems == [] <==> NoDuplicates(before + m.selected[..i]))
      invariant !NoDuplicates(before) ==> !NoDuplicates(before + m.selected[..i])
    {
      var s := m.selected[i];
      assert before + m.selected[..i + 1] == before + m.selected[..i] + [s];
      AppendOne(before + m.selected[..i], s);
      if s in owner' { problems := problems + [SelectedTwice(s)]; }
      owner' := owner'[s := m.shard];
    }
    assert m.selected[..|m.selected|] == m.selected;
  }

  function SuiteCount(suites: map<string, Counter<CountKey>>, suite: string, k: CountKey): int {
    if suite in suites then Get(suites[suite], k) else 0
  }

  method TakeCounts(suites: map<string, Counter<CountKey>>, records: seq<Record>)
    returns (suites': map<string, Counter<CountKey>>, c: Counter<CountKey>)
    ensures forall k :: Get(c, k) == Sum(records, k)
    ensures forall s, k :: SuiteCount(suites', s, k) == SuiteCount(suites, s, k) + SuiteSum(records, s, k)
  {
    suites', c := suites, map[];
    for i := 0 to |records|
      invariant forall k :: Get(c, k) == Sum(records[..i], k)
      invariant forall s, k :: SuiteCount(suites', s, k) == SuiteCount(suites, s, k) + SuiteSum(records[..i], s, k)
    {
      assert records[..i + 1][..i] == records[..i];
      var r := records[i];
      var suite := SuiteOf(r.spec);
      suites' := suites'[suite := Add(if suite in suites' then suites'[suite] else map[], r.counts)];
      c := Add(c, r.counts);
    }
    assert records[..|records|] == records;
  }

  // ----- combine

  ghost predicate DirsClean(dirs: seq<RunDir>, n: nat)
    requires n <= |dirs|
  {
    && (forall d :: d in dirs[..n] ==> RanItsSelection(d) && d.manifest.specs == dirs[0].manifest.specs)
    && NoDuplicates(AllSelected(dirs[..n]))
  }

  /** The accumulators after the first `n` directories. */
  datatype Audit = Audit(owner: map<string, nat>, total: Counter<CountKey>,
                         suites: map<string, Counter<CountKey>>, problems: seq<Problem>)

  ghost predicate Accumulated(dirs: seq<RunDir>, n: nat, a: Audit)
    requires n <= |dirs|
  {
    && (forall s :: s in a.owner <==> s in AllSelected(dirs[..n]))
    && (forall k :: Get(a.total, k) == KeptTotal(dirs[..n], k))
    && (forall s, k :: SuiteCount(a.suites, s, k) == SuiteSum(AllRecords(dirs[..n]), s, k))
    && (a.problems == [] <==> DirsClean(dirs, n))
  }

  method TakeDir(dirs: seq<RunDir>, i: nat, a: Audit) returns (b: Audit)
    requires i < |dirs| && dirs[i].runs.Some? && Accumulated(dirs, i, a)
    ensures Accumulated(dirs, i + 1, b)
  {
    hide RanItsSelection, Sum, SuiteSum, NoDuplicates;
    var d := dirs[i];
    DirsStep(dirs, i);
    DirsCleanStep(dirs, i);
    var different := if d.manifest.specs != dirs[0].manifest.specs then [DifferentSpecs(d.manifest.shard)] else [];
    var owner, stolen := TakeSelection(a.owner, d.manifest, AllSelected(dirs[..i]));
    var ran := CheckRan(d, d.runs.value);
    var suites, c := TakeCounts(a.suites, d.runs.value);
    forall s, k ensures SuiteCount(suites, s, k) == SuiteSum(AllRecords(dirs[..i + 1]), s, k) {
      SuiteSumConcat(AllRecords(dirs[..i]), d.runs.value, s, k);
    }
    b := Audit(owner, AddKeepPositive(a.total, c), suites, a.problems + different + stolen + ran);
  }

  lemma {:induction false} SuiteSumConcat(a: seq<Record>, b: seq<Record>, s: string, k: CountKey)
    ensures SuiteSum(a + b, s, k) == SuiteSum(a, s, k) + SuiteSum(b, s, k)
  {
    if b == [] {
      assert a + b == a;
    } else {
      assert (a + b)[..|a + b| - 1] == a + b[..|b| - 1];
      SuiteSumConcat(a, b[..|b| - 1], s, k);
    }
  }

  lemma DirsStep(dirs: seq<RunDir>, i: nat)
    requires i < |dirs|
    ensures AllSelected(dirs[..i + 1]) == AllSelected(dirs[..i]) + dirs[i].manifest.selected
    ensures AllRecords(dirs[..i + 1]) == AllRecords(dirs[..i]) + Runs(dirs[i])
    ensures forall k :: KeptTotal(dirs[..i + 1], k) == Positive(KeptTotal(dirs[..i], k) + Sum(Runs(dirs[i]), k))
  {
    assert dirs[..i + 1][..i] == dirs[..i];
  }

  lemma DirsCleanStep(dirs: seq<RunDir>, i: nat)
    requires i < |dirs|
    ensures DirsClean(dirs, i + 1) <==> (
      && DirsClean(dirs, i)
      && RanItsSelection(dirs[i]) && dirs[i].manifest.specs == dirs[0].manifest.specs
      && NoDuplicates(AllSelected(dirs[..i]) + dirs[i].manifest.selected))
  {
    hide RanItsSelection, NoDuplicates;
    DirsStep(dirs, i);
    assert dirs[..i + 1] == dirs[..i] + [dirs[i]];
    if DirsClean(dirs, i + 1) {
      NoDuplicatesPrefix(AllSelected(dirs[..i]), dirs[i].manifest.selected);
    }
  }

  /** Exit code, and the totals and per-suite counts it writes. A directory that cannot be
      read ends the command with code 1. */
  method CmdCombine(dirs: seq<RunDir>) returns (code: nat, a: Audit)
    ensures code == 0 <==> Clean(dirs)
    ensures code != 0 ==> code == 1
    ensures code == 0 ==> a.problems == [] && Accumulated(dirs, |dirs|, a)
  {
    hide Accumulated;
    a := Audit(map[], map[], map[], []);
    Nothing(dirs);
    for i := 0 to |dirs|
      invariant Accumulated(dirs, i, a)
      invariant forall d :: d in dirs[..i] ==> d.runs.Some?
    {
      if dirs[i].runs.None? {
        assert dirs[i] in dirs && !RanItsSelection(dirs[i]);
        return 1, a;
      }
      a := TakeDir(dirs, i, a);
    }
    code, a := Conclude(dirs, a);
  }

  lemma Nothing(dirs: seq<RunDir>)
    ensures Accumulated(dirs, 0, Audit(map[], map[], map[], []))
  {}

  /** The checks made after the last directory. */
  method Conclude(dirs: seq<RunDir>, a: Audit) returns (code: nat, b: Audit)
    requires Accumulated(dirs, |dirs|, a)
    ensures code == if Clean(dirs) then 0 else 1
    ensures code == 0 ==> b == a && b.problems == []
  {
    hide RanItsSelection, NoDuplicates, LabelsComplete, AllSelected, KeptTotal, SuiteSum, AllRecords;
    assert dirs[..|dirs|] == dirs;
    var problems := a.problems;
    var labels := CheckLabels(dirs);
    var missing := if dirs == [] then [] else Missing(dirs[0].manifest.specs, a.owner.Keys);
    problems := problems + labels + seq(|missing|, i requires 0 <= i < |missing| => NotSelected(missing[i]));
    if Get(a.total, Failed) != 0 { problems := problems + [FailedTests(Get(a.total, Failed))]; }
    b := a.(problems := problems);
    code := if problems == [] then 0 else 1;
  }

  /** The shard counts the labels name. */
  function Totals(dirs: seq<RunDir>): set<nat> {
    set d | d in dirs :: d.manifest.count
  }

  lemma OneTotal(dirs: seq<RunDir>)
    ensures dirs != [] && LabelsComplete(dirs) ==> Totals(dirs) == {|dirs|}
  {
    if dirs != [] && LabelsComplete(dirs) {
      assert dirs[0] in dirs;
      assert |dirs| in Totals(dirs);
    }
  }

  method CheckLabels(dirs: seq<RunDir>) returns (problems: seq<Problem>)
    ensures problems == [] <==> dirs != [] && LabelsComplete(dirs)
  {
    var totals := Totals(dirs);
    OneTotal(dirs);
    if |totals| != 1 { return [CountDisagrees]; }
    var n :| n in totals;
    forall d | d in dirs ensures d.manifest.count == n {
      if d.manifest.count != n {
        assert {n, d.manifest.count} <= totals;
        SubsetSize({n, d.manifest.count}, totals);
      }
    }
    if multiset(Shards(dirs)) == multiset(Upto(n)) { SameLength(Shards(dirs), Upto(n)); }
    problems := if multiset(Shards(dirs)) == multiset(Upto(n)) then [] else [WrongShards];
  }

  lemma SubsetSize<T>(a: set<T>, b: set<T>)
    requires a <= b
    ensures |a| <= |b|
  {
    if a != {} {
      var x :| x in a;
      SubsetSize(a - {x}, b - {x});
    }
  }

  // ----- What acceptance means

  ghost predicate NonNegative(records: seq<Record>, k: CountKey) {
    forall r :: r in records ==> Get(r.counts, k) >= 0
  }

  lemma {:induction false} SumConcat(a: seq<Record>, b: seq<Record>, k: CountKey)
    ensures Sum(a + b, k) == Sum(a, k) + Sum(b, k)
  {
    if b == [] {
      assert a + b == a;
    } else {
      assert (a + b)[..|a + b| - 1] == a + b[..|b| - 1];
      SumConcat(a, b[..|b| - 1], k);
    }
  }

  lemma {:induction false} SumNonNegative(records: seq<Record>, k: CountKey)
    requires NonNegative(records, k)
    ensures Sum(records, k) >= 0
    ensures Sum(records, k) == 0 ==> forall r :: r in records ==> Get(r.counts, k) == 0
  {
    if records != [] {
      var last := |records| - 1;
      assert records == records[..last] + [records[last]];
      SumNonNegative(records[..last], k);
    }
  }

  /** One count's sum over the first `n` directories. */
  function RunningSum(dirs: seq<RunDir>, n: nat, k: CountKey): int
    requires n <= |dirs|
  {
    Sum(AllRecords(dirs[..n]), k)
  }

  /** `x` is the least running sum, the empty one included. */
  ghost predicate IsLeast(dirs: seq<RunDir>, k: CountKey, x: int) {
    && (exists n: nat :: n <= |dirs| && x == RunningSum(dirs, n, k))
    && (forall n: nat :: n <= |dirs| ==> x <= RunningSum(dirs, n, k))
  }

  lemma RunningPrefix(dirs: seq<RunDir>, m: nat, n: nat, k: CountKey)
    requires n <= m <= |dirs|
    ensures RunningSum(dirs[..m], n, k) == RunningSum(dirs, n, k)
  {
    assert dirs[..m][..n] == dirs[..n];
  }

  lemma RunningStep(dirs: seq<RunDir>, n: nat, k: CountKey)
    requires n < |dirs|
    ensures RunningSum(dirs, n + 1, k) == RunningSum(dirs, n, k) + Sum(Runs(dirs[n]), k)
  {
    DirsStep(dirs, n);
    SumConcat(AllRecords(dirs[..n]), Runs(dirs[n]), k);
  }

  /** Adding Counters with `+=` starts anew from 0 wherever the sum is at its least so far: what is
      kept is what the whole sum exceeds the least running sum by. */
  lemma {:induction false} KeptExceedsLeast(dirs: seq<RunDir>, k: CountKey) returns (least: int)
    ensures IsLeast(dirs, k, least) && KeptTotal(dirs, k) == Sum(AllRecords(dirs), k) - least
  {
    hide Sum, AllRecords;
    assert dirs[..|dirs|] == dirs;
    if dirs == [] {
      least := RunningSum(dirs, 0, k);
    } else {
      var last := |dirs| - 1;
      var before := KeptExceedsLeast(dirs[..last], k);
      var whole := RunningSum(dirs, |dirs|, k);
      RunningStep(dirs, last, k);
      forall n: nat | n <= last ensures RunningSum(dirs[..last], n, k) == RunningSum(dirs, n, k) {
        RunningPrefix(dirs, last, n, k);
      }
      least := if before <= whole then before else whole;
    }
  }

  /** No running sum over the directories is negative. */
  ghost predicate NeverNegative(dirs: seq<RunDir>, k: CountKey) {
    forall n: nat :: n <= |dirs| ==> RunningSum(dirs, n, k) >= 0
  }

  lemma NothingRead(dirs: seq<RunDir>, k: CountKey)
    ensures RunningSum(dirs, 0, k) == 0
  {
    assert dirs[..0] == [];
  }

  /** `+=` loses nothing exactly when no running sum is negative. */
  lemma KeptTotalIsSum(dirs: seq<RunDir>, k: CountKey)
    ensures KeptTotal(dirs, k) == Sum(AllRecords(dirs), k) <==> NeverNegative(dirs, k)
  {
    var least := KeptExceedsLeast(dirs, k);
    NothingRead(dirs, k);
  }

  /** The running sum ends where it is least. */
  ghost predicate EndsLeast(dirs: seq<RunDir>, k: CountKey) {
    IsLeast(dirs, k, Sum(AllRecords(dirs), k))
  }

  lemma KeptNothing(dirs: seq<RunDir>, k: CountKey)
    ensures KeptTotal(dirs, k) == 0 <==> EndsLeast(dirs, k)
  {
    var least := KeptExceedsLeast(dirs, k);
    assert dirs[..|dirs|] == dirs;
    assert RunningSum(dirs, |dirs|, k) == Sum(AllRecords(dirs), k);
  }

  lemma {:induction false} RecordsOfPrefix(dirs: seq<RunDir>, n: nat, r: Record)
    requires n <= |dirs| && r in AllRecords(dirs[..n])
    ensures r in AllRecords(dirs)
    decreases |dirs| - n
  {
    if n < |dirs| {
      DirsStep(dirs, n);
      RecordsOfPrefix(dirs, n + 1, r);
    } else {
      assert dirs[..n] == dirs;
    }
  }

  lemma RecordsNeverNegative(dirs: seq<RunDir>, k: CountKey)
    requires NonNegative(AllRecords(dirs), k)
    ensures NeverNegative(dirs, k)
  {
    forall n: nat | n <= |dirs| ensures RunningSum(dirs, n, k) >= 0 {
      forall r | r in AllRecords(dirs[..n]) ensures Get(r.counts, k) >= 0 { RecordsOfPrefix(dirs, n, r); }
      SumNonNegative(AllRecords(dirs[..n]), k);
    }
  }

  lemma SpecsConcat(a: seq<Record>, b: seq<Record>)
    ensures Specs(a + b) == Specs(a) + Specs(b)
  {}

  /** What ran, over all directories, is what was selected. */
  lemma {:induction false} RanIsSelected(dirs: seq<RunDir>)
    requires forall d :: d in dirs ==> RanItsSelection(d)
    requires NoDuplicates(AllSelected(dirs))
    ensures multiset(Specs(AllRecords(dirs))) == multiset(AllSelected(dirs))
    ensures forall r :: r in AllRecords(dirs) ==> Get(r.counts, Tests) != 0
  {
    if dirs != [] {
      var last := |dirs| - 1;
      var d := dirs[last];
      assert dirs == dirs[..last] + [d];
      assert d in dirs && RanItsSelection(d);
      NoDuplicatesPrefix(AllSelected(dirs[..last]), d.manifest.selected);
      RanIsSelected(dirs[..last]);
      SameSets(Specs(d.runs.value), d.manifest.selected);
      SpecsConcat(AllRecords(dirs[..last]), d.runs.value);
    }
  }

  /** Exit code 0 means: shards 1 to n reported, each once, and every listed spec ran exactly once,
      with a count of tests that is not 0. It means that no test failed exactly when no record reports
      a negative number of failed tests. */
  lemma CombineIsSound(dirs: seq<RunDir>)
    requires Clean(dirs)
    ensures forall i :: 1 <= i <= |dirs| ==> multiset(Shards(dirs))[i] == 1
    ensures forall s :: s in dirs[0].manifest.specs ==> multiset(Specs(AllRecords(dirs)))[s] == 1
    ensures forall r :: r in AllRecords(dirs) ==> Get(r.counts, Tests) != 0
    ensures (forall r :: r in AllRecords(dirs) ==> Get(r.counts, Failed) == 0)
       <==> NonNegative(AllRecords(dirs), Failed)
  {
    RanIsSelected(dirs);
    forall s | s in dirs[0].manifest.specs ensures multiset(Specs(AllRecords(dirs)))[s] == 1 {
      assert s in multiset(AllSelected(dirs));
    }
    if NonNegative(AllRecords(dirs), Failed) {
      RecordsNeverNegative(dirs, Failed);
      KeptTotalIsSum(dirs, Failed);
      SumNonNegative(AllRecords(dirs), Failed);
    }
    forall i | 1 <= i <= |dirs| ensures multiset(Shards(dirs))[i] == 1 { UptoOnce(|dirs|, i); }
  }

  lemma {:induction false} UptoOnce(n: nat, i: nat)
    ensures multiset(Upto(n))[i] == if 1 <= i <= n then 1 else 0
  {
    if n > 0 {
      UptoOnce(n - 1, i);
      assert Upto(n) == Upto(n - 1) + [n];
    }
  }

  /** Sum of one count over a list of suites. */
  function SumSuites(records: seq<Record>, names: seq<string>, k: CountKey): int {
    if names == [] then 0 else SuiteSum(records, names[0], k) + SumSuites(records, names[1..], k)
  }

  lemma {:induction false} SumSuitesStep(records: seq<Record>, names: seq<string>, k: CountKey)
    requires records != [] && NoDuplicates(names)
    ensures var r := records[|records| - 1];
      SumSuites(records, names, k) == SumSuites(records[..|records| - 1], names, k)
        + if SuiteOf(r.spec) in names then Get(r.counts, k) else 0
  {
    if names != [] {
      NoDuplicatesSplit(names, 0);
      SumSuitesStep(records, names[1..], k);
    }
  }

  lemma {:induction false} SumSuitesEmpty(names: seq<string>, k: CountKey)
    ensures SumSuites([], names, k) == 0
  {
    if names != [] { SumSuitesEmpty(names[1..], k); }
  }

  lemma {:induction false} SuitesCarrySum(records: seq<Record>, names: seq<string>, k: CountKey)
    requires NoDuplicates(names) && forall r :: r in records ==> SuiteOf(r.spec) in names
    ensures SumSuites(records, names, k) == Sum(records, k)
  {
    if records == [] {
      SumSuitesEmpty(names, k);
    } else {
      SuitesCarrySum(records[..|records| - 1], names, k);
      SumSuitesStep(records, names, k);
    }
  }

  /** The per-suite counts add up to the total exactly when no running sum of the count is negative. */
  lemma SuitesCarryTotal(dirs: seq<RunDir>, names: seq<string>, k: CountKey)
    requires NoDuplicates(names) && forall r :: r in AllRecords(dirs) ==> SuiteOf(r.spec) in names
    ensures SumSuites(AllRecords(dirs), names, k) == KeptTotal(dirs, k) <==> NeverNegative(dirs, k)
  {
    SuitesCarrySum(AllRecords(dirs), names, k);
    KeptTotalIsSum(dirs, k);
  }

  /** The module's promise is that the selections partition the spec list. Combine checks that no
      spec is missed or shared, but never that a selected name is on the list: an accepted set of
      directories partitions the list exactly when every selected name is listed. */
  lemma PartitionExactlyWhenListed(dirs: seq<RunDir>)
    requires Clean(dirs) && NoDuplicates(dirs[0].manifest.specs)
    ensures multiset(AllSelected(dirs)) == multiset(dirs[0].manifest.specs)
       <==> forall d :: d in dirs ==> forall s :: s in d.manifest.selected ==> s in d.manifest.specs
  {
    var specs := dirs[0].manifest.specs;
    if multiset(AllSelected(dirs)) == multiset(specs) {
      forall d, s | d in dirs && s in d.manifest.selected ensures s in d.manifest.specs {
        SelectedInAll(dirs, d, s);
        SameMember(AllSelected(dirs), specs, s);
      }
    }
    if forall d :: d in dirs ==> forall s :: s in d.manifest.selected ==> s in d.manifest.specs {
      forall s | s in AllSelected(dirs) ensures s in specs {
        var d := AllHasDir(dirs, s);
      }
      SameSets(AllSelected(dirs), specs);
    }
  }

  lemma {:induction false} SelectedInAll(dirs: seq<RunDir>, d: RunDir, s: string)
    requires d in dirs && s in d.manifest.selected
    ensures s in AllSelected(dirs)
  {
    var last := |dirs| - 1;
    if dirs[last] != d { SelectedInAll(dirs[..last], d, s); }
  }

  lemma {:induction false} AllHasDir(dirs: seq<RunDir>, s: string) returns (d: RunDir)
    requires s in AllSelected(dirs)
    ensures d in dirs && s in d.manifest.selected
  {
    var last := |dirs| - 1;
    if s in dirs[last].manifest.selected { d := dirs[last]; } else { d := AllHasDir(dirs[..last], s); }
  }

  /** One shard that selected and ran two specs, but listed only `specs`. */
  function OneShard(specs: seq<string>, x: Record, y: Record): RunDir {
    RunDir(Manifest(1, 1, specs, [x.spec, y.spec]), Some([x, y]))
  }

  lemma OneShardRan(specs: seq<string>, x: Record, y: Record)
    requires x.spec != y.spec && Get(x.counts, Tests) != 0 && Get(y.counts, Tests) != 0
    ensures RanItsSelection(OneShard(specs, x, y)) && NoDuplicates([x.spec, y.spec])
  {
    assert Specs([x, y]) == [x.spec, y.spec];
    forall s ensures multiset([x.spec, y.spec])[s] <= 1 {}
  }

  lemma OneShardSums(d: RunDir)
    requires d.runs.Some?
    ensures AllSelected([d]) == d.manifest.selected && AllRecords([d]) == d.runs.value
    ensures KeptTotal([d], Failed) == Positive(Sum(d.runs.value, Failed))
  {
    hide Sum;
    assert [d][..0] == [];
    assert AllSelected([d]) == [] + d.manifest.selected && AllRecords([d]) == [] + d.runs.value;
    assert KeptTotal([], Failed) == 0;
  }

  lemma SumOfTwo(x: Record, y: Record, k: CountKey)
    ensures Sum([x, y], k) == Get(x.counts, k) + Get(y.counts, k)
  {
    assert [x, y][..1] == [x] && [x][..0] == [];
    assert Sum([x], k) == Get(x.counts, k);
  }

  lemma OneShardAccepted(specs: seq<string>, x: Record, y: Record)
    requires x.spec != y.spec && Get(x.counts, Tests) != 0 && Get(y.counts, Tests) != 0
    requires Get(x.counts, Failed) + Get(y.counts, Failed) == 0
    requires forall s :: s in specs ==> s == x.spec || s == y.spec
    ensures Clean([OneShard(specs, x, y)])
    ensures AllSelected([OneShard(specs, x, y)]) == [x.spec, y.spec] && AllRecords([OneShard(specs, x, y)]) == [x, y]
  {
    hide NoDuplicates, Sum, KeptTotal, AllSelected, AllRecords, RanItsSelection;
    var d := OneShard(specs, x, y);
    OneShardRan(specs, x, y);
    OneShardSums(d);
    SumOfTwo(x, y, Failed);
    assert Shards([d]) == [1] == Upto(1);
  }

  /** A shard that selects and runs a name outside the list is accepted. */
  lemma StraySelectionAccepted() returns (dirs: seq<RunDir>)
    ensures Clean(dirs) && exists s :: s in AllSelected(dirs) && s !in dirs[0].manifest.specs
  {
    var x, y := Record("a", map[Tests := 1]), Record("b", map[Tests := 1]);
    assert x.spec[0] != y.spec[0];
    dirs := [OneShard([x.spec], x, y)];
    OneShardAccepted([x.spec], x, y);
    assert y.spec in AllSelected(dirs) && y.spec !in [x.spec];
  }

  /** A failed test that another spec's negative count makes up for is accepted. */
  lemma NegativeFailuresAccepted() returns (dirs: seq<RunDir>)
    ensures Clean(dirs) && exists r :: r in AllRecords(dirs) && Get(r.counts, Failed) > 0
  {
    var x, y := Record("a", map[Tests := 1, Failed := 1]), Record("b", map[Tests := 1, Failed := -1]);
    assert x.spec[0] != y.spec[0];
    dirs := [OneShard([x.spec, y.spec], x, y)];
    OneShardAccepted([x.spec, y.spec], x, y);
    assert x in AllRecords(dirs) && Get(x.counts, Failed) == 1;
  }

  // ----- Planning and combining fit together

  lemma DisjointNoDuplicates(a: seq<string>, b: seq<string>)
    requires NoDuplicates(a) && NoDuplicates(b) && forall s :: s in a ==> s !in b
    ensures NoDuplicates(a + b)
  {
    forall y ensures multiset(a + b)[y] <= 1 {
      assert y in a <==> y in multiset(a);
      assert y in b <==> y in multiset(b);
    }
  }

  /** Each directory holds its manifest's plan, run as selected, with tests. */
  ghost predicate RanThePlans(dirs: seq<RunDir>, ms: seq<Manifest>) {
    && |dirs| == |ms|
    && (forall k :: 0 <= k < |dirs| ==> dirs[k].manifest == ms[k] && RanAsSelected(dirs[k]))
  }

  ghost predicate RanAsSelected(d: RunDir) {
    && d.runs.Some?
    && multiset(Specs(d.runs.value)) == multiset(d.manifest.selected)
    && forall r :: r in d.runs.value ==> Get(r.counts, Tests) != 0
  }

  lemma {:induction false} PlansSelectOnce(dirs: seq<RunDir>, ms: seq<Manifest>, specs: seq<string>, n: nat)
    requires PartitionOf(ms, specs) && RanThePlans(dirs, ms) && n <= |dirs|
    ensures NoDuplicates(AllSelected(dirs[..n]))
  {
    if n > 0 {
      var k := n - 1;
      PlansSelectOnce(dirs, ms, specs, k);
      forall s | s in AllSelected(dirs[..k]) ensures s !in ms[k].selected {
        var d := AllHasDir(dirs[..k], s);
        var j :| 0 <= j < k && dirs[j] == d;
        assert Disjoint(ms[j], ms[k]);
      }
      DisjointNoDuplicates(AllSelected(dirs[..k]), ms[k].selected);
      DirsStep(dirs, k);
    }
  }

  lemma RanItsPlan(d: RunDir)
    requires NoDuplicates(d.manifest.selected) && RanAsSelected(d)
    ensures RanItsSelection(d)
  {
    forall s ensures s in Specs(d.runs.value) <==> s in d.manifest.selected {
      SameMember(Specs(d.runs.value), d.manifest.selected, s);
    }
  }

  lemma PlansLabelled(dirs: seq<RunDir>, ms: seq<Manifest>, specs: seq<string>)
    requires PartitionOf(ms, specs) && RanThePlans(dirs, ms)
    ensures LabelsComplete(dirs)
    ensures forall d :: d in dirs ==> RanItsSelection(d) && d.manifest.specs == specs
  {
    forall d | d in dirs ensures RanItsSelection(d) && d.manifest.specs == specs && d.manifest.count == |dirs| {
      var k :| 0 <= k < |dirs| && dirs[k] == d;
      assert ShardOf(ms[k], k + 1, |ms|, specs);
      RanItsPlan(d);
    }
    forall k | 0 <= k < |dirs| ensures Shards(dirs)[k] == k + 1 { assert ShardOf(ms[k], k + 1, |ms|, specs); }
    assert Shards(dirs) == Upto(|dirs|);
  }

  lemma PlansSelect(dirs: seq<RunDir>, ms: seq<Manifest>, specs: seq<string>, s: string)
    requires PartitionOf(ms, specs) && RanThePlans(dirs, ms) && s in specs
    ensures s in AllSelected(dirs)
  {
    var k :| 0 <= k < |ms| && s in ms[k].selected;
    assert dirs[k] in dirs;
    SelectedInAll(dirs, dirs[k], s);
  }

  /** Shards that ran such a partition are accepted exactly when the running sum of failed tests ends
      where it is least; so the auditor never rejects a run in which no test failed. */
  lemma PartitionAccepted(dirs: seq<RunDir>, ms: seq<Manifest>, specs: seq<string>)
    requires PartitionOf(ms, specs) && RanThePlans(dirs, ms)
    ensures Clean(dirs) <==> EndsLeast(dirs, Failed)
    ensures NonNegative(AllRecords(dirs), Failed) ==>
      (Clean(dirs) <==> forall r :: r in AllRecords(dirs) ==> Get(r.counts, Failed) == 0)
  {
    hide Sum, EndsLeast;
    PlansLabelled(dirs, ms, specs);
    assert NoDuplicates(AllSelected(dirs)) by {
      PlansSelectOnce(dirs, ms, specs, |dirs|);
      assert dirs[..|dirs|] == dirs;
    }
    assert dirs[0] in dirs;
    forall s | s in specs ensures s in AllSelected(dirs) { PlansSelect(dirs, ms, specs, s); }
    KeptNothing(dirs, Failed);
    if NonNegative(AllRecords(dirs), Failed) {
      RecordsNeverNegative(dirs, Failed);
      KeptTotalIsSum(dirs, Failed);
      if Clean(dirs) { CombineIsSound(dirs); }
      if forall r :: r in AllRecords(dirs) ==> Get(r.counts, Failed) == 0 { NoneIsZero(AllRecords(dirs), Failed); }
    }
  }

  lemma {:induction false} NoneIsZero(records: seq<Record>, k: CountKey)
    requires forall r :: r in records ==> Get(r.counts, k) == 0
    ensures Sum(records, k) == 0
  {
    if records != [] { NoneIsZero(records[..|records| - 1], k); }
  }
}
