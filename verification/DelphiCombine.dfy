/** The auditor of the Delphi shards: ci/local/delphi_python_results.py, `run_counts`, `durations`
    and `cmd_combine`. Durations are exact reals. */
module DelphiCombine {
  import opened Wrappers
  import opened Ordering
  import opened Counters
  import opened DelphiLatest

  /** A Counter of durations: a missing key counts 0. */
  type Seconds = map<string, real>

  datatype Timing = Timing(nodeid: string, duration: real)

  datatype Manifest = Manifest(shard: Shard, collected: seq<string>, selected: seq<string>,
                               units: map<string, string>, serial: set<string>)

  /** One shard's results: the shard its attempt.json names, if there is one, the counts of each
      pass, and the timed tests of all passes. */
  datatype RunDir = RunDir(manifest: Manifest, attempt: Option<Shard>, counts: seq<Counter<string>>,
                           timings: seq<Timing>)

  datatype Problem =
    | Mislabelled(named: Shard, shard: Shard)
    | OtherTests(shard: Shard)
    | SelectedTwice(test: string)
    | NotSelected(test: string)
    | MoreNotSelected(n: nat)
    | Failures(failed: int, errors: int)

  function Sec(c: Seconds, k: string): real {
    if k in c then c[k] else 0.0
  }

  function PositiveSec(x: real): real {
    if x > 0.0 then x else 0.0
  }

  /** `c += d` on durations. */
  function AddSecKeepPositive(c: Seconds, d: Seconds): (r: Seconds)
    ensures forall k :: Sec(r, k) == PositiveSec(Sec(c, k) + Sec(d, k))
  {
    map k: string | k in c.Keys + d.Keys && Sec(c, k) + Sec(d, k) > 0.0 :: Sec(c, k) + Sec(d, k)
  }

  // ----- The counts of one run

  const DESELECTED := "deselected"

  function CountSum(passes: seq<Counter<string>>, k: string): int {
    if passes == [] || k == DESELECTED then 0
    else CountSum(passes[..|passes| - 1], k) + Get(passes[|passes| - 1], k)
  }

  /** None stands for the exit with a message when no pass left counts. */
  method RunCounts(passes: seq<Counter<string>>) returns (total: Option<Counter<string>>)
    ensures total.None? <==> passes == []
    ensures total.Some? ==> forall k :: Get(total.value, k) == CountSum(passes, k)
  {
    if passes == [] { return None; }
    var c: Counter<string> := map[];
    for i := 0 to |passes|
      invariant forall k :: Get(c, k) == CountSum(passes[..i], k)
    {
      assert passes[..i + 1][..i] == passes[..i];
      c := map k: string | k in c.Keys + passes[i].Keys && (k in c || k != DESELECTED) ::
        Get(c, k) + if k != DESELECTED then Get(passes[i], k) else 0;
    }
    assert passes[..|passes|] == passes;
    return Some(c);
  }

  // ----- The durations of one run

  function UnitOf(m: Manifest, n: string): Option<string> {
    if n in m.units && m.units[n] != "" then Some(m.units[n]) else None
  }

  predicate InParallel(m: Manifest, n: string, u: string) {
    UnitOf(m, n) == Some(u) && n !in m.serial
  }

  function ParallelSum(m: Manifest, ts: seq<Timing>, u: string): real {
    if ts == [] then 0.0
    else
      var t := ts[|ts| - 1];
      ParallelSum(m, ts[..|ts| - 1], u) + if InParallel(m, t.nodeid, u) then t.duration else 0.0
  }

  function SerialSum(m: Manifest, ts: seq<Timing>, u: string): real {
    if ts == [] then 0.0
    else
      var t := ts[|ts| - 1];
      SerialSum(m, ts[..|ts| - 1], u)
      + if UnitOf(m, t.nodeid) == Some(u) && t.nodeid in m.serial then t.duration else 0.0
  }

  /** One test's time in the parallel pass: setup, call and teardown together. */
  function TestSum(m: Manifest, ts: seq<Timing>, n: string): real {
    if ts == [] then 0.0
    else
      var t := ts[|ts| - 1];
      TestSum(m, ts[..|ts| - 1], n)
        + if t.nodeid == n && UnitOf(m, n).Some? && n !in m.serial then t.duration else 0.0
  }

  /** `x` is the time of the unit's longest test, and 0 when none took any. */
  ghost predicate Longest(m: Manifest, ts: seq<Timing>, u: string, x: real) {
    && x >= 0.0
    && (forall n :: InParallel(m, n, u) ==> TestSum(m, ts, n) <= x)
    && (x == 0.0 || exists n :: InParallel(m, n, u) && TestSum(m, ts, n) == x)
  }

  method UnitTimes(m: Manifest, ts: seq<Timing>) returns (parallel: Seconds, serial: Seconds, perTest: Seconds)
    ensures forall u :: Sec(parallel, u) == ParallelSum(m, ts, u)
    ensures forall u :: Sec(serial, u) == SerialSum(m, ts, u)
    ensures forall n :: Sec(perTest, n) == TestSum(m, ts, n)
    ensures forall n :: n in perTest ==> UnitOf(m, n).Some? && n !in m.serial
  {
    parallel, serial, perTest := map[], map[], map[];
    for i := 0 to |ts|
      invariant forall u :: Sec(parallel, u) == ParallelSum(m, ts[..i], u)
      invariant forall u :: Sec(serial, u) == SerialSum(m, ts[..i], u)
      invariant forall n :: Sec(perTest, n) == TestSum(m, ts[..i], n)
      invariant forall n :: n in perTest ==> UnitOf(m, n).Some? && n !in m.serial
    {
      assert ts[..i + 1][..i] == ts[..i];
      var t := ts[i];
      var unit := UnitOf(m, t.nodeid);
      if unit.Some? {
        var u := unit.value;
        if t.nodeid in m.serial {
          serial := serial[u := Sec(serial, u) + t.duration];
        } else {
          parallel := parallel[u := Sec(parallel, u) + t.duration];
          perTest := perTest[t.nodeid := Sec(perTest, t.nodeid) + t.duration];
        }
      }
    }
    assert ts[..|ts|] == ts;
  }

  /** The largest of a unit's values among the keys in `done`, starting from 0. */
  ghost predicate Largest(m: Manifest, times: Seconds, done: set<string>, u: string, x: real) {
    && x >= 0.0
    && (forall n :: n in done && UnitOf(m, n) == Some(u) ==> Sec(times, n) <= x)
    && (x == 0.0 || exists n :: n in done && UnitOf(m, n) == Some(u) && Sec(times, n) == x)
  }

  method LongestTests(m: Manifest, perTest: Seconds) returns (longest: Seconds)
    requires forall n :: n in perTest ==> UnitOf(m, n).Some?
    ensures forall u :: Largest(m, perTest, perTest.Keys, u, Sec(longest, u))
  {
    longest := map[];
    var done, left := {}, perTest.Keys;
    while left != {}
      invariant done + left == perTest.Keys && done !! left
      invariant forall u :: Largest(m, perTest, done, u, Sec(longest, u))
    {
      var n :| n in left;
      var u, seconds := UnitOf(m, n).value, perTest[n];
      ghost var before, was := longest, done;
      longest := longest[u := if Sec(longest, u) >= seconds then Sec(longest, u) else seconds];
      done, left := done + {n}, left - {n};
      forall v ensures Largest(m, perTest, done, v, Sec(longest, v)) {
        assert Largest(m, perTest, was, v, Sec(before, v));
      }
    }
    assert done == perTest.Keys;
  }

  method Durations(d: RunDir) returns (parallel: Seconds, serial: Seconds, longest: Seconds)
    ensures forall u :: Sec(parallel, u) == ParallelSum(d.manifest, d.timings, u)
    ensures forall u :: Sec(serial, u) == SerialSum(d.manifest, d.timings, u)
    ensures forall u :: Longest(d.manifest, d.timings, u, Sec(longest, u))
  {
    var perTest;
    parallel, serial, perTest := UnitTimes(d.manifest, d.timings);
    longest := LongestTests(d.manifest, perTest);
    forall u ensures Longest(d.manifest, d.timings, u, Sec(longest, u)) {
      LargestIsLongest(d, perTest, u, Sec(longest, u));
    }
  }

  lemma LargestIsLongest(d: RunDir, perTest: Seconds, u: string, x: real)
    requires forall n :: Sec(perTest, n) == TestSum(d.manifest, d.timings, n)
    requires forall n :: n in perTest ==> n !in d.manifest.serial
    requires Largest(d.manifest, perTest, perTest.Keys, u, x)
    ensures Longest(d.manifest, d.timings, u, x)
  {}

  // ----- What combine accumulates

  function AllSelected(dirs: seq<RunDir>): seq<string> {
    if dirs == [] then [] else AllSelected(dirs[..|dirs| - 1]) + dirs[|dirs| - 1].manifest.selected
  }

  function Total(dirs: seq<RunDir>, k: string): int {
    if dirs == [] then 0 else Positive(Total(dirs[..|dirs| - 1], k) + CountSum(dirs[|dirs| - 1].counts, k))
  }

  function ParallelTotal(dirs: seq<RunDir>, u: string): real {
    if dirs == [] then 0.0
    else
      var d := dirs[|dirs| - 1];
      PositiveSec(ParallelTotal(dirs[..|dirs| - 1], u) + ParallelSum(d.manifest, d.timings, u))
  }

  function SerialTotal(dirs: seq<RunDir>, u: string): real {
    if dirs == [] then 0.0
    else
      var d := dirs[|dirs| - 1];
      PositiveSec(SerialTotal(dirs[..|dirs| - 1], u) + SerialSum(d.manifest, d.timings, u))
  }

  /** `x` is the time of the longest test of a unit in any run, and 0 when none took any. */
  ghost predicate LongestOf(dirs: seq<RunDir>, u: string, x: real) {
    && x >= 0.0
    && (forall d :: d in dirs ==> forall n :: InParallel(d.manifest, n, u) ==> TestSum(d.manifest, d.timings, n) <= x)
    && (x == 0.0 || exists d, n :: d in dirs && InParallel(d.manifest, n, u) && TestSum(d.manifest, d.timings, n) == x)
  }

  // ----- What combine checks

  ghost predicate SameTests(d: RunDir, e: RunDir) {
    multiset(d.manifest.collected) == multiset(e.manifest.collected)
  }

  predicate WellLabelled(d: RunDir) {
    d.attempt == None || d.attempt == Some(d.manifest.shard)
  }

  ghost predicate DirsClean(dirs: seq<RunDir>, n: nat)
    requires n <= |dirs|
  {
    && (forall d :: d in dirs[..n] ==> WellLabelled(d) && SameTests(d, dirs[0]))
    && NoDuplicates(AllSelected(dirs[..n]))
  }

  /** Everything `cmd_combine` checks. */
  ghost predicate Clean(dirs: seq<RunDir>) {
    && DirsClean(dirs, |dirs|)
    && (forall d :: d in dirs ==> d.counts != [])
    && (dirs != [] ==> forall t :: t in dirs[0].manifest.collected ==> t in AllSelected(dirs))
    && Total(dirs, "failed") == 0 && Total(dirs, "error") == 0
  }

  datatype Audit = Audit(owner: map<string, Shard>, total: Counter<string>, parallel: Seconds, serial: Seconds,
                         longest: Seconds, problems: seq<Problem>)

  ghost predicate TimesAccumulated(dirs: seq<RunDir>, a: Audit) {
    && (forall u :: Sec(a.parallel, u) == ParallelTotal(dirs, u))
    && (forall u :: Sec(a.serial, u) == SerialTotal(dirs, u))
    && (forall u :: LongestOf(dirs, u, Sec(a.longest, u)))
  }

  ghost predicate Accumulated(dirs: seq<RunDir>, n: nat, a: Audit)
    requires n <= |dirs|
  {
    && (forall s :: s in a.owner <==> s in AllSelected(dirs[..n]))
    && (forall k :: Get(a.total, k) == Total(dirs[..n], k))
    && TimesAccumulated(dirs[..n], a)
    && (a.problems == [] <==> DirsClean(dirs, n))
  }

  /** Adds one run's selection to `owner`, reporting every test that already has one. */
  method TakeSelection(owner: map<string, Shard>, m: Manifest, ghost before: seq<string>)
    returns (owner': map<string, Shard>, problems: seq<Problem>)
    requires forall s :: s in owner <==> s in before
    ensures forall s :: s in owner' <==> s in before + m.selected
    ensures NoDuplicates(before) ==> (problems == [] <==> NoDuplicates(before + m.selected))
  {
    owner', problems := owner, [];
    assert before + m.selected[..0] == before;
    for i := 0 to |m.selected|
      invariant forall s :: s in owner' <==> s in before + m.selected[..i]
      invariant NoDuplicates(before) ==> (problems == [] <==> NoDuplicates(before + m.selected[..i]))
    {
      var s := m.selected[i];
      assert before + m.selected[..i + 1] == before + m.selected[..i] + [s];
      AppendOne(before + m.selected[..i], s);
      if s in owner' { problems := problems + [SelectedTwice(s)]; }
      owner' := owner'[s := m.shard];
    }
    assert m.selected[..|m.selected|] == m.selected;
  }

  method TakeLongest(longest: Seconds, top: Seconds) returns (r: Seconds)
    ensures forall u :: Sec(r, u) == if u in top && Sec(top, u) > Sec(longest, u) then Sec(top, u) else Sec(longest, u)
  {
    r := longest;
    var left := top.Keys;
    while left != {}
      invariant left <= top.Keys
      invariant forall u ::
        Sec(r, u) == (if u in top && u !in left && Sec(top, u) > Sec(longest, u) then Sec(top, u) else Sec(longest, u))
    {
      var u :| u in left;
      r := r[u := if top[u] > Sec(r, u) then top[u] else Sec(r, u)];
      left := left - {u};
    }
  }

  method TakeTimes(ghost before: seq<RunDir>, d: RunDir, a: Audit) returns (b: Audit)
    requires TimesAccumulated(before, a)
    ensures TimesAccumulated(before + [d], b)
    ensures b == a.(parallel := b.parallel, serial := b.serial, longest := b.longest)
  {
    hide TimesAccumulated;
    var parallel, serial, top := Durations(d);
    var longest := TakeLongest(a.longest, top);
    b := a.(parallel := AddSecKeepPositive(a.parallel, parallel), serial := AddSecKeepPositive(a.serial, serial),
            longest := longest);
    TimesStep(before, d, a, b, parallel, serial, top);
  }

  lemma TimesStep(dirs: seq<RunDir>, d: RunDir, a: Audit, b: Audit, parallel: Seconds, serial: Seconds, top: Seconds)
    requires TimesAccumulated(dirs, a)
    requires forall u :: Sec(parallel, u) == ParallelSum(d.manifest, d.timings, u)
    requires forall u :: Sec(serial, u) == SerialSum(d.manifest, d.timings, u)
    requires forall u :: Longest(d.manifest, d.timings, u, Sec(top, u))
    requires forall u :: Sec(b.parallel, u) == PositiveSec(Sec(a.parallel, u) + Sec(parallel, u))
    requires forall u :: Sec(b.serial, u) == PositiveSec(Sec(a.serial, u) + Sec(serial, u))
    requires forall u ::
      Sec(b.longest, u) == if u in top && Sec(top, u) > Sec(a.longest, u) then Sec(top, u) else Sec(a.longest, u)
    ensures TimesAccumulated(dirs + [d], b)
  {
    hide Longest, LongestOf, ParallelSum, SerialSum;
    assert (dirs + [d])[..|dirs|] == dirs;
    forall u ensures LongestOf(dirs + [d], u, Sec(b.longest, u)) {
      LongestStep(dirs, d, u, Sec(a.longest, u), Sec(top, u));
      assert u !in top ==> Sec(top, u) == 0.0;
      LongestPositive(dirs, u, Sec(a.longest, u));
    }
  }

  lemma LongestPositive(dirs: seq<RunDir>, u: string, x: real)
    requires LongestOf(dirs, u, x)
    ensures x >= 0.0
  {}

  lemma LongestStep(dirs: seq<RunDir>, d: RunDir, u: string, x: real, y: real)
    requires LongestOf(dirs, u, x) && Longest(d.manifest, d.timings, u, y)
    ensures LongestOf(dirs + [d], u, if y > x then y else x)
  {}

  lemma DirsCleanStep(dirs: seq<RunDir>, i: nat)
    requires i < |dirs|
    ensures AllSelected(dirs[..i + 1]) == AllSelected(dirs[..i]) + dirs[i].manifest.selected
    ensures DirsClean(dirs, i + 1) <==> (
      && DirsClean(dirs, i)
      && WellLabelled(dirs[i]) && SameTests(dirs[i], dirs[0])
      && NoDuplicates(AllSelected(dirs[..i]) + dirs[i].manifest.selected))
  {
    assert dirs[..i + 1][..i] == dirs[..i];
    assert dirs[..i + 1] == dirs[..i] + [dirs[i]];
    if DirsClean(dirs, i + 1) { NoDuplicatesPrefix(AllSelected(dirs[..i]), dirs[i].manifest.selected); }
  }

  lemma TotalStep(dirs: seq<RunDir>, i: nat)
    requires i < |dirs|
    ensures forall k :: Total(dirs[..i + 1], k) == Positive(Total(dirs[..i], k) + CountSum(dirs[i].counts, k))
  {
    assert dirs[..i + 1][..i] == dirs[..i];
  }

  method TakeDir(dirs: seq<RunDir>, i: nat, a: Audit) returns (b: Audit)
    requires i < |dirs| && dirs[i].counts != [] && Accumulated(dirs, i, a)
    ensures Accumulated(dirs, i + 1, b)
  {
    hide DirsClean, TimesAccumulated, CountSum, Sort, Total, AllSelected, NoDuplicates;
    var d := dirs[i];
    DirsCleanStep(dirs, i);
    TotalStep(dirs, i);
    assert dirs[..i + 1] == dirs[..i] + [d];
    var labelled := CheckLabel(d);
    var alike := CheckTests(d, dirs[0]);
    var owner, stolen := TakeSelection(a.owner, d.manifest, AllSelected(dirs[..i]));
    if a.problems == [] { CleanSoFar(dirs, i); }
    var c := RunCounts(d.counts);
    var timed := TakeTimes(dirs[..i], d, a);
    b := timed.(owner := owner, total := AddKeepPositive(a.total, c.value),
                problems := a.problems + labelled + alike + stolen);
    SameTimes(dirs[..i + 1], timed, b);
  }

  lemma SameTimes(dirs: seq<RunDir>, a: Audit, b: Audit)
    requires TimesAccumulated(dirs, a) && a.parallel == b.parallel && a.serial == b.serial && a.longest == b.longest
    ensures TimesAccumulated(dirs, b)
  {}

  lemma CleanSoFar(dirs: seq<RunDir>, n: nat)
    requires n <= |dirs| && DirsClean(dirs, n)
    ensures NoDuplicates(AllSelected(dirs[..n]))
  {}

  method CheckLabel(d: RunDir) returns (problems: seq<Problem>)
    ensures problems == [] <==> WellLabelled(d)
  {
    problems := [];
    if d.attempt.Some? && d.attempt.value != d.manifest.shard {
      problems := problems + [Mislabelled(d.attempt.value, d.manifest.shard)];
    }
  }

  /** The sorted lists of collected tests are compared. */
  method CheckTests(d: RunDir, first: RunDir) returns (problems: seq<Problem>)
    ensures problems == [] <==> SameTests(d, first)
  {
    StringOrder();
    SortCanonical(StringLeq, d.manifest.collected, first.manifest.collected);
    problems := [];
    if Sort(StringLeq, d.manifest.collected) != Sort(StringLeq, first.manifest.collected) {
      problems := problems + [OtherTests(d.manifest.shard)];
    }
  }

  /** The tests no shard selected, each once. */
  function Unowned(tests: seq<string>, owner: map<string, Shard>): (r: seq<string>)
    ensures r == [] <==> forall t :: t in tests ==> t in owner
  {
    if tests == [] then []
    else
      assert tests == [tests[0]] + tests[1..];
      (if tests[0] in owner || tests[0] in tests[1..] then [] else [tests[0]]) + Unowned(tests[1..], owner)
  }

  const SHOWN: nat := 20

  /** Exit code, and the totals and times it writes. A run without counts ends the command with code 1. */
  method CmdCombine(dirs: seq<RunDir>) returns (code: nat, a: Audit)
    ensures code == 0 <==> Clean(dirs)
    ensures code != 0 ==> code == 1
    ensures code == 0 ==> a.problems == [] && Accumulated(dirs, |dirs|, a)
  {
    hide Accumulated, DirsClean;
    a := Audit(map[], map[], map[], map[], map[], []);
    Nothing(dirs, a);
    for i := 0 to |dirs|
      invariant Accumulated(dirs, i, a)
      invariant forall d :: d in dirs[..i] ==> d.counts != []
    {
      if dirs[i].counts == [] {
        assert dirs[i] in dirs;
        return 1, a;
      }
      a := TakeDir(dirs, i, a);
    }
    code, a := Conclude(dirs, a);
  }

  lemma Nothing(dirs: seq<RunDir>, a: Audit)
    requires a == Audit(map[], map[], map[], map[], map[], [])
    ensures Accumulated(dirs, 0, a)
  {}

  /** The report on tests that were collected and not selected: all of them, or the first few. */
  method MissingTests(tests: seq<string>, owner: map<string, Shard>) returns (problems: seq<Problem>)
    ensures problems == [] <==> forall t :: t in tests ==> t in owner
  {
    var collected := Sort(StringLeq, tests);
    forall t ensures t in collected <==> t in tests { SameMember(collected, tests, t); }
    hide Sort;
    var missing := Unowned(collected, owner);
    var shown := if |missing| > SHOWN then SHOWN else |missing|;
    problems := seq(shown, i requires 0 <= i < shown => NotSelected(missing[i]));
    if |missing| > SHOWN { problems := problems + [MoreNotSelected(|missing| - SHOWN)]; }
  }

  /** The checks made after the last directory. */
  method Conclude(dirs: seq<RunDir>, a: Audit) returns (code: nat, b: Audit)
    requires Accumulated(dirs, |dirs|, a) && forall d :: d in dirs ==> d.counts != []
    ensures code == if Clean(dirs) then 0 else 1
    ensures code == 0 ==> b == a && b.problems == []
  {
    hide DirsClean, TimesAccumulated, AllSelected, Total;
    assert dirs[..|dirs|] == dirs;
    var missing: seq<Problem> := [];
    if dirs != [] { missing := MissingTests(dirs[0].manifest.collected, a.owner); }
    var problems := a.problems + missing;
    var failed, errors := Get(a.total, "failed"), Get(a.total, "error");
    if failed != 0 || errors != 0 { problems := problems + [Failures(failed, errors)]; }
    b := a.(problems := problems);
    code := if problems == [] then 0 else 1;
  }

  // ----- What an accepted combination means

  /** No pass reports a negative number of `k`. */
  ghost predicate NonNegative(dirs: seq<RunDir>, k: string) {
    forall d, c :: d in dirs && c in d.counts ==> Get(c, k) >= 0
  }

  ghost predicate NoneReported(dirs: seq<RunDir>, k: string) {
    forall d, c :: d in dirs && c in d.counts ==> Get(c, k) == 0
  }

  ghost predicate NonNegativeTimes(dirs: seq<RunDir>) {
    forall d :: d in dirs ==> forall t :: t in d.timings ==> t.duration >= 0.0
  }

  lemma {:induction false} CountSumZero(passes: seq<Counter<string>>, k: string)
    requires k != DESELECTED && forall c :: c in passes ==> Get(c, k) >= 0
    ensures CountSum(passes, k) >= 0
    ensures CountSum(passes, k) == 0 <==> forall c :: c in passes ==> Get(c, k) == 0
  {
    if passes != [] {
      var last := |passes| - 1;
      assert passes == passes[..last] + [passes[last]];
      CountSumZero(passes[..last], k);
    }
  }

  lemma {:induction false} TotalZero(dirs: seq<RunDir>, k: string)
    requires k != DESELECTED && NonNegative(dirs, k)
    ensures Total(dirs, k) >= 0
    ensures Total(dirs, k) == 0 <==> NoneReported(dirs, k)
  {
    if dirs != [] {
      var last := |dirs| - 1;
      assert dirs == dirs[..last] + [dirs[last]];
      assert dirs[last] in dirs;
      TotalZero(dirs[..last], k);
      CountSumZero(dirs[last].counts, k);
    }
  }

  /** Exit code 0 means: every collected test was selected exactly once over all shards, each of which has
      counts, names its own shard, and collected the same tests. It means that
      no pass of any shard had a failure or an error exactly when none reports a negative number of
      either. */
  lemma CombineIsSound(dirs: seq<RunDir>)
    requires Clean(dirs)
    ensures forall d, t :: d in dirs && t in d.manifest.collected ==> multiset(AllSelected(dirs))[t] == 1
    ensures forall d :: d in dirs ==> d.counts != [] && (d.attempt.Some? ==> d.attempt.value == d.manifest.shard)
    ensures forall d, e :: d in dirs && e in dirs ==> multiset(d.manifest.collected) == multiset(e.manifest.collected)
    ensures NoneReported(dirs, "failed") && NoneReported(dirs, "error")
       <==> NonNegative(dirs, "failed") && NonNegative(dirs, "error")
  {
    assert dirs[..|dirs|] == dirs;
    forall d, t | d in dirs && t in d.manifest.collected ensures multiset(AllSelected(dirs))[t] == 1 {
      SameMember(d.manifest.collected, dirs[0].manifest.collected, t);
      assert t in multiset(AllSelected(dirs));
    }
    assert "failed"[0] == 'f' && "error"[0] == 'e' && DESELECTED[0] == 'd';
    if NonNegative(dirs, "failed") && NonNegative(dirs, "error") {
      TotalZero(dirs, "failed");
      TotalZero(dirs, "error");
    }
  }

  // ----- Which record counts where

  /** The test belongs to the unit, which has a name. */
  predicate Belongs(m: Manifest, n: string, u: string) {
    n in m.units && m.units[n] == u && u != ""
  }

  /** A pass counts what it reports, but never deselected tests, which run elsewhere. */
  lemma PassCounts(passes: seq<Counter<string>>, c: Counter<string>, k: string)
    ensures CountSum(passes + [c], k) - CountSum(passes, k) == if k == "deselected" then 0 else Get(c, k)
    ensures CountSum(passes, "deselected") == 0 && CountSum([], k) == 0
  {
    assert (passes + [c])[..|passes|] == passes;
  }

  /** A record counts for its test and its unit, among the serial times when the test is serial and
      otherwise among the parallel ones, and nowhere else. */
  lemma RecordCounts(m: Manifest, ts: seq<Timing>, t: Timing, u: string, n: string)
    ensures ParallelSum(m, ts + [t], u) - ParallelSum(m, ts, u)
         == if Belongs(m, t.nodeid, u) && t.nodeid !in m.serial then t.duration else 0.0
    ensures SerialSum(m, ts + [t], u) - SerialSum(m, ts, u)
         == if Belongs(m, t.nodeid, u) && t.nodeid in m.serial then t.duration else 0.0
    ensures TestSum(m, ts + [t], n) - TestSum(m, ts, n)
         == if t.nodeid == n && n !in m.serial && n in m.units && m.units[n] != "" then t.duration else 0.0
    ensures ParallelSum(m, [], u) == SerialSum(m, [], u) == TestSum(m, [], n) == 0.0
  {
    assert (ts + [t])[..|ts|] == ts;
  }

  /** The times of some units together. */
  function UnitsTogether(m: Manifest, ts: seq<Timing>, us: seq<string>): real {
    if us == [] then 0.0
    else UnitsTogether(m, ts, us[..|us| - 1]) + ParallelSum(m, ts, us[|us| - 1]) + SerialSum(m, ts, us[|us| - 1])
  }

  /** The recorded time of the tests that belong to a unit. */
  function TimeInUnits(m: Manifest, ts: seq<Timing>): real {
    if ts == [] then 0.0
    else
      var t := ts[|ts| - 1];
      TimeInUnits(m, ts[..|ts| - 1]) + if t.nodeid in m.units && m.units[t.nodeid] != "" then t.duration else 0.0
  }

  lemma {:induction false} UnitsTogetherStep(m: Manifest, ts: seq<Timing>, t: Timing, us: seq<string>)
    requires NoDuplicates(us) && "" !in us
    ensures UnitsTogether(m, ts + [t], us) - UnitsTogether(m, ts, us)
         == if t.nodeid in m.units && m.units[t.nodeid] in us then t.duration else 0.0
  {
    if us != [] {
      var front, u := us[..|us| - 1], us[|us| - 1];
      assert us == front + [u];
      AppendOne(front, u);
      UnitsTogetherStep(m, ts, t, front);
      RecordCounts(m, ts, t, u, "");
    }
  }

  lemma {:induction false} UnitsTogetherNothing(m: Manifest, us: seq<string>)
    ensures UnitsTogether(m, [], us) == 0.0
  {
    if us != [] { UnitsTogetherNothing(m, us[..|us| - 1]); }
  }

  /** No recorded time of a test that belongs to a unit is lost or counted twice. */
  lemma {:induction false} TimesConserved(m: Manifest, ts: seq<Timing>, us: seq<string>)
    requires NoDuplicates(us) && "" !in us
    requires forall t :: t in ts && t.nodeid in m.units && m.units[t.nodeid] != "" ==> m.units[t.nodeid] in us
    ensures UnitsTogether(m, ts, us) == TimeInUnits(m, ts)
  {
    if ts == [] {
      UnitsTogetherNothing(m, us);
    } else {
      var front, t := ts[..|ts| - 1], ts[|ts| - 1];
      assert ts == front + [t];
      TimesConserved(m, front, us);
      UnitsTogetherStep(m, front, t, us);
    }
  }

  lemma {:induction false} TestWithinUnit(m: Manifest, ts: seq<Timing>, n: string, u: string)
    requires InParallel(m, n, u) && forall t :: t in ts ==> t.duration >= 0.0
    ensures 0.0 <= TestSum(m, ts, n) <= ParallelSum(m, ts, u)
  {
    if ts != [] {
      var last := |ts| - 1;
      assert ts == ts[..last] + [ts[last]];
      TestWithinUnit(m, ts[..last], n, u);
    }
  }

  lemma {:induction false} ParallelNonNegative(m: Manifest, ts: seq<Timing>, u: string)
    requires forall t :: t in ts ==> t.duration >= 0.0
    ensures ParallelSum(m, ts, u) >= 0.0
  {
    if ts != [] {
      var last := |ts| - 1;
      assert ts == ts[..last] + [ts[last]];
      ParallelNonNegative(m, ts[..last], u);
    }
  }

  lemma {:induction false} RunWithinTotal(dirs: seq<RunDir>, d: RunDir, u: string)
    requires NonNegativeTimes(dirs) && d in dirs
    ensures ParallelSum(d.manifest, d.timings, u) <= ParallelTotal(dirs, u)
  {
    var last := |dirs| - 1;
    assert dirs == dirs[..last] + [dirs[last]];
    assert dirs[last] in dirs;
    ParallelNonNegative(dirs[last].manifest, dirs[last].timings, u);
    if d in dirs[..last] { RunWithinTotal(dirs[..last], d, u); }
    TotalNonNegative(dirs[..last], u);
  }

  lemma TotalNonNegative(dirs: seq<RunDir>, u: string)
    ensures ParallelTotal(dirs, u) >= 0.0
  {}

  /** A unit's longest parallel test never takes more than the unit's parallel total. */
  lemma LongestWithinTotal(dirs: seq<RunDir>, u: string, x: real)
    requires NonNegativeTimes(dirs) && LongestOf(dirs, u, x)
    ensures x <= ParallelTotal(dirs, u)
  {
    TotalNonNegative(dirs, u);
    if x != 0.0 {
      var d, n :| d in dirs && InParallel(d.manifest, n, u) && TestSum(d.manifest, d.timings, n) == x;
      TestWithinUnit(d.manifest, d.timings, n, u);
      RunWithinTotal(dirs, d, u);
    }
  }

  /** Combine checks that no collected test is missed or shared, but never that a selected test was
      collected: accepted selections partition the collected tests exactly when every selected test
      was collected. */
  lemma PartitionExactlyWhenCollected(dirs: seq<RunDir>)
    requires Clean(dirs) && dirs != [] && NoDuplicates(dirs[0].manifest.collected)
    ensures multiset(AllSelected(dirs)) == multiset(dirs[0].manifest.collected)
       <==> forall t :: t in AllSelected(dirs) ==> t in dirs[0].manifest.collected
  {
    assert dirs[..|dirs|] == dirs;
    var tests := dirs[0].manifest.collected;
    if multiset(AllSelected(dirs)) == multiset(tests) {
      forall t ensures t in AllSelected(dirs) <==> t in tests { SameMember(AllSelected(dirs), tests, t); }
    } else if forall t :: t in AllSelected(dirs) ==> t in tests {
      SameSets(AllSelected(dirs), tests);
    }
  }

  /** One shard that selected the tests a and b, but collected only `tests`. */
  function OneShard(tests: seq<string>, passes: seq<Counter<string>>): RunDir {
    RunDir(Manifest(Shard(1, 1), tests, ["a", "b"], map[], {}), None, passes, [])
  }

  lemma OneShardAccepted(tests: seq<string>, passes: seq<Counter<string>>)
    requires passes != [] && CountSum(passes, "failed") == 0 && CountSum(passes, "error") == 0
    requires forall t :: t in tests ==> t == "a" || t == "b"
    ensures Clean([OneShard(tests, passes)]) && AllSelected([OneShard(tests, passes)]) == ["a", "b"]
  {
    var dirs := [OneShard(tests, passes)];
    assert dirs[..0] == [] && AllSelected(dirs) == [] + ["a", "b"] && dirs[..1] == dirs;
    assert NoDuplicates(["a", "b"]) by {
      assert "a"[0] != "b"[0];
      forall y ensures multiset(["a", "b"])[y] <= 1 {}
    }
  }

  /** A shard that selects a test nobody collected is accepted. */
  lemma StrayTestAccepted() returns (dirs: seq<RunDir>)
    ensures Clean(dirs) && dirs != []
    ensures exists t :: t in AllSelected(dirs) && t !in dirs[0].manifest.collected
  {
    var passes: seq<Counter<string>> := [map["passed" := 2]];
    assert "passed"[0] == 'p' && "failed"[0] == 'f' && "error"[0] == 'e' && passes[..0] == [];
    dirs := [OneShard(["a"], passes)];
    OneShardAccepted(["a"], passes);
    assert "b" in AllSelected(dirs) && "b" !in ["a"];
  }

  /** A failure in one pass that a negative count in another makes up for is accepted. */
  lemma NegativeFailuresAccepted() returns (dirs: seq<RunDir>)
    ensures Clean(dirs) && exists d, c :: d in dirs && c in d.counts && Get(c, "failed") > 0
  {
    var passes: seq<Counter<string>> := [map["failed" := 1], map["failed" := -1]];
    assert "failed"[0] == 'f' && "error"[0] == 'e' && DESELECTED[0] == 'd';
    assert passes[..1] == [passes[0]] && [passes[0]][..0] == [];
    assert CountSum([passes[0]], "failed") == 1 && CountSum([passes[0]], "error") == 0;
    dirs := [OneShard(["a", "b"], passes)];
    OneShardAccepted(["a", "b"], passes);
    assert passes[0] in dirs[0].counts && Get(passes[0], "failed") == 1;
  }
}
