/** Which result directories of a re-run to combine: ci/local/delphi_python_results.py, `cmd_latest`. */
module DelphiLatest {
  import opened Wrappers
  import opened Ordering

  /** A shard label "index/count". */
  datatype Shard = Shard(index: int, count: int)

  /** What attempt.json says; a local run's directory has none. */
  datatype Attempt = Attempt(shard: Shard, number: int)

  datatype Run = Run(number: int, dir: string)

  // ----- Specification

  function Holds(attemptOf: string -> Option<Attempt>, a: Attempt): string -> bool {
    (d: string) => attemptOf(d) == Some(a)
  }

  function OfShard(attemptOf: string -> Option<Attempt>, s: Shard): string -> bool {
    (d: string) => attemptOf(d).Some? && attemptOf(d).value.shard == s
  }

  /** The directories that hold one attempt of one shard. */
  function Holding(dirs: seq<string>, attemptOf: string -> Option<Attempt>, a: Attempt): seq<string> {
    Filter(Holds(attemptOf, a), dirs)
  }

  ghost predicate NoTies(dirs: seq<string>, attemptOf: string -> Option<Attempt>) {
    forall a :: |Holding(dirs, attemptOf, a)| <= 1
  }

  /** `e` holds a later attempt of the shard of `d`. */
  predicate Replaces(attemptOf: string -> Option<Attempt>, e: string, d: string) {
    && attemptOf(d).Some? && attemptOf(e).Some?
    && attemptOf(e).value.shard == attemptOf(d).value.shard
    && attemptOf(e).value.number > attemptOf(d).value.number
  }

  predicate Superseded(dirs: seq<string>, attemptOf: string -> Option<Attempt>, d: string) {
    exists e :: e in dirs && Replaces(attemptOf, e, d)
  }

  function Kept(dirs: seq<string>, attemptOf: string -> Option<Attempt>): string -> bool {
    (d: string) => !Superseded(dirs, attemptOf, d)
  }

  function Current(dirs: seq<string>, attemptOf: string -> Option<Attempt>): seq<string> {
    Filter(Kept(dirs, attemptOf), dirs)
  }

  // ----- The command

  function RunsOf(dirs: seq<string>, attemptOf: string -> Option<Attempt>, s: Shard): seq<Run> {
    if dirs == [] then []
    else
      var d := dirs[|dirs| - 1];
      RunsOf(dirs[..|dirs| - 1], attemptOf, s) +
        if attemptOf(d).Some? && attemptOf(d).value.shard == s then [Run(attemptOf(d).value.number, d)] else []
  }

  function Numbered(n: int): Run -> bool {
    (r: Run) => r.number == n
  }

  /** `attempts.count(n)`. */
  function Times(runs: seq<Run>, n: int): nat {
    |Filter(Numbered(n), runs)|
  }

  predicate NumberLeq(a: Run, b: Run) {
    a.number <= b.number
  }

  predicate IndexLeq(a: Shard, b: Shard) {
    a.index <= b.index
  }

  ghost predicate Grouped(dirs: seq<string>, attemptOf: string -> Option<Attempt>, runs: map<Shard, seq<Run>>,
                          order: seq<Shard>) {
    && (forall s :: s in order <==> s in runs)
    && (forall s :: s in runs ==> runs[s] != [] && runs[s] == RunsOf(dirs, attemptOf, s))
    && (forall s :: s !in runs ==> RunsOf(dirs, attemptOf, s) == [])
  }

  /** One more directory in its shard's list. */
  lemma GroupedStep(dirs: seq<string>, attemptOf: string -> Option<Attempt>, runs: map<Shard, seq<Run>>,
                    order: seq<Shard>, d: string)
    requires Grouped(dirs, attemptOf, runs, order)
    ensures attemptOf(d).None? ==> Grouped(dirs + [d], attemptOf, runs, order)
    ensures attemptOf(d).Some? ==>
      var s := attemptOf(d).value.shard;
      Grouped(dirs + [d], attemptOf,
              runs[s := (if s in runs then runs[s] else []) + [Run(attemptOf(d).value.number, d)]],
              if s in runs then order else order + [s])
  {
    assert (dirs + [d])[..|dirs|] == dirs;
  }

  method Group(dirs: seq<string>, attemptOf: string -> Option<Attempt>)
    returns (runs: map<Shard, seq<Run>>, order: seq<Shard>)
    ensures Grouped(dirs, attemptOf, runs, order)
  {
    runs, order := map[], [];
    assert Grouped([], attemptOf, runs, order);
    hide Grouped;
    for i := 0 to |dirs|
      invariant Grouped(dirs[..i], attemptOf, runs, order)
    {
      assert dirs[..i + 1] == dirs[..i] + [dirs[i]];
      GroupedStep(dirs[..i], attemptOf, runs, order, dirs[i]);
      var a := attemptOf(dirs[i]);
      if a.Some? {
        var s, r := a.value.shard, Run(a.value.number, dirs[i]);
        if s !in runs { order := order + [s]; }
        runs := runs[s := (if s in runs then runs[s] else []) + [r]];
      }
    }
    assert dirs[..|dirs|] == dirs;
  }

  /** The directories of one shard's runs that a later run replaces; None when two runs tie. */
  method Older(runs: seq<Run>) returns (older: Option<set<string>>)
    requires runs != []
    ensures older.None? <==> exists n :: Times(runs, n) > 1
    ensures older.Some? ==> forall d :: d in older.value <==> OldDir(runs, d)
  {
    var ordered := Sort(NumberLeq, runs);
    SortSorted(NumberLeq, runs);
    SameLength(ordered, runs);
    forall n ensures Times(ordered, n) == Times(runs, n) { FilterPermutes(Numbered(n), ordered, runs); }
    for i := 0 to |ordered|
      invariant forall j :: 0 <= j < i ==> Times(ordered, ordered[j].number) <= 1
    {
      if Times(ordered, ordered[i].number) > 1 { return None; }
    }
    forall n ensures Times(ordered, n) <= 1 { TimesOfMember(ordered, n); }
    OldDirs(runs, ordered);
    older := Some(set r | r in ordered[..|ordered| - 1] :: r.dir);
  }

  /** With every number once, all but the last in order are what a later run replaces. */
  lemma OldDirs(runs: seq<Run>, ordered: seq<Run>)
    requires ordered != [] && multiset(ordered) == multiset(runs) && Sorted(NumberLeq, ordered)
    requires forall n :: Times(ordered, n) <= 1
    ensures forall d :: OldDir(runs, d) <==> exists r :: r in ordered[..|ordered| - 1] && r.dir == d
  {
    var last := |ordered| - 1;
    forall r ensures r in ordered <==> r in runs { SameMember(ordered, runs, r); }
    forall i | 0 <= i < last ensures Before(ordered[i], ordered[last]) {
      TwoOfANumber(ordered, i, last);
      assert NumberLeq(ordered[i], ordered[last]);
    }
    forall d | exists r :: r in ordered[..last] && r.dir == d ensures OldDir(runs, d) {
      var r :| r in ordered[..last] && r.dir == d;
      assert ordered[last] in ordered;
    }
    forall d | OldDir(runs, d) ensures exists r :: r in ordered[..last] && r.dir == d {
      var r, q :| r in runs && q in runs && r.dir == d && Before(r, q);
      var i :| 0 <= i < |ordered| && ordered[i] == r;
      var j :| 0 <= j < |ordered| && ordered[j] == q;
      assert j != last ==> Before(q, ordered[last]);
      assert i != last;
      assert ordered[..last][i] == r;
    }
  }

  predicate Before(r: Run, q: Run) {
    r.number < q.number
  }

  ghost predicate OldDir(runs: seq<Run>, d: string) {
    exists r, q :: r in runs && q in runs && r.dir == d && Before(r, q)
  }

  lemma TimesOfMember(runs: seq<Run>, n: int)
    requires forall j :: 0 <= j < |runs| ==> Times(runs, runs[j].number) <= 1
    ensures Times(runs, n) <= 1
  {
    var those := Filter(Numbered(n), runs);
    if those != [] {
      FilterMembers(Numbered(n), runs, those[0]);
      var j :| 0 <= j < |runs| && runs[j] == those[0];
    }
  }

  lemma {:induction false} TwoOfANumber(runs: seq<Run>, i: nat, j: nat)
    requires i < j < |runs| && Times(runs, runs[i].number) <= 1
    ensures runs[i].number != runs[j].number
  {
    if i > 0 {
      TwoOfANumber(runs[1..], i - 1, j - 1);
    } else {
      assert runs[1..][j - 1] == runs[j];
      FilterMembers(Numbered(runs[0].number), runs[1..], runs[j]);
    }
  }

  ghost predicate DroppedBy(dirs: seq<string>, attemptOf: string -> Option<Attempt>, shards: seq<Shard>, d: string) {
    exists s :: s in shards && OldDir(RunsOf(dirs, attemptOf, s), d)
  }

  lemma {:induction false} RunsMembers(dirs: seq<string>, attemptOf: string -> Option<Attempt>, s: Shard, r: Run)
    ensures r in RunsOf(dirs, attemptOf, s) <==> r.dir in dirs && attemptOf(r.dir) == Some(Attempt(s, r.number))
  {
    if dirs != [] {
      var last := |dirs| - 1;
      assert dirs == dirs[..last] + [dirs[last]];
      RunsMembers(dirs[..last], attemptOf, s, r);
    }
  }

  /** A shard's runs with a number are the directories holding that attempt. */
  lemma {:induction false} TimesIsHolding(dirs: seq<string>, attemptOf: string -> Option<Attempt>, s: Shard, n: int)
    ensures Times(RunsOf(dirs, attemptOf, s), n) == |Holding(dirs, attemptOf, Attempt(s, n))|
  {
    if dirs != [] {
      var last := |dirs| - 1;
      var d := dirs[last];
      assert dirs == dirs[..last] + [d];
      TimesIsHolding(dirs[..last], attemptOf, s, n);
      FilterAppend(Holds(attemptOf, Attempt(s, n)), dirs[..last], d);
      var front := RunsOf(dirs[..last], attemptOf, s);
      if attemptOf(d).Some? && attemptOf(d).value.shard == s {
        FilterAppend(Numbered(n), front, Run(attemptOf(d).value.number, d));
      } else {
        assert front + [] == front;
      }
    }
  }

  lemma DroppedIsSuperseded(dirs: seq<string>, attemptOf: string -> Option<Attempt>, runs: map<Shard, seq<Run>>,
      order: seq<Shard>, shards: seq<Shard>, d: string)
    requires Grouped(dirs, attemptOf, runs, order) && multiset(shards) == multiset(order)
    ensures d in dirs ==> (DroppedBy(dirs, attemptOf, shards, d) <==> Superseded(dirs, attemptOf, d))
  {
    if DroppedBy(dirs, attemptOf, shards, d) {
      var s :| s in shards && OldDir(RunsOf(dirs, attemptOf, s), d);
      var r, q :| r in RunsOf(dirs, attemptOf, s) && q in RunsOf(dirs, attemptOf, s) && r.dir == d && Before(r, q);
      RunsMembers(dirs, attemptOf, s, r);
      RunsMembers(dirs, attemptOf, s, q);
      assert Replaces(attemptOf, q.dir, d);
    }
    if Superseded(dirs, attemptOf, d) && d in dirs {
      var e :| e in dirs && Replaces(attemptOf, e, d);
      var a, b := attemptOf(d).value, attemptOf(e).value;
      var r, q := Run(a.number, d), Run(b.number, e);
      RunsMembers(dirs, attemptOf, a.shard, r);
      RunsMembers(dirs, attemptOf, a.shard, q);
      SameMember(shards, order, a.shard);
      assert Before(r, q);
      assert OldDir(RunsOf(dirs, attemptOf, a.shard), d);
    }
  }

  /** The directories to leave out; None when a shard has two directories of one attempt. */
  method Drop(dirs: seq<string>, attemptOf: string -> Option<Attempt>) returns (dropped: Option<set<string>>)
    ensures dropped.Some? <==> NoTies(dirs, attemptOf)
    ensures dropped.Some? ==> forall d :: d in dirs ==> (d in dropped.value <==> Superseded(dirs, attemptOf, d))
  {
    var runs, order := Group(dirs, attemptOf);
    var shards := Sort(IndexLeq, order);
    var out: set<string> := {};
    for i := 0 to |shards|
      invariant forall s, n :: s in shards[..i] ==> Times(RunsOf(dirs, attemptOf, s), n) <= 1
      invariant forall d :: d in out <==> DroppedBy(dirs, attemptOf, shards[..i], d)
    {
      var s := shards[i];
      assert shards[..i + 1] == shards[..i] + [s];
      SameMember(shards, order, s);
      var older := Older(runs[s]);
      if older.None? {
        var n :| Times(runs[s], n) > 1;
        TimesIsHolding(dirs, attemptOf, s, n);
        return None;
      }
      out := out + older.value;
    }
    assert shards[..|shards|] == shards;
    forall a ensures |Holding(dirs, attemptOf, a)| <= 1 {
      SameMember(shards, order, a.shard);
      TimesIsHolding(dirs, attemptOf, a.shard, a.number);
    }
    forall d | d in dirs ensures d in out <==> Superseded(dirs, attemptOf, d) {
      DroppedIsSuperseded(dirs, attemptOf, runs, order, shards, d);
    }
    return Some(out);
  }

  method Latest(dirs: seq<string>, attemptOf: string -> Option<Attempt>) returns (kept: Option<seq<string>>)
    ensures kept.Some? <==> NoTies(dirs, attemptOf)
    ensures kept.Some? ==> kept.value == Current(dirs, attemptOf)
  {
    var dropped := Drop(dirs, attemptOf);
    if dropped.None? { return None; }
    hide Superseded, Filter, NoTies;
    var keep := Kept(dirs, attemptOf);
    var out: seq<string> := [];
    FilterNothing(keep);
    for i := 0 to |dirs|
      invariant out == Filter(keep, dirs[..i])
    {
      assert dirs[..i + 1] == dirs[..i] + [dirs[i]] && dirs[i] in dirs;
      FilterAppend(keep, dirs[..i], dirs[i]);
      if dirs[i] !in dropped.value { out := out + [dirs[i]]; }
    }
    assert dirs[..|dirs|] == dirs;
    return Some(out);
  }

  lemma FilterNothing<T>(keep: T -> bool)
    ensures Filter(keep, []) == []
  {}

  // ----- What is kept

  /** Directories without an attempt are all kept; of every shard exactly one directory is kept, and
      it holds the shard's highest attempt. */
  lemma OnePerShard(dirs: seq<string>, attemptOf: string -> Option<Attempt>, d: string)
    requires NoTies(dirs, attemptOf) && d in dirs
    ensures attemptOf(d).None? ==> d in Current(dirs, attemptOf)
    ensures attemptOf(d).Some? ==>
      var mine := Filter(OfShard(attemptOf, attemptOf(d).value.shard), Current(dirs, attemptOf));
      |mine| == 1 && attemptOf(mine[0]).Some? && attemptOf(mine[0]).value.number >= attemptOf(d).value.number
  {
    var keep := Kept(dirs, attemptOf);
    if attemptOf(d).None? {
      FilterMembers(keep, dirs, d);
    } else {
      var s := attemptOf(d).value.shard;
      var top := Highest(dirs, attemptOf, s, d);
      var a := attemptOf(top).value;
      var ofShard, holds := OfShard(attemptOf, s), Holds(attemptOf, a);
      forall x | x in dirs ensures holds(x) <==> keep(x) && ofShard(x) {
        assert holds(x) ==> forall e :: e in dirs ==> !Replaces(attemptOf, e, x);
        if keep(x) && ofShard(x) { assert !Replaces(attemptOf, top, x); }
      }
      FilterAgain(keep, ofShard, holds, dirs);
      FilterMembers(holds, dirs, top);
      var mine := Filter(ofShard, Current(dirs, attemptOf));
      assert mine == Holding(dirs, attemptOf, a);
      FilterMembers(holds, dirs, mine[0]);
    }
  }

  lemma {:induction false} Highest(dirs: seq<string>, attemptOf: string -> Option<Attempt>, s: Shard, d: string)
    returns (top: string)
    requires d in dirs && attemptOf(d).Some? && attemptOf(d).value.shard == s
    ensures top in dirs && attemptOf(top).Some? && attemptOf(top).value.shard == s
    ensures forall e :: e in dirs && attemptOf(e).Some? && attemptOf(e).value.shard == s ==>
      attemptOf(e).value.number <= attemptOf(top).value.number
  {
    top := d;
    for i := 0 to |dirs|
      invariant top in dirs && attemptOf(top).Some? && attemptOf(top).value.shard == s
      invariant forall e :: e in dirs[..i] && attemptOf(e).Some? && attemptOf(e).value.shard == s ==>
        attemptOf(e).value.number <= attemptOf(top).value.number
    {
      assert dirs[..i + 1] == dirs[..i] + [dirs[i]];
      var a := attemptOf(dirs[i]);
      if a.Some? && a.value.shard == s && a.value.number > attemptOf(top).value.number { top := dirs[i]; }
    }
    assert dirs[..|dirs|] == dirs;
  }

  /** The order in which the directories are given decides nothing but the order of the output. */
  lemma OrderDoesNotCount(a: seq<string>, b: seq<string>, attemptOf: string -> Option<Attempt>)
    requires multiset(a) == multiset(b)
    ensures NoTies(a, attemptOf) <==> NoTies(b, attemptOf)
    ensures multiset(Current(a, attemptOf)) == multiset(Current(b, attemptOf))
  {
    forall x ensures |Holding(a, attemptOf, x)| == |Holding(b, attemptOf, x)| {
      FilterPermutes(Holds(attemptOf, x), a, b);
    }
    forall x ensures x in a <==> x in b { SameMember(a, b, x); }
    forall x ensures multiset(Current(a, attemptOf))[x] == multiset(Current(b, attemptOf))[x] {
      FilterMembers(Kept(a, attemptOf), a, x);
      FilterMembers(Kept(b, attemptOf), b, x);
    }
  }
}
