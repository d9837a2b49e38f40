/** The Cypress shard scheduler: ci/local/e2e_shards.py, `all_specs`, `assign`, `cmd_plan`.

    Recorded seconds are modelled as exact reals. Shards are numbered from 1. */
module ShardPlan {
  import opened Arithmetic
  import opened Wrappers
  import opened Ordering

  const DEFAULT_SPEC_SECONDS := 12.0

  function Weight(durations: map<string, real>, spec: string): real {
    if spec in durations then durations[spec] else DEFAULT_SPEC_SECONDS
  }

  /** The sort key `(-weight[s], s)`, compared as Python compares tuples. */
  predicate HeavierFirst(durations: map<string, real>, a: string, b: string) {
    Weight(durations, a) > Weight(durations, b) ||
    (Weight(durations, a) == Weight(durations, b) && StringLeq(a, b))
  }

  function ScheduleOrder(durations: map<string, real>): (string, string) -> bool {
    (a, b) => HeavierFirst(durations, a, b)
  }

  /** Shard loads (index k is shard k + 1) and the shard of each spec placed so far. */
  datatype Packing = Packing(load: seq<real>, plan: map<string, nat>)

  ghost predicate IsLightest(load: seq<real>, k: nat) {
    k < |load| &&
    (forall j :: 0 <= j < |load| ==> load[k] <= load[j]) &&
    (forall j :: 0 <= j < k ==> load[k] < load[j])
  }

  /** `min(range(count), key=lambda j: (load[j], j))`. */
  function Lightest(load: seq<real>): (k: nat)
    requires load != []
    ensures k < |load|
  {
    if |load| == 1 then 0
    else
      var k := Lightest(load[..|load| - 1]);
      if load[|load| - 1] < load[k] then |load| - 1 else k
  }

  /** The lightest shard, and the lowest-numbered one of those tied. */
  lemma {:induction false} LightestIsLeast(load: seq<real>, k: nat)
    requires load != []
    ensures k == Lightest(load) <==> IsLightest(load, k)
  {
    var least := Lightest(load);
    if |load| > 1 {
      LightestIsLeast(load[..|load| - 1], Lightest(load[..|load| - 1]));
    }
    assert IsLightest(load, least);
    if IsLightest(load, k) {
      if k < least { assert false; }
      if least < k { assert false; }
    }
  }

  /** Greedy placement of `order`, first spec first. */
  function Greedy(order: seq<string>, durations: map<string, real>, count: nat): (p: Packing)
    requires count > 0
    ensures |p.load| == count
  {
    if order == [] then Packing(seq(count, _ => 0.0), map[])
    else
      Place(Greedy(order[..|order| - 1], durations, count), order[|order| - 1], durations)
  }

  /** `spec` goes to the lightest shard, the lower number on a tie. */
  function Place(p: Packing, spec: string, durations: map<string, real>): (q: Packing)
    requires p.load != []
    ensures |q.load| == |p.load|
  {
    var k := Lightest(p.load);
    Packing(p.load[k := p.load[k] + Weight(durations, spec)], p.plan[spec := k + 1])
  }

  lemma {:induction false} GreedyPlaces(order: seq<string>, durations: map<string, real>, count: nat)
    requires count > 0
    ensures Greedy(order, durations, count).plan.Keys == set s | s in order
    ensures Places(Greedy(order, durations, count).plan, order, count)
  {
    if order != [] {
      var last := |order| - 1;
      GreedyPlaces(order[..last], durations, count);
      assert order == order[..last] + [order[last]];
    }
  }

  /** What `assign` returns. */
  function Assigned(specs: seq<string>, durations: map<string, real>, count: nat): map<string, nat>
    requires count > 0
  {
    Greedy(Sort(ScheduleOrder(durations), specs), durations, count).plan
  }

  method LightestShard(load: array<real>) returns (k: nat)
    requires load.Length > 0
    ensures k == Lightest(load[..])
  {
    k := 0;
    for j := 1 to load.Length
      invariant k < j
      invariant forall i :: 0 <= i < j ==> load[k] <= load[i]
      invariant forall i :: 0 <= i < k ==> load[k] < load[i]
    {
      if load[j] < load[k] { k := j; }
    }
    LightestIsLeast(load[..], k);
  }

  method PlaceOne(load: array<real>, plan: map<string, nat>, spec: string, durations: map<string, real>)
    returns (next: map<string, nat>)
    requires load.Length > 0
    modifies load
    ensures Packing(load[..], next) == Place(Packing(old(load[..]), plan), spec, durations)
  {
    var k := LightestShard(load);
    next := plan[spec := k + 1];
    load[k] := load[k] + Weight(durations, spec);
  }

  /** `count` is positive because `parse_shard` has checked 1 <= i <= n. */
  method Assign(specs: seq<string>, durations: map<string, real>, count: nat) returns (plan: map<string, nat>)
    requires count > 0
    ensures plan == Assigned(specs, durations, count)
  {
    var load := new real[count](_ => 0.0);
    var order := Sort(ScheduleOrder(durations), specs);
    plan := map[];
    assert load[..] == seq(count, _ => 0.0);
    for i := 0 to |order|
      invariant Packing(load[..], plan) == Greedy(order[..i], durations, count)
    {
      GreedyStep(order, durations, count, i);
      plan := PlaceOne(load, plan, order[i], durations);
    }
    assert order[..|order|] == order;
  }

  lemma GreedyStep(order: seq<string>, durations: map<string, real>, count: nat, i: nat)
    requires count > 0 && i < |order|
    ensures Greedy(order[..i + 1], durations, count) == Place(Greedy(order[..i], durations, count), order[i], durations)
  {
    assert order[..i + 1][..i] == order[..i];
  }

  // ----- Seconds per shard

  /** Recorded seconds of the specs of `order` that `plan` puts on `shard`. */
  function Seconds(order: seq<string>, durations: map<string, real>, plan: map<string, nat>, shard: nat): real {
    if order == [] then 0.0
    else
      var s := order[|order| - 1];
      Seconds(order[..|order| - 1], durations, plan, shard)
      + (if s in plan && plan[s] == shard then Weight(durations, s) else 0.0)
  }

  function Total(order: seq<string>, durations: map<string, real>): real {
    if order == [] then 0.0
    else Total(order[..|order| - 1], durations) + Weight(durations, order[|order| - 1])
  }

  /** Seconds of shards 1 to `upTo` together. */
  function SumShards(order: seq<string>, durations: map<string, real>, plan: map<string, nat>, upTo: nat): real {
    if upTo == 0 then 0.0
    else SumShards(order, durations, plan, upTo - 1) + Seconds(order, durations, plan, upTo)
  }

  ghost predicate Places(plan: map<string, nat>, order: seq<string>, count: nat) {
    forall s :: s in order ==> s in plan && 1 <= plan[s] <= count
  }

  lemma {:induction false} SumShardsStep(order: seq<string>, durations: map<string, real>, plan: map<string, nat>,
                                         upTo: nat)
    requires order != []
    ensures var last := |order| - 1; var s := order[last];
      SumShards(order, durations, plan, upTo) == SumShards(order[..last], durations, plan, upTo)
        + if s in plan && 1 <= plan[s] <= upTo then Weight(durations, s) else 0.0
  {
    if upTo > 0 { SumShardsStep(order, durations, plan, upTo - 1); }
  }

  lemma {:induction false} SumShardsEmpty(durations: map<string, real>, plan: map<string, nat>, upTo: nat)
    ensures SumShards([], durations, plan, upTo) == 0.0
  {
    if upTo > 0 { SumShardsEmpty(durations, plan, upTo - 1); }
  }

  /** Nothing is lost or counted twice: the shards together carry the total. */
  lemma {:induction false} ShardsCarryTotal(order: seq<string>, durations: map<string, real>, plan: map<string, nat>,
                                            count: nat)
    requires Places(plan, order, count)
    ensures SumShards(order, durations, plan, count) == Total(order, durations)
  {
    if order == [] {
      SumShardsEmpty(durations, plan, count);
    } else {
      ShardsCarryTotal(order[..|order| - 1], durations, plan, count);
      SumShardsStep(order, durations, plan, count);
    }
  }

  /** `n` copies of `x` added up. */
  function Times(x: real, n: nat): real {
    if n == 0 then 0.0 else Times(x, n - 1) + x
  }

  lemma {:induction false} TimesIsProduct(x: real, n: nat)
    ensures Times(x, n) == x * n as real
  {
    if n > 0 {
      TimesIsProduct(x, n - 1);
      assert x * (n - 1) as real + x == x * n as real;
    }
  }

  lemma {:induction false} SumShardsAtLeast(order: seq<string>, durations: map<string, real>, plan: map<string, nat>,
                                            upTo: nat, low: real)
    requires forall k :: 1 <= k <= upTo ==> low <= Seconds(order, durations, plan, k)
    ensures Times(low, upTo) <= SumShards(order, durations, plan, upTo)
  {
    if upTo > 0 { SumShardsAtLeast(order, durations, plan, upTo - 1, low); }
  }

  lemma {:induction false} SumShardsAtMost(order: seq<string>, durations: map<string, real>, plan: map<string, nat>,
                                           upTo: nat, high: real)
    requires forall k :: 1 <= k <= upTo ==> Seconds(order, durations, plan, k) <= high
    ensures SumShards(order, durations, plan, upTo) <= Times(high, upTo)
  {
    if upTo > 0 { SumShardsAtMost(order, durations, plan, upTo - 1, high); }
  }

  lemma {:induction false} SecondsIgnoresOthers(order: seq<string>, durations: map<string, real>,
                                                plan: map<string, nat>, s: string, k: nat, shard: nat)
    requires s !in order
    ensures Seconds(order, durations, plan[s := k], shard) == Seconds(order, durations, plan, shard)
  {
    if order != [] { SecondsIgnoresOthers(order[..|order| - 1], durations, plan, s, k, shard); }
  }

  /** The load the loop keeps for a shard is the seconds of the specs it put there. */
  lemma {:induction false} LoadIsSeconds(order: seq<string>, durations: map<string, real>, count: nat, k: nat)
    requires 0 < count && k < count && NoDuplicates(order)
    ensures var p := Greedy(order, durations, count);
      p.load[k] == Seconds(order, durations, p.plan, k + 1)
  {
    if order != [] {
      var last := |order| - 1;
      var before := Greedy(order[..last], durations, count);
      NoDuplicatesSplit(order, last);
      LoadIsSeconds(order[..last], durations, count, k);
      SecondsIgnoresOthers(order[..last], durations, before.plan, order[last], Lightest(before.load) + 1, k + 1);
    }
  }

  // ----- The bound on the heaviest shard

  /** Grade 2 for a weight that leaves no room, under `m`, for another of weight `p`. */
  function Grade(w: real, m: real, p: real): real {
    if w > m - p then 2.0 else 1.0
  }

  function Graded(order: seq<string>, durations: map<string, real>, m: real, p: real): map<string, real> {
    map s | s in order :: Grade(Weight(durations, s), m, p)
  }

  /** Relates the grades on one shard to its seconds, when every spec weighs at least `p`
      and three such specs exceed `m`. */
  predicate GradesMatch(seconds: real, grades: real, m: real, p: real) {
    || (grades == 0.0 && seconds == 0.0)
    || (grades == 1.0 && p <= seconds <= m - p)
    || (grades == 2.0 && (seconds > m - p || seconds >= 2.0 * p))
    || (grades >= 2.0 && seconds > m)
  }

  lemma {:induction false} GradeShard(order: seq<string>, all: seq<string>, durations: map<string, real>,
                                      plan: map<string, nat>, shard: nat, m: real, p: real)
    requires 3.0 * p > m >= p > 0.0
    requires forall s :: s in order ==> s in all && Weight(durations, s) >= p
    ensures GradesMatch(Seconds(order, durations, plan, shard),
                        Seconds(order, Graded(all, durations, m, p), plan, shard), m, p)
  {
    if order != [] {
      GradeShard(order[..|order| - 1], all, durations, plan, shard, m, p);
      assert order[|order| - 1] in all;
    }
  }

  lemma {:induction false} SecondsMonotone(order: seq<string>, durations: map<string, real>, plan: map<string, nat>,
                                           shard: nat, t: nat)
    requires t <= |order| && forall s :: s in order ==> Weight(durations, s) >= 0.0
    ensures 0.0 <= Seconds(order[..t], durations, plan, shard) <= Seconds(order, durations, plan, shard)
    decreases |order|
  {
    if t < |order| {
      assert order[..|order| - 1][..t] == order[..t];
      SecondsMonotone(order[..|order| - 1], durations, plan, shard, t);
    } else {
      assert order[..t] == order;
      if order != [] {
        SecondsMonotone(order[..t - 1], durations, plan, shard, t - 1);
        assert order[..t - 1][..t - 1] == order[..t - 1];
      }
    }
  }

  /** `other` keeps each of its `count` shards within `m`. */
  ghost predicate Fits(other: map<string, nat>, order: seq<string>, durations: map<string, real>, count: nat, m: real) {
    Places(other, order, count) &&
    forall k :: 1 <= k <= count ==> Seconds(order, durations, other, k) <= m
  }

  lemma LightestBelowAverage(order: seq<string>, durations: map<string, real>, count: nat)
    requires count > 0 && NoDuplicates(order)
    ensures var load := Greedy(order, durations, count).load;
      Times(load[Lightest(load)], count) <= Total(order, durations)
  {
    var p := Greedy(order, durations, count);
    var low := p.load[Lightest(p.load)];
    LightestIsLeast(p.load, Lightest(p.load));
    forall k | 1 <= k <= count ensures low <= Seconds(order, durations, p.plan, k) {
      LoadIsSeconds(order, durations, count, k - 1);
    }
    SumShardsAtLeast(order, durations, p.plan, count, low);
    GreedyPlaces(order, durations, count);
    ShardsCarryTotal(order, durations, p.plan, count);
  }

  /** The lightest shard holds at most an equal share of what `other` fits below `m`
      without the spec about to be placed. */
  lemma AverageStep(order: seq<string>, durations: map<string, real>, count: nat, other: map<string, nat>, m: real)
    requires count > 0 && order != [] && NoDuplicates(order)
    requires Fits(other, order, durations, count, m)
    ensures var last := |order| - 1; var load := Greedy(order[..last], durations, count).load;
      Times(load[Lightest(load)], count) + Weight(durations, order[last]) <= Times(m, count)
  {
    NoDuplicatesSplit(order, |order| - 1);
    LightestBelowAverage(order[..|order| - 1], durations, count);
    ShardsCarryTotal(order, durations, other, count);
    SumShardsAtMost(order, durations, other, count, m);
  }

  lemma {:induction false} TimesPlus(x: real, y: real, n: nat)
    ensures Times(x + y, n) == Times(x, n) + Times(y, n)
  {
    if n > 0 { TimesPlus(x, y, n - 1); }
  }

  lemma {:induction false} TimesMonotone(x: real, y: real, n: nat)
    requires x <= y
    ensures Times(x, n) <= Times(y, n)
  {
    if n > 0 { TimesMonotone(x, y, n - 1); }
  }

  /** A light spec (at most m / 3) placed on a shard of at most the average. */
  lemma LightArithmetic(low: real, w: real, m: real, count: nat)
    requires count > 0 && 3.0 * w <= m && Times(low, count) + w <= Times(m, count)
    ensures WithinBound(low + w, m, count)
  {
    TimesPlus(low, w, count);
    TimesPlus(w, w, count - 1);
    TimesPlus(w + w, w, count - 1);
    TimesMonotone(w + w + w, m, count - 1);
  }

  lemma HeavyArithmetic(x: real, m: real, count: nat)
    requires count > 0 && x <= m && 0.0 <= m
    ensures WithinBound(x, m, count)
  {
    TimesMonotone(x, m, count);
    TimesMonotone(0.0, m, count - 1);
    TimesIsProduct(0.0, count - 1);
  }

  /** `load` is at most 4/3 - 1/(3 * count) of `m`, cleared of fractions. */
  ghost predicate WithinBound(load: real, m: real, count: nat) {
    3.0 * Times(load, count) <= 4.0 * Times(m, count) - m
  }

  /** A placement of a heavy spec (over m / 3) stays within `m`: otherwise the grades of the
      placed specs and the new one would add up to 2 * count + 1, and `other` has room for 2 * count. */
  lemma HeavyStep(order: seq<string>, durations: map<string, real>, count: nat, other: map<string, nat>, m: real)
    requires count > 0 && order != [] && NoDuplicates(order)
    requires Fits(other, order, durations, count, m)
    requires Weight(durations, order[|order| - 1]) >= 0.0
    requires 3.0 * Weight(durations, order[|order| - 1]) > m
    requires forall s :: s in order ==> Weight(durations, s) >= Weight(durations, order[|order| - 1])
    ensures var last := |order| - 1; var load := Greedy(order[..last], durations, count).load;
      load[Lightest(load)] + Weight(durations, order[last]) <= m
  {
    var last := |order| - 1;
    var p := Weight(durations, order[last]);
    var load := Greedy(order[..last], durations, count).load;
    if load[Lightest(load)] + p > m {
      SecondsMonotone(order, durations, other, other[order[last]], last);
      assert 0.0 < p <= Seconds(order, durations, other, other[order[last]]) <= m;
      assert Weight(Graded(order, durations, m, p), order[last]) >= 1.0;
      NoDuplicatesSplit(order, last);
      GreedyGrades(order[..last], order, durations, count, m, p);
      OtherGrades(order, durations, count, other, m, p);
      assert false;
    }
  }

  /** Greedy, short of room for one more `p` everywhere, has grade 2 or more on every shard. */
  lemma GreedyGrades(order: seq<string>, all: seq<string>, durations: map<string, real>, count: nat, m: real, p: real)
    requires count > 0 && NoDuplicates(order) && 3.0 * p > m >= p > 0.0
    requires forall s :: s in order ==> s in all && Weight(durations, s) >= p
    requires var load := Greedy(order, durations, count).load; load[Lightest(load)] > m - p
    ensures Total(order, Graded(all, durations, m, p)) >= Times(2.0, count)
  {
    var g := Greedy(order, durations, count);
    var graded := Graded(all, durations, m, p);
    LightestIsLeast(g.load, Lightest(g.load));
    forall k | 1 <= k <= count ensures 2.0 <= Seconds(order, graded, g.plan, k) {
      LoadIsSeconds(order, durations, count, k - 1);
      assert g.load[k - 1] > m - p;
      GradeShard(order, all, durations, g.plan, k, m, p);
    }
    SumShardsAtLeast(order, graded, g.plan, count, 2.0);
    GreedyPlaces(order, durations, count);
    ShardsCarryTotal(order, graded, g.plan, count);
  }

  lemma OtherGrades(order: seq<string>, durations: map<string, real>, count: nat, other: map<string, nat>, m: real,
                    p: real)
    requires 3.0 * p > m >= p > 0.0
    requires Fits(other, order, durations, count, m)
    requires forall s :: s in order ==> Weight(durations, s) >= p
    ensures Total(order, Graded(order, durations, m, p)) <= Times(2.0, count)
  {
    var graded := Graded(order, durations, m, p);
    forall k | 1 <= k <= count ensures Seconds(order, graded, other, k) <= 2.0 {
      GradeShard(order, order, durations, other, k, m, p);
    }
    SumShardsAtMost(order, graded, other, count, 2.0);
    ShardsCarryTotal(order, graded, other, count);
  }

  ghost predicate HeaviestFirst(order: seq<string>, durations: map<string, real>) {
    forall i, j :: 0 <= i < j < |order| ==> Weight(durations, order[i]) >= Weight(durations, order[j])
  }

  ghost predicate NonNegative(order: seq<string>, durations: map<string, real>) {
    forall s :: s in order ==> Weight(durations, s) >= 0.0
  }

  /** Only the shard just given a spec can break the bound, and it does not. */
  lemma PlacementWithinBound(order: seq<string>, durations: map<string, real>, count: nat, other: map<string, nat>,
                             m: real)
    requires count > 0 && order != [] && NoDuplicates(order)
    requires HeaviestFirst(order, durations) && NonNegative(order, durations)
    requires Fits(other, order, durations, count, m)
    ensures var last := |order| - 1; var load := Greedy(order[..last], durations, count).load;
      WithinBound(load[Lightest(load)] + Weight(durations, order[last]), m, count)
  {
    hide Greedy, Seconds, NoDuplicates, Places, WithinBound, Lightest;
    var last := |order| - 1;
    var load := Greedy(order[..last], durations, count).load;
    var w := Weight(durations, order[last]);
    if 3.0 * w <= m {
      AverageStep(order, durations, count, other, m);
      LightArithmetic(load[Lightest(load)], w, m, count);
    } else {
      HeavyStep(order, durations, count, other, m);
      SecondsMonotone(order, durations, other, 1, 0);
      HeavyArithmetic(load[Lightest(load)] + w, m, count);
    }
  }

  lemma {:induction false} GreedyWithinBound(order: seq<string>, durations: map<string, real>, count: nat,
                                             other: map<string, nat>, m: real, k: nat)
    requires k < count && NoDuplicates(order)
    requires HeaviestFirst(order, durations) && NonNegative(order, durations)
    requires Fits(other, order, durations, count, m)
    ensures WithinBound(Greedy(order, durations, count).load[k], m, count)
  {
    if order == [] {
      SecondsMonotone(order, durations, other, 1, 0);
      HeavyArithmetic(0.0, m, count);
    } else {
      var last := |order| - 1;
      forall j | 1 <= j <= count ensures Seconds(order[..last], durations, other, j) <= m {
        SecondsMonotone(order, durations, other, j, last);
      }
      NoDuplicatesSplit(order, last);
      GreedyWithinBound(order[..last], durations, count, other, m, k);
      PlacementWithinBound(order, durations, count, other, m);
    }
  }

  // ----- What the order of the spec list does not change

  lemma {:induction false} SecondsConcat(a: seq<string>, b: seq<string>, durations: map<string, real>,
                                         plan: map<string, nat>, shard: nat)
    ensures Seconds(a + b, durations, plan, shard)
         == Seconds(a, durations, plan, shard) + Seconds(b, durations, plan, shard)
  {
    if b == [] {
      assert a + b == a;
    } else {
      assert (a + b)[..|a + b| - 1] == a + b[..|b| - 1];
      SecondsConcat(a, b[..|b| - 1], durations, plan, shard);
    }
  }

  lemma SecondsWithout(a: seq<string>, j: nat, durations: map<string, real>, plan: map<string, nat>, shard: nat)
    requires j < |a|
    ensures Seconds(a, durations, plan, shard)
         == Seconds(Without(a, j), durations, plan, shard) + Seconds([a[j]], durations, plan, shard)
  {
    assert a == a[..j] + ([a[j]] + a[j + 1..]);
    SecondsConcat(a[..j], [a[j]] + a[j + 1..], durations, plan, shard);
    SecondsConcat([a[j]], a[j + 1..], durations, plan, shard);
    SecondsConcat(a[..j], a[j + 1..], durations, plan, shard);
  }

  lemma {:induction false} SecondsPermutation(a: seq<string>, b: seq<string>, durations: map<string, real>,
                                              plan: map<string, nat>, shard: nat)
    requires multiset(a) == multiset(b)
    ensures Seconds(a, durations, plan, shard) == Seconds(b, durations, plan, shard)
  {
    SameLength(a, b);
    if a != [] {
      SameMember(a, b, a[0]);
      var j :| 0 <= j < |b| && b[j] == a[0];
      SecondsWithout(a, 0, durations, plan, shard);
      SecondsWithout(b, j, durations, plan, shard);
      SecondsPermutation(Without(a, 0), Without(b, j), durations, plan, shard);
    }
  }

  lemma ScheduleOrderTotal(durations: map<string, real>)
    ensures TotalPreorder(ScheduleOrder(durations)) && Antisymmetric(ScheduleOrder(durations))
  {
    StringOrder();
    var leq := ScheduleOrder(durations);
    forall a, b ensures leq(a, b) || leq(b, a) { assert StringLeq(a, b) || StringLeq(b, a); }
    forall a, b | leq(a, b) && leq(b, a) ensures a == b {}
    forall a, b, c | leq(a, b) && leq(b, c) ensures leq(a, c) {}
  }

  lemma Scheduled(specs: seq<string>, durations: map<string, real>) returns (order: seq<string>)
    requires NoDuplicates(specs)
    ensures order == Sort(ScheduleOrder(durations), specs)
    ensures multiset(order) == multiset(specs) && NoDuplicates(order) && HeaviestFirst(order, durations)
  {
    order := Sort(ScheduleOrder(durations), specs);
    ScheduleOrderTotal(durations);
    SortSorted(ScheduleOrder(durations), specs);
    forall i, j | 0 <= i < j < |order| ensures Weight(durations, order[i]) >= Weight(durations, order[j]) {
      assert ScheduleOrder(durations)(order[i], order[j]);
    }
  }

  lemma AssignedSeconds(specs: seq<string>, durations: map<string, real>, count: nat, shard: nat)
    requires NoDuplicates(specs) && 1 <= shard <= count
    ensures Seconds(specs, durations, Assigned(specs, durations, count), shard)
         == Greedy(Sort(ScheduleOrder(durations), specs), durations, count).load[shard - 1]
  {
    hide Seconds, NoDuplicates, Sort, Greedy, HeaviestFirst;
    var order := Scheduled(specs, durations);
    LoadIsSeconds(order, durations, count, shard - 1);
    SecondsPermutation(specs, order, durations, Assigned(specs, durations, count), shard);
  }

  /** `assign` gives every spec exactly one shard number from 1 to `count`, and nothing else a number. */
  lemma AssignedPlaces(specs: seq<string>, durations: map<string, real>, count: nat)
    requires count > 0
    ensures Places(Assigned(specs, durations, count), specs, count)
    ensures forall s :: s in Assigned(specs, durations, count) ==> s in specs
  {
    var order := Sort(ScheduleOrder(durations), specs);
    GreedyPlaces(order, durations, count);
    forall s ensures s in order <==> s in specs { SameMember(order, specs, s); }
  }

  /** The order in which the specs are listed does not change the plan. */
  lemma AssignedIgnoresOrder(a: seq<string>, b: seq<string>, durations: map<string, real>, count: nat)
    requires count > 0 && multiset(a) == multiset(b)
    ensures Assigned(a, durations, count) == Assigned(b, durations, count)
  {
    ScheduleOrderTotal(durations);
    SortCanonical(ScheduleOrder(durations), a, b);
  }

  lemma FitsPermutation(specs: seq<string>, order: seq<string>, durations: map<string, real>, count: nat,
                        other: map<string, nat>, m: real)
    requires multiset(order) == multiset(specs)
    requires NonNegative(specs, durations) && Fits(other, specs, durations, count, m)
    ensures NonNegative(order, durations) && Fits(other, order, durations, count, m)
  {
    forall s | s in order ensures s in specs { SameMember(order, specs, s); }
    forall k | 1 <= k <= count ensures Seconds(order, durations, other, k) <= m {
      SecondsPermutation(specs, order, durations, other, k);
    }
  }

  lemma AssignedWithinBound(specs: seq<string>, durations: map<string, real>, count: nat,
                            other: map<string, nat>, m: real, shard: nat)
    requires NoDuplicates(specs) && NonNegative(specs, durations) && 1 <= shard <= count
    requires Fits(other, specs, durations, count, m)
    ensures WithinBound(Seconds(specs, durations, Assigned(specs, durations, count), shard), m, count)
  {
    hide Greedy, Seconds, NoDuplicates, WithinBound, Sort, HeaviestFirst, NonNegative, Fits;
    var order := Scheduled(specs, durations);
    FitsPermutation(specs, order, durations, count, other, m);
    GreedyWithinBound(order, durations, count, other, m, shard - 1);
    AssignedSeconds(specs, durations, count, shard);
  }

  /** The heaviest shard `assign` builds is at most 4/3 - 1/(3 * count) times the heaviest
      shard of any other assignment: `m` bounds the other's shards. */
  lemma HeaviestShardBound(specs: seq<string>, durations: map<string, real>, count: nat,
                           other: map<string, nat>, m: real, shard: nat)
    requires NoDuplicates(specs) && NonNegative(specs, durations) && 1 <= shard <= count
    requires Fits(other, specs, durations, count, m)
    ensures Seconds(specs, durations, Assigned(specs, durations, count), shard)
         <= (4.0 / 3.0 - 1.0 / (3.0 * count as real)) * m
  {
    AssignedWithinBound(specs, durations, count, other, m, shard);
    Fraction(Seconds(specs, durations, Assigned(specs, durations, count), shard), m, count);
  }

  lemma Fraction(load: real, m: real, count: nat)
    requires count > 0 && WithinBound(load, m, count)
    ensures load <= (4.0 / 3.0 - 1.0 / (3.0 * count as real)) * m
  {
    TimesIsProduct(load, count);
    TimesIsProduct(m, count);
    var n := 3.0 * count as real;
    var f := 4.0 / 3.0 - 1.0 / n;
    assert n * f == 4.0 * count as real - 1.0 by {
      assert n * (1.0 / n) == 1.0;
    }
    if load > f * m {
      Strict(n, f * m, load);
      assert n * (f * m) == (n * f) * m;
    }
  }

  lemma Strict(c: real, a: real, b: real)
    requires c > 0.0 && a < b
    ensures c * a < c * b
  {}

  // ----- No two shards differ by more than one spec

  ghost predicate WeightsUpTo(specs: seq<string>, durations: map<string, real>, heaviest: real) {
    forall s :: s in specs ==> 0.0 <= Weight(durations, s) <= heaviest
  }

  lemma {:induction false} LoadsBalanced(order: seq<string>, durations: map<string, real>, count: nat,
                                         heaviest: real, j: nat, k: nat)
    requires j < count && k < count && 0.0 <= heaviest && WeightsUpTo(order, durations, heaviest)
    ensures var load := Greedy(order, durations, count).load; load[j] - load[k] <= heaviest
  {
    if order != [] {
      var before := Greedy(order[..|order| - 1], durations, count).load;
      LightestIsLeast(before, Lightest(before));
      LoadsBalanced(order[..|order| - 1], durations, count, heaviest, j, k);
      LoadsBalanced(order[..|order| - 1], durations, count, heaviest, j, Lightest(before));
    }
  }

  /** Any two shards differ by at most the largest weight. */
  lemma ShardsBalanced(specs: seq<string>, durations: map<string, real>, count: nat, heaviest: real, i: nat, j: nat)
    requires NoDuplicates(specs) && 1 <= i <= count && 1 <= j <= count
    requires 0.0 <= heaviest && WeightsUpTo(specs, durations, heaviest)
    ensures var plan := Assigned(specs, durations, count);
      Seconds(specs, durations, plan, i) - Seconds(specs, durations, plan, j) <= heaviest
  {
    hide NoDuplicates, Seconds, Sort;
    var order := Scheduled(specs, durations);
    AssignedSeconds(specs, durations, count, i);
    AssignedSeconds(specs, durations, count, j);
    assert WeightsUpTo(order, durations, heaviest) by {
      forall s | s in order ensures s in specs { SameMember(order, specs, s); }
    }
    LoadsBalanced(order, durations, count, heaviest, i - 1, j - 1);
  }

  // ----- Recorded and unrecorded specs

  /** The specs on `shard` whose seconds are recorded. */
  function RecordedSeconds(specs: seq<string>, durations: map<string, real>, plan: map<string, nat>, shard: nat): real {
    if specs == [] then 0.0
    else
      var s := specs[|specs| - 1];
      RecordedSeconds(specs[..|specs| - 1], durations, plan, shard)
      + if s in plan && plan[s] == shard && s in durations then durations[s] else 0.0
  }

  /** How many specs on `shard` have no record. */
  function Unrecorded(specs: seq<string>, durations: map<string, real>, plan: map<string, nat>, shard: nat): nat {
    if specs == [] then 0
    else
      var s := specs[|specs| - 1];
      Unrecorded(specs[..|specs| - 1], durations, plan, shard)
      + if s in plan && plan[s] == shard && s !in durations then 1 else 0
  }

  /** A spec without a record counts 12 seconds. */
  function ShardSeconds(specs: seq<string>, durations: map<string, real>, plan: map<string, nat>, shard: nat): real {
    RecordedSeconds(specs, durations, plan, shard) + 12.0 * Unrecorded(specs, durations, plan, shard) as real
  }

  lemma {:induction false} SecondsOfRecords(specs: seq<string>, durations: map<string, real>, plan: map<string, nat>,
                                            shard: nat)
    ensures Seconds(specs, durations, plan, shard) == ShardSeconds(specs, durations, plan, shard)
  {
    if specs != [] { SecondsOfRecords(specs[..|specs| - 1], durations, plan, shard); }
  }

  /** The bound in terms of what is recorded: 12 seconds for every spec without a record. */
  lemma RecordedBound(specs: seq<string>, durations: map<string, real>, count: nat, other: map<string, nat>, m: real,
                      shard: nat)
    requires NoDuplicates(specs) && 1 <= shard <= count && Places(other, specs, count)
    requires forall s :: s in specs && s in durations ==> durations[s] >= 0.0
    requires forall k :: 1 <= k <= count ==> ShardSeconds(specs, durations, other, k) <= m
    ensures ShardSeconds(specs, durations, Assigned(specs, durations, count), shard)
         <= (4.0 / 3.0 - 1.0 / (3.0 * count as real)) * m
  {
    hide ShardSeconds, NoDuplicates, Assigned;
    forall k | 1 <= k <= count ensures Seconds(specs, durations, other, k) <= m {
      SecondsOfRecords(specs, durations, other, k);
    }
    SecondsOfRecords(specs, durations, Assigned(specs, durations, count), shard);
    HeaviestShardBound(specs, durations, count, other, m, shard);
  }

  lemma {:induction false} UnrecordedSelected(specs: seq<string>, durations: map<string, real>, plan: map<string, nat>,
                                              shard: nat)
    requires forall s :: s in specs ==> s in plan && s !in durations
    ensures ShardSeconds(specs, durations, plan, shard) == 12.0 * |SelectedBy(specs, plan, shard)| as real
  {
    if specs != [] {
      var front, last := specs[..|specs| - 1], specs[|specs| - 1];
      assert specs == front + [last];
      UnrecordedSelected(front, durations, plan, shard);
      SelectedAppend(front, last, plan, shard);
    }
  }

  lemma {:induction false} SelectedAppend(front: seq<string>, last: string, plan: map<string, nat>, shard: nat)
    requires last in plan && forall s :: s in front ==> s in plan
    ensures SelectedBy(front + [last], plan, shard)
         == SelectedBy(front, plan, shard) + if plan[last] == shard then [last] else []
  {
    if front != [] {
      assert (front + [last])[1..] == front[1..] + [last];
      SelectedAppend(front[1..], last, plan, shard);
    }
  }

  /** How many of `t` specs shard `k` has when they are dealt out in turn. */
  function Share(t: nat, n: nat, k: nat): nat
    requires n > 0
  {
    t / n + if k < t % n then 1 else 0
  }

  lemma NextTurn(t: nat, n: nat)
    requires n > 0
    ensures if t % n + 1 < n then (t + 1) / n == t / n && (t + 1) % n == t % n + 1
            else (t + 1) / n == t / n + 1 && (t + 1) % n == 0
  {
    var q, r := t / n, t % n;
    assert t == q * n + r;
    if r + 1 < n { DivMod(t + 1, n, q, r + 1); } else { DivMod(t + 1, n, q + 1, 0); }
  }

  /** Specs without a record are dealt out in turn. */
  lemma {:induction false} GreedyDeals(order: seq<string>, durations: map<string, real>, n: nat)
    requires n > 0 && NoDuplicates(order) && forall s :: s in order ==> s !in durations
    ensures var p := Greedy(order, durations, n);
      && (forall k :: 0 <= k < n ==> p.load[k] == 12.0 * Share(|order|, n, k) as real)
      && forall i :: 0 <= i < |order| ==> order[i] in p.plan && p.plan[order[i]] == i % n + 1
  {
    if order != [] {
      var front, last := order[..|order| - 1], order[|order| - 1];
      assert order == front + [last];
      NoDuplicatesPrefix(front, [last]);
      GreedyDeals(front, durations, n);
      DealsNext(front, last, durations, n);
    } else {
      assert forall k :: 0 <= k < n ==> Share(0, n, k) == 0;
    }
  }

  lemma DealsNext(front: seq<string>, last: string, durations: map<string, real>, n: nat)
    requires n > 0 && NoDuplicates(front + [last]) && last !in durations
    requires var p := Greedy(front, durations, n);
      && (forall k :: 0 <= k < n ==> p.load[k] == 12.0 * Share(|front|, n, k) as real)
      && forall i :: 0 <= i < |front| ==> front[i] in p.plan && p.plan[front[i]] == i % n + 1
    ensures var order := front + [last]; var p := Greedy(order, durations, n);
      && (forall k :: 0 <= k < n ==> p.load[k] == 12.0 * Share(|order|, n, k) as real)
      && forall i :: 0 <= i < |order| ==> order[i] in p.plan && p.plan[order[i]] == i % n + 1
  {
    var order, before, turn := front + [last], Greedy(front, durations, n), |front| % n;
    assert order[..|order| - 1] == front;
    NoDuplicatesSplit(order, |front|);
    assert last !in front;
    assert IsLightest(before.load, turn);
    LightestIsLeast(before.load, turn);
    NextTurn(|front|, n);
  }

  lemma UnrecordedOrder(specs: seq<string>, durations: map<string, real>)
    requires forall s :: s in specs ==> s !in durations
    ensures Sort(ScheduleOrder(durations), specs) == Sort(StringLeq, specs)
  {
    var a, b := Sort(ScheduleOrder(durations), specs), Sort(StringLeq, specs);
    ScheduleOrderTotal(durations);
    StringOrder();
    SortSorted(ScheduleOrder(durations), specs);
    SortSorted(StringLeq, specs);
    forall i, j | 0 <= i < j < |a| ensures StringLeq(a[i], a[j]) {
      SameMember(a, specs, a[i]);
      SameMember(a, specs, a[j]);
      assert ScheduleOrder(durations)(a[i], a[j]);
    }
    SortedUnique(StringLeq, a, b);
  }

  // ----- One shard's plan

  datatype Manifest = Manifest(shard: nat, count: nat, specs: seq<string>, selected: seq<string>)

  function SelectedBy(specs: seq<string>, plan: map<string, nat>, shard: nat): (r: seq<string>)
    requires forall s :: s in specs ==> s in plan
    ensures forall s :: s in r <==> s in specs && plan[s] == shard
  {
    if specs == [] then []
    else (if plan[specs[0]] == shard then [specs[0]] else []) + SelectedBy(specs[1..], plan, shard)
  }

  /** The manifest `plan --shard i/n` writes; `found` is the directory walk, in any order. */
  function PlanManifest(found: seq<string>, durations: map<string, real>, i: nat, n: nat): Manifest
    requires 1 <= i <= n
  {
    var specs := Sort(StringLeq, found);
    AssignedPlaces(specs, durations, n);
    Manifest(i, n, specs, SelectedBy(specs, Assigned(specs, durations, n), i))
  }

  /** Without any record, as when there is no durations file, two shards differ by at most one spec. */
  lemma UnrecordedSpecsSpread(found: seq<string>, durations: map<string, real>, n: nat, i: nat, j: nat)
    requires NoDuplicates(found) && 1 <= i <= n && 1 <= j <= n && forall s :: s in found ==> s !in durations
    ensures |PlanManifest(found, durations, i, n).selected| <= |PlanManifest(found, durations, j, n).selected| + 1
  {
    hide NoDuplicates, Sort, Assigned, Seconds, ShardSeconds;
    var specs := Sort(StringLeq, found);
    var plan := Assigned(specs, durations, n);
    AssignedPlaces(specs, durations, n);
    forall s | s in specs ensures s in found { SameMember(specs, found, s); }
    SortedOnce(found);
    ShardsBalanced(specs, durations, n, 12.0, i, j);
    forall k | k in [i, j] ensures Seconds(specs, durations, plan, k) == 12.0 * |SelectedBy(specs, plan, k)| as real {
      SecondsOfRecords(specs, durations, plan, k);
      UnrecordedSelected(specs, durations, plan, k);
    }
    assert i in [i, j] && j in [i, j];
  }

  /** They are dealt out in turn, in the order of their names. */
  lemma UnrecordedSpecsDealt(found: seq<string>, durations: map<string, real>, n: nat, i: nat, k: nat)
    requires NoDuplicates(found) && 1 <= i <= n && forall s :: s in found ==> s !in durations
    requires k < |Sort(StringLeq, found)|
    ensures Sort(StringLeq, found)[k] in PlanManifest(found, durations, i, n).selected <==> k % n + 1 == i
  {
    hide NoDuplicates, Sort, Greedy;
    var specs := Sort(StringLeq, found);
    forall s | s in specs ensures s in found { SameMember(specs, found, s); }
    SortedOnce(found);
    UnrecordedOrder(specs, durations);
    StringOrder();
    SortCanonical(StringLeq, specs, found);
    GreedyDeals(specs, durations, n);
    AssignedPlaces(specs, durations, n);
  }

  lemma SortedOnce(found: seq<string>)
    requires NoDuplicates(found)
    ensures NoDuplicates(Sort(StringLeq, found))
  {}

  method CmdPlan(i: int, n: int, found: seq<string>, durations: map<string, real>) returns (r: Result<Manifest, string>)
    ensures r == if !(1 <= i <= n) then Err("--shard out of range")
                 else if found == [] then Err("no specs")
                 else Ok(PlanManifest(found, durations, i, n))
  {
    if !(1 <= i <= n) { return Err("--shard out of range"); }
    var specs := Sort(StringLeq, found);
    SameLength(specs, found);
    if specs == [] { return Err("no specs"); }
    var plan := Assign(specs, durations, n);
    AssignedPlaces(specs, durations, n);
    r := Ok(Manifest(i, n, specs, SelectedBy(specs, plan, i)));
  }

  lemma {:induction false} SelectedKeepsOrder(specs: seq<string>, plan: map<string, nat>, shard: nat)
    requires forall s :: s in specs ==> s in plan
    requires Sorted(StringLeq, specs) && NoDuplicates(specs)
    ensures Sorted(StringLeq, SelectedBy(specs, plan, shard)) && NoDuplicates(SelectedBy(specs, plan, shard))
  {
    if specs != [] {
      NoDuplicatesSplit(specs, 0);
      SelectedKeepsOrder(specs[1..], plan, shard);
      var rest := SelectedBy(specs[1..], plan, shard);
      forall j | 0 <= j < |rest| ensures StringLeq(specs[0], rest[j]) {
        assert rest[j] in specs[1..];
      }
      assert specs[0] !in multiset(rest);
    }
  }

  /** A plan made from any walk of the same specs, against the plan they share. */
  lemma PlanManifestIs(found: seq<string>, reference: seq<string>, durations: map<string, real>, i: nat, n: nat)
    requires 1 <= i <= n && multiset(found) == multiset(reference) && NoDuplicates(reference)
    ensures var m := PlanManifest(found, durations, i, n); var specs := Sort(StringLeq, reference);
      && m == PlanManifest(reference, durations, i, n)
      && (m.shard, m.count, m.specs) == (i, n, specs)
      && Sorted(StringLeq, m.selected) && NoDuplicates(m.selected)
  {
    StringOrder();
    SortCanonical(StringLeq, found, reference);
    SortSorted(StringLeq, reference);
    var specs := Sort(StringLeq, reference);
    AssignedPlaces(specs, durations, n);
    SelectedKeepsOrder(specs, Assigned(specs, durations, n), i);
  }

  lemma PlanManifestSelects(found: seq<string>, reference: seq<string>, durations: map<string, real>, i: nat, n: nat,
                            s: string)
    requires 1 <= i <= n && multiset(found) == multiset(reference) && NoDuplicates(reference)
    ensures var plan := Assigned(Sort(StringLeq, reference), durations, n);
      s in PlanManifest(found, durations, i, n).selected <==> s in reference && s in plan && plan[s] == i
    ensures var plan := Assigned(Sort(StringLeq, reference), durations, n);
      s in reference ==> (s in plan && 1 <= plan[s] <= n)
  {
    PlanManifestIs(found, reference, durations, i, n);
    AssignedPlaces(Sort(StringLeq, reference), durations, n);
    SameMember(Sort(StringLeq, reference), reference, s);
  }

  ghost predicate SameSpecs(found: seq<seq<string>>) {
    && found != [] && NoDuplicates(found[0])
    && forall k :: 0 <= k < |found| ==> multiset(found[k]) == multiset(found[0])
  }

  /** The manifests of shards 1 to n, whose selections are disjoint, cover `specs` and keep the
      order of the full run. */
  ghost predicate PartitionOf(ms: seq<Manifest>, specs: seq<string>) {
    && ms != []
    && (forall k :: 0 <= k < |ms| ==> ShardOf(ms[k], k + 1, |ms|, specs))
    && (forall j, k :: 0 <= j < k < |ms| ==> Disjoint(ms[j], ms[k]))
    && (forall s :: s in specs ==> exists k :: 0 <= k < |ms| && s in ms[k].selected)
  }

  ghost predicate ShardOf(m: Manifest, i: nat, n: nat, specs: seq<string>) {
    && (m.shard, m.count, m.specs) == (i, n, specs)
    && Sorted(StringLeq, m.selected) && NoDuplicates(m.selected)
    && forall s :: s in m.selected ==> s in specs
  }

  ghost predicate Disjoint(a: Manifest, b: Manifest) {
    forall s :: s in a.selected ==> s !in b.selected
  }

  lemma PlanManifestShard(found: seq<string>, reference: seq<string>, durations: map<string, real>, i: nat, n: nat)
    requires 1 <= i <= n && multiset(found) == multiset(reference) && NoDuplicates(reference)
    ensures ShardOf(PlanManifest(found, durations, i, n), i, n, Sort(StringLeq, reference))
  {
    PlanManifestIs(found, reference, durations, i, n);
    forall s | s in PlanManifest(found, durations, i, n).selected ensures s in Sort(StringLeq, reference) {
      PlanManifestSelects(found, reference, durations, i, n, s);
      SameMember(Sort(StringLeq, reference), reference, s);
    }
  }

  lemma PlanManifestsDisjoint(found: seq<string>, other: seq<string>, reference: seq<string>,
                              durations: map<string, real>, i: nat, j: nat, n: nat)
    requires 1 <= i < j <= n && NoDuplicates(reference)
    requires multiset(found) == multiset(reference) == multiset(other)
    ensures Disjoint(PlanManifest(found, durations, i, n), PlanManifest(other, durations, j, n))
  {
    forall s | s in PlanManifest(found, durations, i, n).selected
      ensures s !in PlanManifest(other, durations, j, n).selected {
      PlanManifestSelects(found, reference, durations, i, n, s);
      PlanManifestSelects(other, reference, durations, j, n, s);
    }
  }

  lemma PlanManifestsCover(found: seq<seq<string>>, durations: map<string, real>, s: string) returns (k: nat)
    requires SameSpecs(found) && s in Sort(StringLeq, found[0])
    ensures k < |found| && s in PlanManifest(found[k], durations, k + 1, |found|).selected
  {
    SameMember(Sort(StringLeq, found[0]), found[0], s);
    PlanManifestSelects(found[0], found[0], durations, 1, |found|, s);
    k := Assigned(Sort(StringLeq, found[0]), durations, |found|)[s] - 1;
    PlanManifestSelects(found[k], found[0], durations, k + 1, |found|, s);
  }

  /** Shards that plan on their own, each from its own directory walk of the same specs, write
      manifests that partition the sorted spec list. */
  lemma IndependentPlansPartition(found: seq<seq<string>>, durations: map<string, real>, ms: seq<Manifest>)
    requires SameSpecs(found) && |ms| == |found|
    requires forall k :: 0 <= k < |ms| ==> ms[k] == PlanManifest(found[k], durations, k + 1, |found|)
    ensures PartitionOf(ms, Sort(StringLeq, found[0]))
  {
    var specs := Sort(StringLeq, found[0]);
    forall k | 0 <= k < |ms| ensures ShardOf(ms[k], k + 1, |ms|, specs) {
      PlanManifestShard(found[k], found[0], durations, k + 1, |found|);
    }
    forall j, k | 0 <= j < k < |ms| ensures Disjoint(ms[j], ms[k]) {
      PlanManifestsDisjoint(found[j], found[k], found[0], durations, j + 1, k + 1, |found|);
    }
    forall s | s in specs ensures exists k :: 0 <= k < |ms| && s in ms[k].selected {
      var k := PlanManifestsCover(found, durations, s);
      assert s in ms[k].selected;
    }
  }
}
