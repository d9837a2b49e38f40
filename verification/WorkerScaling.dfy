/** Queue-depth scaling of one worker class: cdk/workerClasses.ts, the scale-out tier loop and the
    two capacity alarms of `createWorkerClasses`.

    Depths and counts are non-negative. A metric that was not reported in a period is None, and an
    expression over it has no value in that period. */
module WorkerScaling {
  import opened Arithmetic
  import opened Wrappers

  const OUT_THRESHOLD: int := 1
  const IN_THRESHOLD: int := 0

  /** What the class table and the context set; all are positive integers. */
  datatype Settings = Settings(maxCapacity: nat, jobsPerWorker: nat, outPeriods: nat, inPeriods: nat) {
    predicate Valid() {
      maxCapacity > 0 && jobsPerWorker > 0 && outPeriods > 0 && inPeriods > 0
    }
  }

  // ----- The step adjustments

  /** Bounds are relative to the alarm's threshold; a tier without an upper bound is open. */
  datatype Tier = Tier(lower: int, upper: Option<int>, adjustment: nat)

  predicate Applies(t: Tier, offset: int) {
    t.lower <= offset && (t.upper.Some? ==> offset < t.upper.value)
  }

  ghost predicate TiersFor(s: Settings, tiers: seq<Tier>) {
    && |tiers| == s.maxCapacity
    && forall i :: 0 <= i < |tiers| ==> tiers[i] == TierAt(s, i)
  }

  ghost function TierAt(s: Settings, i: nat): Tier {
    Tier(i * s.jobsPerWorker, if i + 1 < s.maxCapacity then Some((i + 1) * s.jobsPerWorker) else None, i + 1)
  }

  method AddTiers(s: Settings) returns (tiers: seq<Tier>)
    ensures TiersFor(s, tiers)
  {
    tiers := [];
    for n := 1 to s.maxCapacity + 1
      invariant |tiers| == n - 1
      invariant forall i :: 0 <= i < |tiers| ==> tiers[i] == TierAt(s, i)
    {
      var upper := if n < s.maxCapacity then Some(n * s.jobsPerWorker) else None;
      tiers := tiers + [Tier((n - 1) * s.jobsPerWorker, upper, n)];
    }
  }

  function Least(a: nat, b: nat): nat {
    if a <= b then a else b
  }

  /** Workers for a depth: one per `jobsPerWorker` jobs, the last one perhaps not full. */
  function Wanted(s: Settings, depth: nat): nat
    requires s.Valid()
  {
    Least(s.maxCapacity, (depth + s.jobsPerWorker - 1) / s.jobsPerWorker)
  }

  /** The rounded-up quotient is above `i` exactly when `i` workers are too few. */
  lemma Ceiling(depth: nat, j: nat, i: nat)
    requires j > 0
    ensures i * j < depth <==> i < (depth + j - 1) / j
  {
    QuotientAbove(depth, j, (depth + j - 1) / j, (depth + j - 1) % j, i);
  }

  lemma QuotientAbove(depth: nat, j: nat, q: nat, r: nat, i: nat)
    requires depth + j == q * j + r + 1 && r < j
    ensures i * j < depth <==> i < q
  {
    if i < q { MulStep(i, q, j); }
    if q < i { MulStep(q, i, j); }
  }

  /** The tiers are disjoint, cover every depth that can raise the alarm, and ask for one worker per
      `jobsPerWorker` jobs, up to the maximum. */
  lemma TiersExact(s: Settings, tiers: seq<Tier>, depth: nat, i: nat)
    requires s.Valid() && TiersFor(s, tiers) && depth >= OUT_THRESHOLD && i < |tiers|
    ensures Applies(tiers[i], depth - OUT_THRESHOLD) <==> i == Wanted(s, depth) - 1
    ensures tiers[i].adjustment == i + 1 && 1 <= Wanted(s, depth) <= |tiers|
  {
    var offset, j := depth - OUT_THRESHOLD, s.jobsPerWorker;
    Ceiling(depth, j, i);
    Ceiling(depth, j, i + 1);
    Ceiling(depth, j, 0);
    assert tiers[i] == TierAt(s, i);
  }

  // ----- The alarms

  /** One period's datapoints. */
  datatype Sample = Sample(demand: Option<nat>, leased: Option<nat>, parked: Option<nat>)

  predicate OutBreach(p: Sample) {
    p.demand.Some? && p.demand.value >= OUT_THRESHOLD
  }

  /** demand + leased + parked at or below the threshold, when all three are reported. */
  predicate InBreach(p: Sample) {
    && p.demand.Some? && p.leased.Some? && p.parked.Some?
    && p.demand.value + p.leased.value + p.parked.value <= IN_THRESHOLD
  }

  /** The alarm stands after period `t`: each of the last `n` periods breached. A period without data
      does not breach. */
  predicate ScaleOut(s: Settings, trace: seq<Sample>, t: nat)
    requires t < |trace|
  {
    t + 1 >= s.outPeriods && forall i :: t + 1 - s.outPeriods <= i <= t ==> OutBreach(trace[i])
  }

  predicate ScaleIn(s: Settings, trace: seq<Sample>, t: nat)
    requires t < |trace|
  {
    t + 1 >= s.inPeriods && forall i :: t + 1 - s.inPeriods <= i <= t ==> InBreach(trace[i])
  }

  /** The group's capacity after `t` periods: each alarm that stands sets an exact capacity, first out,
      then in. */
  function Capacity(s: Settings, start: nat, trace: seq<Sample>, t: nat): nat
    requires s.Valid() && t <= |trace|
  {
    if t == 0 then start
    else
      var before := Capacity(s, start, trace, t - 1);
      var out := if ScaleOut(s, trace, t - 1) then Wanted(s, trace[t - 1].demand.value) else before;
      if ScaleIn(s, trace, t - 1) then 0 else out
  }

  // ----- No flapping

  /** The alarms never stand together, so the order of their actions does not matter. */
  lemma NeverBoth(s: Settings, trace: seq<Sample>, t: nat)
    requires s.Valid() && t < |trace|
    ensures !(ScaleOut(s, trace, t) && ScaleIn(s, trace, t))
  {
    assert !(OutBreach(trace[t]) && InBreach(trace[t]));
  }

  /** After either alarm stood, the other needs a whole window of its own. */
  lemma WindowsApart(s: Settings, trace: seq<Sample>, t: nat, u: nat)
    requires s.Valid() && t < u < |trace|
    ensures ScaleOut(s, trace, t) && ScaleIn(s, trace, u) ==> u - t >= s.inPeriods
    ensures ScaleIn(s, trace, t) && ScaleOut(s, trace, u) ==> u - t >= s.outPeriods
  {
    assert !(OutBreach(trace[t]) && InBreach(trace[t]));
  }

  ghost predicate AllReportedZero(p: Sample) {
    p == Sample(Some(0), Some(0), Some(0))
  }

  /** A standing group is stopped exactly after `inPeriods` periods that each reported nothing queued,
      nothing leased and nothing parked; unreported terms never count as nothing. */
  lemma StoppedExactlyWhenIdle(s: Settings, start: nat, trace: seq<Sample>, t: nat)
    requires s.Valid() && t < |trace| && Capacity(s, start, trace, t) > 0
    ensures Capacity(s, start, trace, t + 1) == 0
       <==> t + 1 >= s.inPeriods && forall i :: t + 1 - s.inPeriods <= i <= t ==> AllReportedZero(trace[i])
  {}

  /** No alarm stood in the periods from `k` to `t`. */
  predicate Quiet(s: Settings, trace: seq<Sample>, k: nat, t: nat)
    requires t <= |trace|
  {
    forall i :: k <= i < t ==> !ScaleOut(s, trace, i) && !ScaleIn(s, trace, i)
  }

  lemma {:induction false} QuietKeeps(s: Settings, start: nat, trace: seq<Sample>, k: nat, t: nat)
    requires s.Valid() && k <= t <= |trace| && Quiet(s, trace, k, t)
    ensures Capacity(s, start, trace, t) == Capacity(s, start, trace, k)
  {
    if k < t { QuietKeeps(s, start, trace, k, t - 1); }
  }

  /** The capacity is what the last standing alarm asked for: 0, or the workers for the depth it saw. */
  lemma LastAlarmDecides(s: Settings, start: nat, trace: seq<Sample>, k: nat, t: nat)
    requires s.Valid() && k < t <= |trace| && Quiet(s, trace, k + 1, t)
    ensures ScaleIn(s, trace, k) ==> Capacity(s, start, trace, t) == 0
    ensures ScaleOut(s, trace, k) ==> Capacity(s, start, trace, t) == Wanted(s, trace[k].demand.value)
  {}

  predicate NoScaleOut(s: Settings, trace: seq<Sample>, from: nat, t: nat)
    requires t <= |trace|
  {
    forall i :: from <= i < t ==> !ScaleOut(s, trace, i)
  }

  /** The scale-in alarm stood in period `k`, and no scale-out followed. */
  ghost predicate IdleSince(s: Settings, trace: seq<Sample>, k: nat, t: nat)
    requires t <= |trace|
  {
    k < t && ScaleIn(s, trace, k) && NoScaleOut(s, trace, k + 1, t)
  }

  /** Over every trace the group is at 0 exactly when it began there and was never scaled out, or an
      idle window stopped it and no demand has raised it since. */
  lemma {:induction false} ZeroExactlyWhenIdle(s: Settings, start: nat, trace: seq<Sample>, t: nat)
    requires s.Valid() && t <= |trace|
    ensures Capacity(s, start, trace, t) == 0
       <==> (start == 0 && NoScaleOut(s, trace, 0, t)) || exists k: nat :: IdleSince(s, trace, k, t)
  {
    if t > 0 {
      var last := t - 1;
      ZeroExactlyWhenIdle(s, start, trace, last);
      NeverBoth(s, trace, last);
      if ScaleOut(s, trace, last) { Ceiling(trace[last].demand.value, s.jobsPerWorker, 0); }
      if ScaleIn(s, trace, last) { assert IdleSince(s, trace, last, t); }
      forall k: nat | k < last
        ensures IdleSince(s, trace, k, t) <==> IdleSince(s, trace, k, last) && !ScaleOut(s, trace, last) {}
    }
  }

  lemma {:induction false} CapacityInRange(s: Settings, start: nat, trace: seq<Sample>, t: nat)
    requires s.Valid() && t <= |trace| && start <= s.maxCapacity
    ensures Capacity(s, start, trace, t) <= s.maxCapacity
  {
    if t > 0 { CapacityInRange(s, start, trace, t - 1); }
  }

  /** `periods` periods up to and with `t`, each of which reported at least one queued job. */
  ghost predicate Queued(periods: nat, trace: seq<Sample>, t: nat)
    requires t < |trace|
  {
    && t + 1 >= periods
    && forall i :: t + 1 - periods <= i <= t ==> trace[i].demand.Some? && trace[i].demand.value > 0
  }

  /** A stopped group is started exactly by `outPeriods` periods that each reported a queued job, whatever
      the depths were; a period without a report starts nothing. */
  lemma StartedExactlyWhenQueued(s: Settings, start: nat, trace: seq<Sample>, t: nat)
    requires s.Valid() && t < |trace| && Capacity(s, start, trace, t) == 0
    ensures Capacity(s, start, trace, t + 1) > 0 <==> Queued(s.outPeriods, trace, t)
  {
    NeverBoth(s, trace, t);
    if ScaleOut(s, trace, t) { Ceiling(trace[t].demand.value, s.jobsPerWorker, 0); }
  }

  /** After such a window the group has the size for the depth reported last: enough workers for its jobs,
      or the maximum, and not one more than that takes. */
  lemma QueuedDemandIsServed(s: Settings, start: nat, trace: seq<Sample>, t: nat)
    requires s.Valid() && t < |trace| && Queued(s.outPeriods, trace, t)
    ensures var n, depth := Capacity(s, start, trace, t + 1), trace[t].demand.value;
      && 1 <= n <= s.maxCapacity
      && (n < s.maxCapacity ==> depth <= n * s.jobsPerWorker)
      && (n - 1) * s.jobsPerWorker < depth
  {
    NeverBoth(s, trace, t);
    var n, depth := Capacity(s, start, trace, t + 1), trace[t].demand.value;
    assert ScaleOut(s, trace, t) && n == Wanted(s, depth);
    Ceiling(depth, s.jobsPerWorker, 0);
    Ceiling(depth, s.jobsPerWorker, n);
    Ceiling(depth, s.jobsPerWorker, n - 1);
  }

  /** In every other period the group keeps its size, unless it is idle. */
  lemma KeptOtherwise(s: Settings, start: nat, trace: seq<Sample>, t: nat)
    requires s.Valid() && t < |trace| && !Queued(s.outPeriods, trace, t)
    ensures Capacity(s, start, trace, t + 1) == Capacity(s, start, trace, t) || Capacity(s, start, trace, t + 1) == 0
  {}

  /** Demand that stays at one depth for a window brings the group to the size for that depth and
      holds it there. */
  lemma SteadyDemandIsServed(s: Settings, start: nat, trace: seq<Sample>, from: nat, t: nat, depth: nat)
    requires s.Valid() && depth >= OUT_THRESHOLD && from + s.outPeriods <= t <= |trace|
    requires forall i :: from <= i < t ==> trace[i].demand == Some(depth)
    ensures Capacity(s, start, trace, t) == Wanted(s, depth)
  {}

  /** A deeper queue never asks for fewer workers. */
  lemma WantedGrows(s: Settings, a: nat, b: nat)
    requires s.Valid() && a <= b
    ensures Wanted(s, a) <= Wanted(s, b)
  {
    var j := s.jobsPerWorker;
    var i := (a + j - 1) / j - 1;
    if i >= 0 {
      Ceiling(a, j, i);
      Ceiling(b, j, i);
    }
  }
}
