/** The bound on `assign` of ci/local/e2e_shards.py cannot be improved, for any number of shards: n shards
    and specs of 2n-1, 2n-1, 2n-2, 2n-2, ..., n+1, n+1, n, n and n seconds. They fit in 3n seconds a
    shard, and `assign` needs 4n-1. */
module ShardTight {
  import opened Ordering
  import opened ShardPlan

  // ----- The specs

  /** The name of the spec at position `i`, so that names are in order. */
  function Name(i: nat): (s: string)
    ensures |s| == i
  {
    seq(i, _ => 'a')
  }

  function Specs(n: nat): (r: seq<string>)
    ensures |r| == 2 * n + 1 && forall i :: 0 <= i < |r| ==> r[i] == Name(i)
  {
    seq(2 * n + 1, i requires 0 <= i => Name(i))
  }

  /** Seconds of the spec at position `i`. */
  function Size(n: nat, i: nat): nat
    requires i <= 2 * n
  {
    if i == 2 * n then n else 2 * n - 1 - i / 2
  }

  function Durations(n: nat): map<string, real> {
    map s | s in Specs(n) :: Size(n, |s|) as real
  }

  lemma Weights(n: nat, i: nat)
    requires i <= 2 * n
    ensures Weight(Durations(n), Specs(n)[i]) == Size(n, i) as real
  {
    assert Specs(n)[i] in Specs(n);
  }

  lemma {:induction false} NamesInOrder(i: nat, j: nat)
    requires i <= j
    ensures StringLeq(Name(i), Name(j))
  {
    if i > 0 {
      NamesInOrder(i - 1, j - 1);
      assert Name(i)[1..] == Name(i - 1) && Name(j)[1..] == Name(j - 1);
    }
  }

  lemma SpecsInOrder(n: nat, i: nat, j: nat)
    requires i < j <= 2 * n
    ensures HeavierFirst(Durations(n), Specs(n)[i], Specs(n)[j]) && Specs(n)[i] != Specs(n)[j]
  {
    hide Durations, Weight, StringLeq, Name, Specs, Size;
    Weights(n, i);
    Weights(n, j);
    SizesFall(n, i, j);
    NamesInOrder(i, j);
    assert Specs(n)[i] == Name(i) && Specs(n)[j] == Name(j);
  }

  lemma SizesFall(n: nat, i: nat, j: nat)
    requires i <= j <= 2 * n
    ensures Size(n, i) >= Size(n, j)
  {}

  /** The specs are listed in the order in which they are scheduled. */
  lemma SpecsScheduled(n: nat)
    ensures NoDuplicates(Specs(n)) && Sort(ScheduleOrder(Durations(n)), Specs(n)) == Specs(n)
  {
    hide Sort, NoDuplicates, HeavierFirst, Specs, Durations, TotalPreorder, Antisymmetric;
    var specs, leq := Specs(n), ScheduleOrder(Durations(n));
    forall i, j | 0 <= i < j < |specs| ensures leq(specs[i], specs[j]) && specs[i] != specs[j] {
      SpecsInOrder(n, i, j);
    }
    DistinctItems(specs);
    ScheduleOrderTotal(Durations(n));
    SortSorted(leq, specs);
    SortedUnique(leq, Sort(leq, specs), specs);
  }

  // ----- What `assign` does with them

  /** The other shard of a pair that got specs of equal weight first, or the same one when it has none. */
  function Twin(n: nat, k: nat): nat {
    if k % 2 == 1 then k - 1 else if k + 1 < n then k + 1 else k
  }

  /** Load of shard `k` after `i` placements: one spec each, and then a second one each, from the last
      pair of shards to the first. */
  function LoadAt(n: nat, i: nat, k: nat): int
    requires i <= 2 * n && k < n
  {
    if i <= n then if k < i then Size(n, k) else 0
    else if 2 * n - 1 - Twin(n, k) < i then 3 * n - 1 else Size(n, k)
  }

  function Chosen(n: nat, i: nat): (k: nat)
    requires i < 2 * n
    ensures k < n
  {
    if i < n then i else Twin(n, 2 * n - 1 - i)
  }

  lemma TwinIsTwin(n: nat, k: nat)
    requires k < n
    ensures Twin(n, k) < n && Twin(n, Twin(n, k)) == k && Size(n, Twin(n, k)) == Size(n, k)
  {}

  /** The shard that `assign` chooses is the lightest, and the first of those. */
  lemma ChosenIsLightest(n: nat, i: nat, k: nat)
    requires i < 2 * n && k < n
    ensures LoadAt(n, i, Chosen(n, i)) <= LoadAt(n, i, k)
    ensures k < Chosen(n, i) ==> LoadAt(n, i, Chosen(n, i)) < LoadAt(n, i, k)
  {
    TwinIsTwin(n, k);
    if i >= n { TwinIsTwin(n, 2 * n - 1 - i); }
  }

  lemma PlacementAdds(n: nat, i: nat, k: nat)
    requires i < 2 * n && k < n
    ensures LoadAt(n, i + 1, k) == LoadAt(n, i, k) + if k == Chosen(n, i) then Size(n, i) else 0
  {
    TwinIsTwin(n, k);
    if i >= n { TwinIsTwin(n, 2 * n - 1 - i); }
  }

  ghost predicate Holds(load: seq<real>, n: nat, i: nat)
    requires i <= 2 * n
  {
    |load| == n && forall k :: 0 <= k < n ==> load[k] == LoadAt(n, i, k) as real
  }

  lemma ChosenIs(load: seq<real>, n: nat, i: nat)
    requires i < 2 * n && Holds(load, n, i)
    ensures Lightest(load) == Chosen(n, i)
  {
    hide LoadAt, Chosen;
    var c := Chosen(n, i);
    forall k | 0 <= k < n ensures load[c] <= load[k] && (k < c ==> load[c] < load[k]) { ChosenIsLightest(n, i, k); }
    assert IsLightest(load, c);
    LightestIsLeast(load, c);
  }

  lemma StepHolds(load: seq<real>, n: nat, i: nat)
    requires i < 2 * n && Holds(load, n, i)
    ensures var c := Chosen(n, i); Holds(load[c := load[c] + Size(n, i) as real], n, i + 1)
  {
    hide LoadAt, Chosen, Size;
    forall k | 0 <= k < n { PlacementAdds(n, i, k); }
  }

  lemma NothingPlaced(n: nat)
    requires 0 < n
    ensures Holds(Greedy(Specs(n)[..0], Durations(n), n).load, n, 0)
  {}

  lemma OnePlaced(n: nat, i: nat)
    requires 0 < n && i < 2 * n && Holds(Greedy(Specs(n)[..i], Durations(n), n).load, n, i)
    ensures Holds(Greedy(Specs(n)[..i + 1], Durations(n), n).load, n, i + 1)
  {
    hide Greedy, Lightest, Holds, Durations, Size, Weight;
    var p := Greedy(Specs(n)[..i], Durations(n), n);
    Weights(n, i);
    GreedyStep(Specs(n), Durations(n), n, i);
    hide Specs;
    ChosenIs(p.load, n, i);
    StepHolds(p.load, n, i);
  }

  lemma {:induction false} Loads(n: nat, i: nat)
    requires 0 < n && i <= 2 * n
    ensures Holds(Greedy(Specs(n)[..i], Durations(n), n).load, n, i)
  {
    hide Greedy, Holds, Durations, Specs;
    if i == 0 {
      NothingPlaced(n);
    } else {
      Loads(n, i - 1);
      OnePlaced(n, i - 1);
    }
  }

  lemma AllDoubled(n: nat, k: nat)
    requires k < n
    ensures LoadAt(n, 2 * n, k) == 3 * n - 1 && Size(n, 2 * n) == n
  {
    TwinIsTwin(n, k);
  }

  /** The last spec goes on a shard that already holds 3n-1 seconds. */
  lemma FirstShardLoad(n: nat)
    requires 0 < n
    ensures Greedy(Specs(n), Durations(n), n).load[0] == (4 * n - 1) as real
  {
    hide LoadAt, Size, Durations, Twin, Lightest, Greedy;
    var before := Greedy(Specs(n)[..2 * n], Durations(n), n).load;
    Loads(n, 2 * n);
    Weights(n, 2 * n);
    GreedyStep(Specs(n), Durations(n), n, 2 * n);
    assert Specs(n)[..2 * n + 1] == Specs(n);
    forall k | 0 <= k < n ensures before[k] == (3 * n - 1) as real { AllDoubled(n, k); }
    assert IsLightest(before, 0);
    LightestIsLeast(before, 0);
    AllDoubled(n, 0);
  }

  // ----- A better assignment

  function OtherShard(n: nat, i: nat): nat {
    if i + 2 >= 2 * n then n else if i < n - 1 then i + 1 else 2 * n - 2 - i
  }

  function Other(n: nat): map<string, nat> {
    map s | s in Specs(n) :: OtherShard(n, |s|)
  }

  /** Seconds of shard `k` among the first `i` specs: two specs each, and three on the last shard. */
  function OtherLoad(n: nat, i: nat, k: nat): int
    requires i <= 2 * n + 1 && 1 <= k <= n
  {
    if k < n then (if k - 1 < i then Size(n, k - 1) else 0) + (if 2 * n - 2 - k < i then Size(n, 2 * n - 2 - k) else 0)
    else (if 2 * n - 2 < i then n else 0) + (if 2 * n - 1 < i then n else 0) + (if 2 * n < i then n else 0)
  }

  lemma OtherAdds(n: nat, i: nat, k: nat)
    requires i <= 2 * n && 1 <= k <= n
    ensures OtherLoad(n, i + 1, k) == OtherLoad(n, i, k) + if OtherShard(n, i) == k then Size(n, i) else 0
  {}

  lemma OtherPlaces(n: nat, i: nat, k: nat)
    requires i <= 2 * n
    ensures Seconds(Specs(n)[..i + 1], Durations(n), Other(n), k)
         == Seconds(Specs(n)[..i], Durations(n), Other(n), k)
            + if OtherShard(n, i) == k then Size(n, i) as real else 0.0
  {
    hide Durations, Size, OtherShard, Weight, Specs;
    var s := Specs(n)[i];
    assert Specs(n)[..i + 1][..i] == Specs(n)[..i] && s in Specs(n);
    Weights(n, i);
  }

  lemma NothingElsewhere(n: nat, k: nat)
    requires 1 <= k <= n
    ensures Seconds(Specs(n)[..0], Durations(n), Other(n), k) == 0.0 == OtherLoad(n, 0, k) as real
  {}

  lemma OtherTotal(n: nat, k: nat)
    requires 1 <= k <= n
    ensures OtherLoad(n, 2 * n + 1, k) == 3 * n
  {}

  lemma OtherIsPlan(n: nat)
    requires 0 < n
    ensures Places(Other(n), Specs(n), n)
  {}

  lemma {:induction false} OtherSeconds(n: nat, i: nat, k: nat)
    requires i <= 2 * n + 1 && 1 <= k <= n
    ensures Seconds(Specs(n)[..i], Durations(n), Other(n), k) == OtherLoad(n, i, k) as real
  {
    hide Seconds, Durations, OtherLoad, Size, OtherShard, Specs, Other;
    if i == 0 {
      NothingElsewhere(n, k);
    } else {
      OtherSeconds(n, i - 1, k);
      OtherPlaces(n, i - 1, k);
      OtherAdds(n, i - 1, k);
    }
  }

  lemma OtherFits(n: nat)
    requires 0 < n
    ensures Fits(Other(n), Specs(n), Durations(n), n, 3.0 * n as real)
  {
    hide OtherLoad, Seconds, Durations, Other, Places;
    assert Specs(n)[..2 * n + 1] == Specs(n);
    OtherIsPlan(n);
    forall k | 1 <= k <= n ensures Seconds(Specs(n), Durations(n), Other(n), k) <= 3.0 * n as real {
      OtherSeconds(n, 2 * n + 1, k);
      OtherTotal(n, k);
    }
  }

  /** For every number of shards some specs reach the bound: the first shard that `assign` builds is
      exactly 4/3 - 1/(3n) times what another assignment keeps every shard within. */
  lemma BoundIsAttained(n: nat)
    requires 0 < n
    ensures NoDuplicates(Specs(n)) && NonNegative(Specs(n), Durations(n))
    ensures Fits(Other(n), Specs(n), Durations(n), n, 3.0 * n as real)
    ensures Seconds(Specs(n), Durations(n), Assigned(Specs(n), Durations(n), n), 1)
         == (4.0 / 3.0 - 1.0 / (3.0 * n as real)) * (3.0 * n as real)
  {
    SpecsScheduled(n);
    OtherFits(n);
    FirstShardLoad(n);
    AssignedSeconds(Specs(n), Durations(n), n, 1);
    Product(n as real);
    hide Specs, Durations, Fits, Seconds, Greedy, Assigned, Sort, NoDuplicates;
    forall s | s in Specs(n) ensures Weight(Durations(n), s) >= 0.0 {
      var i :| 0 <= i < 2 * n + 1 && Specs(n)[i] == s;
      Weights(n, i);
    }
  }

  lemma Product(x: real)
    requires x > 0.0
    ensures (4.0 / 3.0 - 1.0 / (3.0 * x)) * (3.0 * x) == 4.0 * x - 1.0
  {
    var y := 3.0 * x;
    assert (4.0 / 3.0 - 1.0 / y) * y == 4.0 / 3.0 * y - 1.0 / y * y;
  }
}
