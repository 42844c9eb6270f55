/** What the grouping stage is to compute: every valid hit that is not taken yet becomes the seed of a
    group and takes the later hits that fit it. With stop the search for a seed's hits ends at the first
    candidate that is far enough in the future, as the code does; without it the whole buffer is searched. */
module Grouping {
  import opened Events
  import opened Sequences

  datatype TriggerConfig = TriggerConfig(
    groupWindow: real, maxDistance: real, minEnergy: real, maxEnergy: real, maxHits: nat,
    coincidenceWindow: real, multiHit: (int, int) -> bool, coincidence: (int, int) -> bool)

  function Distance2(a: Hit, b: Hit): real {
    (a.x - b.x) * (a.x - b.x) + (a.y - b.y) * (a.y - b.y) + (a.z - b.z) * (a.z - b.z)
  }

  /** other may join the group of seed. */
  predicate Fits(cfg: TriggerConfig, seed: Hit, other: Hit) {
    && cfg.multiHit(other.region, seed.region)
    && Abs(seed.time - other.time) <= cfg.groupWindow
    && Distance2(seed, other) <= cfg.maxDistance * cfg.maxDistance
  }

  /** The limits of a group on the hits' own fields: the pair of regions is allowed, in this order; the times
      differ by at most the window; and so do the places by at most the distance. */
  predicate Near(cfg: TriggerConfig, seed: Hit, other: Hit) {
    && cfg.multiHit(other.region, seed.region)
    && other.time - seed.time <= cfg.groupWindow && seed.time - other.time <= cfg.groupWindow
    && (var dx, dy, dz := other.x - seed.x, other.y - seed.y, other.z - seed.z;
        dx * dx + dy * dy + dz * dz <= cfg.maxDistance * cfg.maxDistance)
  }

  lemma FitsIsNear(cfg: TriggerConfig, seed: Hit, other: Hit)
    ensures Fits(cfg, seed, other) <==> Near(cfg, seed, other)
  {
    SquareOfDifference(seed.x, other.x);
    SquareOfDifference(seed.y, other.y);
    SquareOfDifference(seed.z, other.z);
  }

  lemma SquareOfDifference(a: real, b: real)
    ensures (a - b) * (a - b) == (b - a) * (b - a)
  {
  }

  /** The hits from j on that seed i takes, in buffer order. */
  function Members(cfg: TriggerConfig, h: seq<Hit>, i: nat, j: nat, taken: seq<bool>, stop: bool): seq<nat>
    requires i < |h| == |taken|
    decreases |h| - j
  {
    if j >= |h| then []
    else if !h[j].valid || taken[j] then Members(cfg, h, i, j + 1, taken, stop)
    else if stop && h[j].time - h[i].time > OVERLAP + cfg.groupWindow then []
    else (if Fits(cfg, h[i], h[j]) then [j] else []) + Members(cfg, h, i, j + 1, taken, stop)
  }

  function Mark(taken: seq<bool>, group: seq<nat>): (marked: seq<bool>)
    ensures |marked| == |taken|
  {
    seq(|taken|, j requires 0 <= j < |taken| => taken[j] || j in group)
  }

  /** The groups whose seed is at i or later, each as the list of its hits with the seed in front. */
  function Groups(cfg: TriggerConfig, h: seq<Hit>, i: nat, taken: seq<bool>, stop: bool): seq<seq<nat>>
    requires |h| == |taken|
    decreases |h| - i
  {
    if i >= |h| then []
    else if !h[i].valid || taken[i] then Groups(cfg, h, i + 1, taken, stop)
    else
      var group := [i] + Members(cfg, h, i, i + 1, taken, stop);
      [group] + Groups(cfg, h, i + 1, Mark(taken, group), stop)
  }

  function AllGroups(cfg: TriggerConfig, h: seq<Hit>, stop: bool): seq<seq<nat>> {
    Groups(cfg, h, 0, seq(|h|, j => false), stop)
  }

  // ---------------------------------------------------------------- groups

  /** Exactly the valid untaken hits that fit the seed, in increasing order. */
  ghost predicate Fitting(cfg: TriggerConfig, h: seq<Hit>, i: nat, j: nat, taken: seq<bool>, m: seq<nat>)
    requires i < |h| == |taken|
  {
    && (forall a :: 0 <= a < |m| ==> j <= m[a] < |h|)
    && (forall a, b :: 0 <= a < b < |m| ==> m[a] < m[b])
    && (forall k: nat :: k in m ==> k < |h| && h[k].valid && !taken[k] && Fits(cfg, h[i], h[k]))
  }

  lemma {:induction false} MembersFit(cfg: TriggerConfig, h: seq<Hit>, i: nat, j: nat, taken: seq<bool>, stop: bool)
    requires i < |h| == |taken|
    ensures Fitting(cfg, h, i, j, taken, Members(cfg, h, i, j, taken, stop))
    decreases |h| - j
  {
    if j < |h| {
      MembersFit(cfg, h, i, j + 1, taken, stop);
    }
  }

  /** No later valid hit precedes an earlier one by more than tol. */
  ghost predicate Disorder(h: seq<Hit>, tol: real) {
    forall a, b :: 0 <= a < b < |h| && h[a].valid && h[b].valid ==> h[a].time <= h[b].time + tol
  }

  lemma {:induction false} NoneFits(cfg: TriggerConfig, h: seq<Hit>, i: nat, j: nat, taken: seq<bool>)
    requires i < |h| == |taken|
    requires forall k :: j <= k < |h| && h[k].valid ==> !Fits(cfg, h[i], h[k])
    ensures Members(cfg, h, i, j, taken, false) == []
    decreases |h| - j
  {
    if j < |h| {
      NoneFits(cfg, h, i, j + 1, taken);
    }
  }

  /** Stopping early loses no member as long as the disorder of the times is at most the overlap. */
  lemma {:induction false} StopLosesNone(cfg: TriggerConfig, h: seq<Hit>, i: nat, j: nat, taken: seq<bool>)
    requires i < |h| == |taken| && Disorder(h, OVERLAP)
    ensures Members(cfg, h, i, j, taken, true) == Members(cfg, h, i, j, taken, false)
    decreases |h| - j
  {
    if j < |h| {
      if h[j].valid && !taken[j] && h[j].time - h[i].time > OVERLAP + cfg.groupWindow {
        NoneFits(cfg, h, i, j, taken);
      } else {
        StopLosesNone(cfg, h, i, j + 1, taken);
      }
    }
  }

  lemma {:induction false} GroupsStopLosesNone(cfg: TriggerConfig, h: seq<Hit>, i: nat, taken: seq<bool>)
    requires |h| == |taken| && Disorder(h, OVERLAP)
    ensures Groups(cfg, h, i, taken, true) == Groups(cfg, h, i, taken, false)
    decreases |h| - i
  {
    if i < |h| {
      if !h[i].valid || taken[i] {
        GroupsStopLosesNone(cfg, h, i + 1, taken);
      } else {
        StopLosesNone(cfg, h, i, i + 1, taken);
        GroupsStopLosesNone(cfg, h, i + 1, Mark(taken, [i] + Members(cfg, h, i, i + 1, taken, false)));
      }
    }
  }

  // ---------------------------------------------------------------- partition

  ghost predicate Distinct(s: seq<nat>) { forall a, b :: 0 <= a < b < |s| ==> s[a] != s[b] }

  /** The groups from i on partition the valid hits that are not taken yet, and their seeds increase. */
  lemma {:induction false} Partition(cfg: TriggerConfig, h: seq<Hit>, i: nat, taken: seq<bool>, stop: bool)
    requires |h| == |taken|
    ensures var g := Groups(cfg, h, i, taken, stop);
      && Distinct(Flatten(g))
      && (forall k: nat :: k in Flatten(g) <==> i <= k < |h| && h[k].valid && !taken[k])
    decreases |h| - i
  {
    if i < |h| {
      if !h[i].valid || taken[i] {
        Partition(cfg, h, i + 1, taken, stop);
      } else {
        MembersFit(cfg, h, i, i + 1, taken, stop);
        var m := Members(cfg, h, i, i + 1, taken, stop);
        var group := [i] + m;
        Partition(cfg, h, i + 1, Mark(taken, group), stop);
        FlattenCons(Groups(cfg, h, i, taken, stop));
        PartitionCons(h, i, taken, m, Flatten(Groups(cfg, h, i + 1, Mark(taken, group), stop)));
      }
    }
  }

  /** The hits that a group has taken, and those of the groups after it. */
  lemma PartitionCons(h: seq<Hit>, i: nat, taken: seq<bool>, m: seq<nat>, rest: seq<nat>)
    requires i < |h| == |taken| && h[i].valid && !taken[i]
    requires forall a :: 0 <= a < |m| ==> i < m[a] < |h|
    requires forall a, b :: 0 <= a < b < |m| ==> m[a] < m[b]
    requires forall k: nat :: k in m ==> k < |h| && h[k].valid && !taken[k]
    requires Distinct(rest) && forall k: nat :: k in rest <==> i < k < |h| && h[k].valid && !Mark(taken, [i] + m)[k]
    ensures Distinct([i] + m + rest)
    ensures forall k: nat :: k in [i] + m + rest <==> i <= k < |h| && h[k].valid && !taken[k]
  {
    var group := [i] + m;
    forall k: nat
      ensures k in group + rest <==> i <= k < |h| && h[k].valid && !taken[k]
    {
      assert k in group <==> k == i || k in m;
    }
    forall a, b | 0 <= a < b < |group + rest|
      ensures (group + rest)[a] != (group + rest)[b]
    {
      if a < |group| <= b {
        assert group[a] in group && rest[b - |group|] in rest;
      }
    }
  }

  function Seed(group: seq<nat>): nat { if group == [] then 0 else group[0] }

  /** A seed followed by later hits that fit it. */
  ghost predicate IsGroup(cfg: TriggerConfig, h: seq<Hit>, g: seq<nat>) {
    && g != []
    && (forall a :: 0 <= a < |g| ==> g[a] < |h| && h[g[a]].valid)
    && (forall a, b :: 0 <= a < b < |g| ==> g[a] < g[b])
    && (forall a :: 0 < a < |g| ==> Fits(cfg, h[g[0]], h[g[a]]))
  }

  lemma GroupOk(cfg: TriggerConfig, h: seq<Hit>, i: nat, taken: seq<bool>, stop: bool)
    requires i < |h| == |taken| && h[i].valid
    ensures IsGroup(cfg, h, [i] + Members(cfg, h, i, i + 1, taken, stop))
  {
    MembersFit(cfg, h, i, i + 1, taken, stop);
    var m := Members(cfg, h, i, i + 1, taken, stop);
    var group := [i] + m;
    assert forall a :: 0 < a < |group| ==> group[a] == m[a - 1] && m[a - 1] in m;
  }

  /** Groups, the first of whose seeds is at i or later, with the seeds in buffer order. */
  ghost predicate Shaped(cfg: TriggerConfig, h: seq<Hit>, i: nat, g: seq<seq<nat>>) {
    && (forall n :: 0 <= n < |g| ==> IsGroup(cfg, h, g[n]) && Seed(g[n]) >= i)
    && (forall n, n' :: 0 <= n < n' < |g| ==> Seed(g[n]) < Seed(g[n']))
  }

  lemma ShapedCons(cfg: TriggerConfig, h: seq<Hit>, i: nat, group: seq<nat>, rest: seq<seq<nat>>)
    requires Shaped(cfg, h, i + 1, rest) && IsGroup(cfg, h, group) && Seed(group) == i
    ensures Shaped(cfg, h, i, [group] + rest)
  {
    hide IsGroup, Seed;
  }

  /** Each group is a seed followed by later hits within its limits, in buffer order, and so are the seeds. */
  lemma GroupShape(cfg: TriggerConfig, h: seq<Hit>, i: nat, taken: seq<bool>, stop: bool)
    requires |h| == |taken|
    ensures Shaped(cfg, h, i, Groups(cfg, h, i, taken, stop))
    ensures var g := Groups(cfg, h, i, taken, stop);
      && (forall n :: 0 <= n < |g| ==> |g[n]| > 0)
      && (forall n, n' :: 0 <= n < n' < |g| ==> i <= g[n][0] < g[n'][0])
      && (forall n, a :: 0 <= n < |g| && 0 <= a < |g[n]| ==> g[n][a] < |h| && h[g[n][a]].valid)
      && (forall n, a :: 0 <= n < |g| && 0 < a < |g[n]| ==>
            g[n][a - 1] < g[n][a] && Near(cfg, h[g[n][0]], h[g[n][a]]))
  {
    GroupsShaped(cfg, h, i, taken, stop);
    var g := Groups(cfg, h, i, taken, stop);
    hide Groups, Fits, Near;
    forall n | 0 <= n < |g| ensures IsGroup(cfg, h, g[n]) && Seed(g[n]) >= i {
    }
    forall n, a | 0 <= n < |g| && 0 < a < |g[n]| ensures g[n][a - 1] < g[n][a] && Near(cfg, h[g[n][0]], h[g[n][a]]) {
      assert IsGroup(cfg, h, g[n]);
      FitsIsNear(cfg, h[g[n][0]], h[g[n][a]]);
    }
    forall n, n' | 0 <= n < n' < |g| ensures g[n][0] < g[n'][0] {
      assert Seed(g[n]) < Seed(g[n']) && IsGroup(cfg, h, g[n]) && IsGroup(cfg, h, g[n']);
    }
  }

  lemma {:induction false} GroupsShaped(cfg: TriggerConfig, h: seq<Hit>, i: nat, taken: seq<bool>, stop: bool)
    requires |h| == |taken|
    ensures Shaped(cfg, h, i, Groups(cfg, h, i, taken, stop))
    decreases |h| - i
  {
    hide IsGroup, Fits;
    if i < |h| {
      if !h[i].valid || taken[i] {
        GroupsShaped(cfg, h, i + 1, taken, stop);
      } else {
        GroupOk(cfg, h, i, taken, stop);
        var group := [i] + Members(cfg, h, i, i + 1, taken, stop);
        GroupsShaped(cfg, h, i + 1, Mark(taken, group), stop);
        ShapedCons(cfg, h, i, group, Groups(cfg, h, i + 1, Mark(taken, group), stop));
      }
    }
  }

  // ---------------------------------------------------------------- exactly which hits a group has

  /** No valid untaken hit from a to b is more than the overlap of 40 and the window after the seed, so that the
      search that ends early gets that far. */
  predicate Reaches(cfg: TriggerConfig, h: seq<Hit>, i: nat, a: nat, b: nat, taken: seq<bool>, before: seq<nat>)
    requires i < |h| == |taken|
  {
    forall m :: a <= m <= b && m < |h| && h[m].valid && !taken[m] && m !in before ==>
      h[m].time - h[i].time <= 40.0 + cfg.groupWindow
  }

  lemma {:induction false} MembersExact(cfg: TriggerConfig, h: seq<Hit>, i: nat, j: nat, taken: seq<bool>, stop: bool, k: nat)
    requires i < |h| == |taken|
    ensures k in Members(cfg, h, i, j, taken, stop) <==>
              j <= k < |h| && h[k].valid && !taken[k] && Near(cfg, h[i], h[k])
              && (stop ==> Reaches(cfg, h, i, j, k, taken, []))
    decreases |h| - j
  {
    hide Fits, Near;
    if j < |h| {
      MembersExact(cfg, h, i, j + 1, taken, stop, k);
      FitsIsNear(cfg, h[i], h[j]);
    }
  }

  /** The n-th of some groups has its seed and exactly the later valid hits that no group before it has, that
      are within the limits of the seed, and that the search reaches. */
  ghost predicate ExactGroup(cfg: TriggerConfig, h: seq<Hit>, taken: seq<bool>, stop: bool, g: seq<seq<nat>>, n: nat, k: nat)
    requires |h| == |taken| && n < |g|
  {
    var seed, before := Seed(g[n]), Flatten(g[..n]);
    seed < |h| && seed in g[n]
    && (k in g[n] <==>
          k == seed
          || (seed < k < |h| && h[k].valid && !taken[k] && k !in before && Near(cfg, h[seed], h[k])
              && (stop ==> Reaches(cfg, h, seed, seed + 1, k, taken, before))))
  }

  lemma {:induction false} GroupsExact(cfg: TriggerConfig, h: seq<Hit>, i: nat, taken: seq<bool>, stop: bool, n: nat, k: nat)
    requires |h| == |taken| && n < |Groups(cfg, h, i, taken, stop)|
    ensures ExactGroup(cfg, h, taken, stop, Groups(cfg, h, i, taken, stop), n, k)
    decreases |h| - i
  {
    var g := Groups(cfg, h, i, taken, stop);
    if !h[i].valid || taken[i] {
      GroupsExact(cfg, h, i + 1, taken, stop, n, k);
    } else {
      var group := [i] + Members(cfg, h, i, i + 1, taken, stop);
      if n == 0 {
        MembersExact(cfg, h, i, i + 1, taken, stop, k);
        assert g[..0] == [];
        hide Near;
      } else {
        var marked := Mark(taken, group);
        GroupsExact(cfg, h, i + 1, marked, stop, n - 1, k);
        ExactLater(cfg, h, taken, stop, group, Groups(cfg, h, i + 1, marked, stop), n, k);
      }
    }
  }

  lemma ExactLater(cfg: TriggerConfig, h: seq<Hit>, taken: seq<bool>, stop: bool, group: seq<nat>, rest: seq<seq<nat>>, n: nat,
                   k: nat)
    requires |h| == |taken| && 0 < n <= |rest| && ExactGroup(cfg, h, Mark(taken, group), stop, rest, n - 1, k)
    ensures ExactGroup(cfg, h, taken, stop, [group] + rest, n, k)
  {
    var g := [group] + rest;
    assert g[..n] == [group] + rest[..n - 1];
    FlattenCons(g[..n]);
    assert g[..n][1..] == rest[..n - 1];
    var before, later := Flatten(g[..n]), Flatten(rest[..n - 1]);
    assert forall m: nat :: m in before <==> m in group || m in later;
    hide Near, Seed, Flatten;
  }

  /** When a group closes, no valid untaken hit after its seed that fits is left behind. */
  lemma {:induction false} GroupMaximal(cfg: TriggerConfig, h: seq<Hit>, i: nat, taken: seq<bool>, n: nat, k: nat)
    requires |h| == |taken| && n < |Groups(cfg, h, i, taken, false)|
    requires var seed := Seed(Groups(cfg, h, i, taken, false)[n]);
      seed < k < |h| && h[k].valid && !taken[k] && Near(cfg, h[seed], h[k])
    ensures k in Flatten(Groups(cfg, h, i, taken, false)[..n + 1])
    decreases |h| - i
  {
    hide Near;
    var g := Groups(cfg, h, i, taken, false);
    if !h[i].valid || taken[i] {
      GroupMaximal(cfg, h, i + 1, taken, n, k);
    } else {
      var group := [i] + Members(cfg, h, i, i + 1, taken, false);
      var marked := Mark(taken, group);
      assert g[..n + 1] == [group] + g[1..][..n];
      FlattenCons(g[..n + 1]);
      assert Flatten(g[..n + 1]) == group + Flatten(g[1..][..n]);
      if n == 0 {
        MembersExact(cfg, h, i, i + 1, taken, false, k);
      } else if k !in group {
        assert g[1..] == Groups(cfg, h, i + 1, marked, false) && g[1..][n - 1] == g[n];
        GroupMaximal(cfg, h, i + 1, marked, n - 1, k);
      }
    }
  }
}
