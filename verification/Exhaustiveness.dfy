/** The early ends of the two searches lose nothing, from the raw hits to the coincidences, as long as the
    disorder that each stage adds stays within the overlap. */
module Exhaustiveness {
  import opened Events
  import opened Grouping
  import CoarseSorter
  import P = ProcessHit
  import G = SimpleGrouper
  import C = CoincidenceGrouper

  // ---------------------------------------------------------------- photons

  /** Where a photon comes from: one of the groups, whose hit at index k it describes. */
  lemma {:induction false} PhotonSource(cfg: TriggerConfig, h: seq<Hit>, groups: seq<seq<nat>>, n: nat) returns (g: nat, a: nat)
    requires cfg.maxHits >= 1 && G.AllInRange(h, groups) && n < |G.Photons(cfg, h, groups)|
    ensures g < |groups| && G.Passes(cfg, h, groups[g]) && a < |groups[g]|
    ensures G.Photons(cfg, h, groups)[n] == G.PhotonOf(cfg, h, groups[g])
    ensures G.Photons(cfg, h, groups)[n].time == h[groups[g][a]].time
  {
    hide G.PhotonOf, G.Passes;
    var last := |groups| - 1;
    assert groups[last] in groups;
    if n < |G.Photons(cfg, h, groups[..last])| {
      g, a := PhotonSource(cfg, h, groups[..last], n);
    } else {
      g := last;
      a := PhotonHit(cfg, h, groups[last]);
    }
  }

  lemma PhotonHit(cfg: TriggerConfig, h: seq<Hit>, group: seq<nat>) returns (a: nat)
    requires cfg.maxHits >= 1 && G.InRange(h, group) && G.Passes(cfg, h, group)
    ensures a < |group| && G.PhotonOf(cfg, h, group).time == h[group[a]].time
  {
    G.PhotonHoldsGroup(cfg, h, group);
    var p := G.PhotonOf(cfg, h, group);
    assert p.hits[0] in multiset(p.hits);
    assert p.hits[0] in G.HitsOf(h, group);
    a :| 0 <= a < |group| && G.HitsOf(h, group)[a] == p.hits[0];
  }

  /** Photons keep the order of their groups. */
  lemma {:induction false} PhotonOrder(cfg: TriggerConfig, h: seq<Hit>, groups: seq<seq<nat>>, n: nat, n': nat)
      returns (g: nat, a: nat, g': nat, a': nat)
    requires cfg.maxHits >= 1 && G.AllInRange(h, groups) && n < n' < |G.Photons(cfg, h, groups)|
    ensures g < g' < |groups| && a < |groups[g]| && a' < |groups[g']|
    ensures groups[g] in groups && groups[g'] in groups
    ensures G.Photons(cfg, h, groups)[n].time == h[groups[g][a]].time
    ensures G.Photons(cfg, h, groups)[n'].time == h[groups[g'][a']].time
  {
    hide G.PhotonOf, G.Passes;
    var last := |groups| - 1;
    assert groups[last] in groups;
    if n' < |G.Photons(cfg, h, groups[..last])| {
      g, a, g', a' := PhotonOrder(cfg, h, groups[..last], n, n');
    } else {
      g, a := PhotonSource(cfg, h, groups[..last], n);
      g' := last;
      a' := PhotonHit(cfg, h, groups[last]);
    }
  }

  /** Photons are out of order by at most the disorder of the hits plus the group window: the first is at
      most the window after its seed, and every hit of a later group comes after that seed in the buffer. */
  lemma PhotonDisorder(cfg: TriggerConfig, h: seq<Hit>, tol: real, stop: bool)
    requires cfg.maxHits >= 1 && cfg.groupWindow >= 0.0 && Disorder(h, tol)
    ensures C.Disordered(PhotonsOf(cfg, h, stop), tol + cfg.groupWindow)
  {
    hide G.Photons, G.PhotonOf, G.Passes, Groups;
    var p := PhotonsOf(cfg, h, stop);
    forall n, n' | 0 <= n < n' < |p|
      ensures p[n].time <= p[n'].time + (tol + cfg.groupWindow)
    {
      var s, x, y := TwoPhotons(cfg, h, stop, n, n');
    }
  }

  /** Of two photons: the seed of the first one's group, the hit that gave the first one its time, and the
      hit that gave the second one its time, which comes after that seed. */
  lemma TwoPhotons(cfg: TriggerConfig, h: seq<Hit>, stop: bool, n: nat, n': nat) returns (s: nat, x: nat, y: nat)
    requires cfg.maxHits >= 1 && cfg.groupWindow >= 0.0 && n < n' < |PhotonsOf(cfg, h, stop)|
    ensures s < y < |h| && x < |h| && h[s].valid && h[x].valid && h[y].valid
    ensures PhotonsOf(cfg, h, stop)[n].time == h[x].time <= h[s].time + cfg.groupWindow
    ensures PhotonsOf(cfg, h, stop)[n'].time == h[y].time
  {
    hide G.Photons, G.PhotonOf, G.Passes, Groups;
    var taken := seq(|h|, j => false);
    var groups := AllGroups(cfg, h, stop);
    G.GroupsInRange(cfg, h, 0, taken, stop);
    GroupShape(cfg, h, 0, taken, stop);
    var g, a, g', a' := PhotonOrder(cfg, h, groups, n, n');
    assert IsGroup(cfg, h, groups[g]) && IsGroup(cfg, h, groups[g']);
    assert Seed(groups[g]) < Seed(groups[g']);
    assert groups[g'][0] <= groups[g'][a'];
    assert a > 0 ==> Fits(cfg, h[groups[g][0]], h[groups[g][a]]);
    s, x, y := groups[g][0], groups[g][a], groups[g'][a'];
  }

  /** The photons of a buffer of hits, with the search of hits ended early or carried through. */
  function PhotonsOf(cfg: TriggerConfig, h: seq<Hit>, stop: bool): seq<GammaPhoton>
    requires cfg.maxHits >= 1
  {
    G.GroupsInRange(cfg, h, 0, seq(|h|, j => false), stop);
    G.Photons(cfg, h, AllGroups(cfg, h, stop))
  }

  lemma OnePhoton(cfg: TriggerConfig, h: seq<Hit>, stop: bool, n: nat) returns (x: nat)
    requires cfg.maxHits >= 1 && n < |PhotonsOf(cfg, h, stop)|
    ensures x < |h| && PhotonsOf(cfg, h, stop)[n].time == h[x].time
  {
    hide G.Photons, G.PhotonOf, G.Passes, Groups;
    var taken := seq(|h|, j => false);
    var groups := AllGroups(cfg, h, stop);
    G.GroupsInRange(cfg, h, 0, taken, stop);
    GroupShape(cfg, h, 0, taken, stop);
    var g, a := PhotonSource(cfg, h, groups, n);
    assert IsGroup(cfg, h, groups[g]);
    x := groups[g][a];
  }

  // ---------------------------------------------------------------- whole cycles and corrections

  function Ceil(x: real): int { -(0.0 - x).Floor }

  lemma CeilIs(x: real)
    ensures x <= Ceil(x) as real < x + 1.0
  {
  }

  /** Raw times are whole cycles. Less corrections between 0 and c, differences of up to x come as close to x
      as this. */
  function Reached(x: real, c: real): real {
    if Ceil(x) as real - x <= c then x else x.Floor as real
  }

  lemma ReachedMost(n: int, k: real, x: real, c: real)
    requires 0.0 <= k <= c && n as real - k <= x
    ensures n as real - k <= Reached(x, c) <= x
  {
    var top, bottom := Ceil(x), x.Floor;
    CeilIs(x);
    assert bottom as real <= x < bottom as real + 1.0;
    hide Ceil;
    if top as real - x > c {
      assert (n as real) < top as real;
      LessOne(n, top);
      assert (n as real) <= top as real - 1.0 < x;
      LessOne(n, bottom + 1);
    }
  }

  lemma LessOne(a: int, b: int)
    requires (a as real) < b as real
    ensures a as real <= b as real - 1.0 && a <= b - 1
  {
  }

  lemma ReachedNear(x: real, c: real)
    ensures x - 1.0 < Reached(x, c) <= x
    ensures c >= 1.0 ==> Reached(x, c) == x
    ensures x >= 0.0 ==> Reached(x, c) >= 0.0
  {
  }

  /** Three cycles of coarse time, the span of the corrections, and what can be reached of the group window,
      are within the overlap, and so is what cannot be reached of the coincidence window. */
  predicate WithinOverlap(window: real, cWindow: real, c: real) {
    3.0 + c + Reached(window, c) + Reached(cWindow, c) <= OVERLAP + cWindow
  }

  /** For corrections that may span a whole cycle or more the coincidence window does not matter; for smaller
      spans the sum with the whole group window is sufficient. */
  lemma WithinOverlapIff(window: real, cWindow: real, c: real)
    ensures c >= 1.0 ==> (WithinOverlap(window, cWindow, c) <==> 3.0 + c + window <= OVERLAP)
    ensures 3.0 + c + window <= OVERLAP ==> WithinOverlap(window, cWindow, c)
  {
    ReachedNear(window, c);
    ReachedNear(cWindow, c);
  }

  /** A photon at time x of a group with the seed s, one at time y whose hit comes after that seed, and one
      at time z of which y is a prompt partner: x is not so far ahead of z that the search for partners ends. */
  lemma FourTimes(s: int, x: int, y: int, z: int, ks: real, kx: real, ky: real, kz: real, low: real,
                  window: real, cWindow: real, c: real)
    requires low <= ks <= low + c && low <= kx <= low + c && low <= ky <= low + c && low <= kz <= low + c
    requires s <= y + 3 && x as real - kx <= s as real - ks + window
    requires (y as real - ky) - (z as real - kz) <= cWindow && WithinOverlap(window, cWindow, c)
    ensures (x as real - kx) - (z as real - kz) <= OVERLAP + cWindow
  {
    assert (x - s) as real == x as real - s as real && (y - z) as real == y as real - z as real;
    ReachedMost(x - s, kx - low, window, c);
    ReachedMost(y - z, c - (kz - low), cWindow, c);
    assert s as real <= y as real + 3.0;
  }

  // ---------------------------------------------------------------- end to end

  /** What the pipeline can be given: raw times that are not negative, corrections that span at most c, and
      any order that std::sort may leave the hits in. */
  ghost predicate Sortable(cal: P.Calibration, raw: seq<RawHit>, sorted: seq<RawHit>, c: real) {
    && CoarseSorter.CoarseOrder(raw, sorted) && P.SpansAtMost(cal, raw, c)
    && forall k :: 0 <= k < |raw| ==> raw[k].time >= 0
  }

  /** The hits' times are raw times less corrections that span at most c, and the raw times are at most three
      cycles out of order. */
  ghost predicate Corrected(cal: P.Calibration, h: seq<Hit>, c: real) {
    && (forall i :: 0 <= i < |h| ==> h[i].time == cal.Time(h[i].raw))
    && (forall i, j :: 0 <= i < |h| && 0 <= j < |h| ==> cal.Correction(h[i].raw) <= cal.Correction(h[j].raw) + c)
    && (forall i, j :: 0 <= i < j < |h| ==> h[i].raw.time <= h[j].raw.time + 3)
  }

  lemma SortedCorrected(cal: P.Calibration, raw: seq<RawHit>, sorted: seq<RawHit>, c: real)
    requires Sortable(cal, raw, sorted, c)
    ensures Corrected(cal, cal.Process(sorted), c)
  {
    hide cal.Correction, cal.Process;
    forall i, j | 0 <= i < j < |sorted|
      ensures sorted[i].time <= sorted[j].time + 3
    {
      CoarseSorter.CoarseDisorder(raw, sorted, i, j);
    }
    SpanPermutes(cal, raw, sorted, c);
    P.ProcessFrom(cal, sorted, 3);
    var h := cal.Process(sorted);
    forall i | 0 <= i < |h| ensures h[i].time == cal.Time(h[i].raw) && h[i].raw in sorted {
      assert h[i] in h;
    }
    hide cal.Calibrated;
    forall i, j | 0 <= i < |h| && 0 <= j < |h|
      ensures cal.Correction(h[i].raw) <= cal.Correction(h[j].raw) + c
    {
      assert h[i].raw in sorted && h[j].raw in sorted;
    }
  }

  lemma SpanPermutes(cal: P.Calibration, raw: seq<RawHit>, sorted: seq<RawHit>, c: real)
    requires CoarseSorter.CoarseOrder(raw, sorted) && P.SpansAtMost(cal, raw, c)
    ensures P.SpansAtMost(cal, sorted, c)
  {
    forall i | 0 <= i < |sorted|
      ensures sorted[i] in raw
    {
      assert sorted[i] in multiset(raw);
    }
  }

  lemma CorrectedDisorder(cal: P.Calibration, h: seq<Hit>, c: real)
    requires Corrected(cal, h, c)
    ensures Disorder(h, 3.0 + c)
    ensures h != [] ==> c >= 0.0
  {
    forall a, b | 0 <= a < b < |h| && h[a].valid && h[b].valid
      ensures h[a].time <= h[b].time + (3.0 + c)
    {
      assert h[a].raw.time as real <= (h[b].raw.time + 3) as real;
      assert cal.Correction(h[b].raw) <= cal.Correction(h[a].raw) + c;
    }
    assert h != [] ==> cal.Correction(h[0].raw) <= cal.Correction(h[0].raw) + c;
  }

  /** Within the overlap the search for hits loses none. */
  lemma SameGroups(cal: P.Calibration, cfg: TriggerConfig, h: seq<Hit>, c: real)
    requires cfg.groupWindow >= 0.0 && Corrected(cal, h, c) && WithinOverlap(cfg.groupWindow, cfg.coincidenceWindow, c)
    ensures AllGroups(cfg, h, true) == AllGroups(cfg, h, false)
  {
    hide Groups, Corrected;
    CorrectedDisorder(cal, h, c);
    ReachedNear(cfg.groupWindow, c);
    ReachedNear(cfg.coincidenceWindow, c);
    assert h != [] ==> 3.0 + c <= OVERLAP;
    GroupsStopLosesNone(cfg, h, 0, seq(|h|, j => false));
  }

  /** And no partner of a photon comes after one at which the search for them ends. */
  lemma NothingCutOff(cal: P.Calibration, cfg: TriggerConfig, h: seq<Hit>, c: real, a: nat, m: nat, b: nat)
    requires cfg.maxHits >= 1 && cfg.groupWindow >= 0.0
    requires Corrected(cal, h, c) && WithinOverlap(cfg.groupWindow, cfg.coincidenceWindow, c)
    ensures !C.CutsOff(cfg, PhotonsOf(cfg, h, true), a, m, b)
  {
    hide PhotonsOf, cal.Correction;
    var p := PhotonsOf(cfg, h, true);
    if C.CutsOff(cfg, p, a, m, b) {
      if m < b {
        var z := OnePhoton(cfg, h, true, a);
        var s, x, y := TwoPhotons(cfg, h, true, m, b);
        var k := (i: nat) requires i < |h| => cal.Correction(h[i].raw);
        var low := Least(Least(k(s), k(x)), Least(k(y), k(z)));
        FourTimes(h[s].raw.time, h[x].raw.time, h[y].raw.time, h[z].raw.time, k(s), k(x), k(y), k(z), low,
                  cfg.groupWindow, cfg.coincidenceWindow, c);
      }
      assert false;
    }
  }

  function Least(a: real, b: real): real { if a <= b then a else b }

  ghost predicate SamePairs(cfg: TriggerConfig, h: seq<Hit>)
    requires cfg.maxHits >= 1
  {
    var p, q := PhotonsOf(cfg, h, true), PhotonsOf(cfg, h, false);
    p == q && C.Pairs(cfg, p, 0, true) == C.Pairs(cfg, q, 0, false)
  }

  lemma SamePairsWithin(cfg: TriggerConfig, cal: P.Calibration, raw: seq<RawHit>, sorted: seq<RawHit>, c: real)
    requires cfg.maxHits >= 1 && cfg.groupWindow >= 0.0
    requires Sortable(cal, raw, sorted, c) && WithinOverlap(cfg.groupWindow, cfg.coincidenceWindow, c)
    ensures SamePairs(cfg, cal.Process(sorted))
  {
    hide AllGroups, C.Pairs, C.CutsOff, WithinOverlap, Corrected;
    var h := cal.Process(sorted);
    SortedCorrected(cal, raw, sorted, c);
    SameGroups(cal, cfg, h, c);
    forall a: nat, m: nat, b: nat ensures !C.CutsOff(cfg, PhotonsOf(cfg, h, true), a, m, b) {
      NothingCutOff(cal, cfg, h, c, a, m, b);
    }
    C.StopLosesNoneIff(cfg, PhotonsOf(cfg, h, true));
  }

  /** From a buffer of raw hits to coincidences, for times that are not negative and calibration corrections
      that span at most c: within the overlap, the pairs found are exactly the prompt pairs of the photons
      that full searches find, each once and in order, whatever order std::sort leaves equal times in. */
  lemma CoincidencesExhaustive(cal: P.Calibration, cfg: TriggerConfig, raw: seq<RawHit>, sorted: seq<RawHit>, c: real)
    requires cfg.maxHits >= 1 && cfg.groupWindow >= 0.0
    requires Sortable(cal, raw, sorted, c) && WithinOverlap(cfg.groupWindow, cfg.coincidenceWindow, c)
    ensures var h := cal.Process(sorted);
      var p, pairs := PhotonsOf(cfg, h, false), C.Pairs(cfg, PhotonsOf(cfg, h, true), 0, true);
      && PhotonsOf(cfg, h, true) == p
      && C.Lexicographic(pairs)
      && (forall a: nat, b: nat :: (a, b) in pairs <==>
            a < b < |p| && cfg.coincidence(p[a].region, p[b].region)
            && -cfg.coincidenceWindow <= p[b].time - p[a].time <= cfg.coincidenceWindow)
  {
    SamePairsWithin(cfg, cal, raw, sorted, c);
    C.PairsExact(cfg, PhotonsOf(cfg, cal.Process(sorted), false));
  }
}
