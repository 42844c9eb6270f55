/** How wide the overlap has to be: the condition under which the searches' early ends lose nothing is exact. */
module OverlapBound {
  import opened Events
  import opened Grouping
  import opened Exhaustiveness
  import CoarseSorter
  import P = ProcessHit
  import G = SimpleGrouper
  import C = CoincidenceGrouper
  import EnergySort
  import opened CalibrationFormulas

  /** Whatever configuration with these windows and whatever calibration and raw hits with corrections that
      span at most c: the early ends lose nothing. */
  ghost predicate EarlyEndsLoseNone(window: real, cWindow: real, c: real) {
    forall cfg: TriggerConfig, cal: P.Calibration, raw: seq<RawHit>, sorted: seq<RawHit> ::
      cfg.maxHits >= 1 && cfg.groupWindow == window && cfg.coincidenceWindow == cWindow && Sortable(cal, raw, sorted, c) ==>
        SamePairs(cfg, cal.Process(sorted))
  }

  // ---------------------------------------------------------------- four hits that lose a pair

  /** Groups form within a region; photons of any two regions may pair. */
  function OpenConfig(window: real, cWindow: real): TriggerConfig {
    TriggerConfig(window, 0.0, 0.0, 10.0, 2, cWindow, (a, b) => a == b, (a, b) => true)
  }

  predicate Like(h: Hit, time: real, energy: real, region: int) {
    h.valid && h.time == time && h.energy == energy && h.region == region && h.x == h.y == h.z == 0.0
  }

  /** Four hits, with the seed of region 2 at time t: one of region 1; the seed; one of region 3 that lies tol
      before that seed and behind after the first; and the seed's stronger partner, ahead of it. */
  predicate Telling(h: seq<Hit>, ahead: real, behind: real, tol: real, t: real) {
    && |h| == 4
    && Like(h[0], t - tol - behind, 1.0, 1) && Like(h[1], t, 1.0, 2)
    && Like(h[2], t - tol, 1.0, 3) && Like(h[3], t + ahead, 2.0, 2)
  }

  lemma GroupStep(cfg: TriggerConfig, h: seq<Hit>, i: nat, taken: seq<bool>, stop: bool, m: seq<nat>, marked: seq<bool>)
    requires i < |h| == |taken| == |marked| && h[i].valid && !taken[i] && Members(cfg, h, i, i + 1, taken, stop) == m
    requires forall j :: 0 <= j < |h| ==> (marked[j] <==> taken[j] || j == i || j in m)
    ensures Groups(cfg, h, i, taken, stop) == [[i] + m] + Groups(cfg, h, i + 1, marked, stop)
  {
    assert Mark(taken, [i] + m) == marked;
  }

  lemma WitnessGroups(h: seq<Hit>, window: real, cWindow: real, ahead: real, behind: real, tol: real, t: real, stop: bool)
    requires 0.0 <= ahead <= window && tol >= 0.0 && Telling(h, ahead, behind, tol, t)
    ensures AllGroups(OpenConfig(window, cWindow), h, stop) == [[0], [1, 3], [2]]
  {
    hide Members, Fits, Mark;
    var cfg := OpenConfig(window, cWindow);
    var t0, t1 := [false, false, false, false], [true, false, false, false];
    var t2, t3 := [true, true, false, true], [true, true, true, true];
    assert seq(|h|, j => false) == t0;
    NoneOther(cfg, h, 0, 1, t0, stop);
    GroupStep(cfg, h, 0, t0, stop, [], t1);
    SeedTakesLast(h, window, cWindow, ahead, behind, tol, t, stop);
    GroupStep(cfg, h, 1, t1, stop, [3], t2);
    NoneOther(cfg, h, 2, 3, t2, stop);
    GroupStep(cfg, h, 2, t2, stop, [], t3);
    assert Groups(cfg, h, 4, t3, stop) == [];
    assert Groups(cfg, h, 3, t3, stop) == [];
    var none, last: seq<nat> := [], [3];
    assert [0] + none == [0] && [2] + none == [2] && [1] + last == [1, 3];
    assert Groups(cfg, h, 2, t2, stop) == [[2]];
    assert Groups(cfg, h, 1, t1, stop) == [[1, 3], [2]];
  }

  lemma {:induction false} NoneOther(cfg: TriggerConfig, h: seq<Hit>, i: nat, j: nat, taken: seq<bool>, stop: bool)
    requires i < |h| == |taken|
    requires forall k :: j <= k < |h| ==> !cfg.multiHit(h[k].region, h[i].region) || taken[k]
    ensures Members(cfg, h, i, j, taken, stop) == []
    decreases |h| - j
  {
    if j < |h| {
      NoneOther(cfg, h, i, j + 1, taken, stop);
    }
  }

  lemma SeedTakesLast(h: seq<Hit>, window: real, cWindow: real, ahead: real, behind: real, tol: real, t: real, stop: bool)
    requires 0.0 <= ahead <= window && tol >= 0.0 && Telling(h, ahead, behind, tol, t)
    ensures Members(OpenConfig(window, cWindow), h, 1, 2, [true, false, false, false], stop) == [3]
  {
    var cfg, taken := OpenConfig(window, cWindow), [true, false, false, false];
    assert Members(cfg, h, 1, 4, taken, stop) == [];
    assert Fits(cfg, h[1], h[3]);
    assert Members(cfg, h, 1, 3, taken, stop) == [3];
    assert !Fits(cfg, h[1], h[2]);
  }

  lemma WitnessPhotons(h: seq<Hit>, window: real, cWindow: real, ahead: real, behind: real, tol: real, t: real, stop: bool)
    requires 0.0 <= ahead <= window && tol >= 0.0 && Telling(h, ahead, behind, tol, t)
    ensures var p := PhotonsOf(OpenConfig(window, cWindow), h, stop);
      |p| == 3 && p[0].time == t - tol - behind && p[1].time == t + ahead && p[2].time == t - tol
  {
    var cfg := OpenConfig(window, cWindow);
    var g0: seq<nat>, g1: seq<nat>, g2: seq<nat> := [0], [1, 3], [2];
    WitnessGroups(h, window, cWindow, ahead, behind, tol, t, stop);
    hide AllGroups;
    SinglePasses(cfg, h, 0);
    SinglePasses(cfg, h, 2);
    PairPasses(cfg, h, 1, 3);
    ThreePhotons(cfg, h, g0, g1, g2);
  }

  lemma ThreePhotons(cfg: TriggerConfig, h: seq<Hit>, g0: seq<nat>, g1: seq<nat>, g2: seq<nat>)
    requires cfg.maxHits >= 1 && G.AllInRange(h, [g0, g1, g2])
    requires G.InRange(h, g0) && G.InRange(h, g1) && G.InRange(h, g2)
    requires G.Passes(cfg, h, g0) && G.Passes(cfg, h, g1) && G.Passes(cfg, h, g2)
    ensures G.Photons(cfg, h, [g0, g1, g2]) == [G.PhotonOf(cfg, h, g0), G.PhotonOf(cfg, h, g1), G.PhotonOf(cfg, h, g2)]
  {
    hide G.Passes, G.PhotonOf;
    var none: seq<seq<nat>> := [];
    assert [g0][..0] == none && [g0, g1][..1] == [g0] && [g0, g1, g2][..2] == [g0, g1];
    assert G.Photons(cfg, h, none) == [];
    assert G.Photons(cfg, h, [g0]) == [G.PhotonOf(cfg, h, g0)];
    assert G.Photons(cfg, h, [g0, g1]) == [G.PhotonOf(cfg, h, g0), G.PhotonOf(cfg, h, g1)];
  }

  lemma SinglePasses(cfg: TriggerConfig, h: seq<Hit>, k: nat)
    requires k < |h| && cfg.maxHits >= 1 && cfg.minEnergy <= h[k].energy <= cfg.maxEnergy
    ensures G.Passes(cfg, h, [k]) && G.PhotonOf(cfg, h, [k]).time == h[k].time
  {
    SinglePhoton(cfg, h, k);
  }

  lemma PairPasses(cfg: TriggerConfig, h: seq<Hit>, k: nat, k': nat)
    requires k < |h| && k' < |h| && cfg.maxHits >= 2 && cfg.minEnergy <= h[k'].energy <= cfg.maxEnergy
    requires h[k].energy < h[k'].energy
    ensures G.Passes(cfg, h, [k, k']) && G.PhotonOf(cfg, h, [k, k']).time == h[k'].time
  {
    assert G.HitsOf(h, [k, k']) == [h[k], h[k']];
    StrongerFirst(h[k], h[k']);
  }

  lemma StrongerFirst(a: Hit, b: Hit)
    requires a.energy < b.energy
    ensures EnergySort.ByEnergy([a, b]) == [b, a]
  {
    assert [a, b][1..] == [b] && [b][1..] == [];
    assert EnergySort.ByEnergy([b]) == [b];
    assert EnergySort.Insert(a, [b]) == [b] + EnergySort.Insert(a, [b][1..]);
  }

  lemma SinglePhoton(cfg: TriggerConfig, h: seq<Hit>, k: nat)
    requires cfg.maxHits >= 1 && k < |h|
    ensures G.PhotonOf(cfg, h, [k]).time == h[k].time && G.PhotonOf(cfg, h, [k]).energy == h[k].energy
  {
    assert G.HitsOf(h, [k]) == [h[k]];
    assert EnergySort.ByEnergy([h[k]]) == [h[k]];
  }

  /** The search for the partners of the first photon ends at the second, although the third is one. */
  lemma TellingLosesPair(h: seq<Hit>, window: real, cWindow: real, ahead: real, behind: real, tol: real, t: real)
    requires 0.0 <= ahead <= window && 0.0 <= behind <= cWindow && tol >= 0.0 && Telling(h, ahead, behind, tol, t)
    requires tol + ahead + behind > OVERLAP + cWindow
    ensures !SamePairs(OpenConfig(window, cWindow), h)
  {
    WitnessPhotons(h, window, cWindow, ahead, behind, tol, t, true);
    hide PhotonsOf, C.Pairs, Telling;
    var cfg := OpenConfig(window, cWindow);
    assert C.CutsOff(cfg, PhotonsOf(cfg, h, true), 0, 1, 2);
    C.StopLosesNoneIff(cfg, PhotonsOf(cfg, h, true));
  }

  // ---------------------------------------------------------------- the raw hits that are calibrated to them

  /** The whole cycles that give Reached when the right correction is taken off. */
  function Cycles(x: real, c: real): int { if Ceil(x) as real - x <= c then Ceil(x) else x.Floor }

  lemma CyclesReach(x: real, c: real)
    requires x >= 0.0 && c >= 0.0
    ensures Cycles(x, c) >= 0 && 0.0 <= Cycles(x, c) as real - Reached(x, c) <= c
    ensures 0.0 <= Reached(x, c) <= x
  {
    CeilIs(x);
  }

  function Raw(channel: nat, time: int, qfine: nat): RawHit {
    RawHit(true, time, 0, 0, 0, 0, channel, 0, 0, 0, qfine)
  }

  /** The seed's time: the last of four in its coarse time, and late enough for the first hit's not to be
      negative. */
  function SeedTime(cWindow: real, c: real): int { 4 * Cycles(cWindow, c) + 3 }

  /** On four channels, of which the second has no correction and the third one of c; those of the other two
      make up for the fractions of the windows. */
  function RawWitness(window: real, cWindow: real, c: real): seq<RawHit> {
    var t := SeedTime(cWindow, c);
    [Raw(1, t - 3 - Cycles(cWindow, c), 1), Raw(2, t, 1), Raw(3, t - 3, 1), Raw(4, t + Cycles(window, c), 2)]
  }

  function CorrectionOf(channel: nat, window: real, cWindow: real, c: real): real {
    if channel == 1 then c - (Cycles(cWindow, c) as real - Reached(cWindow, c))
    else if channel == 2 then 0.0
    else if channel == 3 then c
    else Cycles(window, c) as real - Reached(window, c)
  }

  /** The corrections are offsets of the channels; the fine count 0 stands for no time, and the only root taken
      is that of 1. */
  function WitnessCalibration(window: real, cWindow: real, c: real): P.Calibration {
    var tac := (channel: nat, tacID: nat) => Tac(CorrectionOf(channel, window, cWindow, c), 0.0, 1.0, 1.0);
    P.Calibration(
      -1, true, false, true, x => x, tac, tac,
      (channel: nat, tacID: nat) => [0.0, 0.0, 0.0, 0.0, 0.0, 0.0, 0.0, 0.0, 0.0, 0.0],
      channel => if channel == 4 then 2 else channel, channel => 0.0, channel => 0.0, channel => 0.0)
  }

  lemma WitnessCorrects(window: real, cWindow: real, c: real, h: RawHit)
    requires h.valid && 1 <= h.channelID <= 4 && h.t1fine == 0
    ensures var cal := WitnessCalibration(window, cWindow, c);
      cal.Correction(h) == CorrectionOf(h.channelID, window, cWindow, c) && cal.Accepts(h)
  {
    hide CorrectionOf, FineTime, Cycles, Reached, Sum;
    var cal := WitnessCalibration(window, cWindow, c);
    NoFineTime(cal.sqrt, cal.tacT(h.channelID, h.tacID));
    assert !cal.IsTrigger(h);
  }

  lemma NoFineTime(sqrt: real -> real, tac: Tac)
    requires tac.a0 == 0.0 && tac.a1 == 1.0 && tac.a2 == 1.0 && sqrt(1.0) == 1.0
    ensures FineTime(sqrt, tac, 0.0) == 0.0
  {
    assert tac.Discriminant(0.0) == 1.0;
  }

  lemma WitnessHits(window: real, cWindow: real, c: real)
    ensures var raw, cal := RawWitness(window, cWindow, c), WitnessCalibration(window, cWindow, c);
      forall k :: 0 <= k < 4 ==>
        cal.Correction(raw[k]) == CorrectionOf(raw[k].channelID, window, cWindow, c) && cal.Accepts(raw[k])
  {
    hide CorrectionOf, WitnessCalibration, SeedTime, Cycles;
    var raw := RawWitness(window, cWindow, c);
    forall k | 0 <= k < 4
      ensures var cal := WitnessCalibration(window, cWindow, c);
        cal.Correction(raw[k]) == CorrectionOf(raw[k].channelID, window, cWindow, c) && cal.Accepts(raw[k])
    {
      WitnessCorrects(window, cWindow, c, raw[k]);
    }
  }

  lemma WitnessSortable(window: real, cWindow: real, c: real)
    requires window >= 0.0 && cWindow >= 0.0 && c >= 0.0
    ensures var raw := RawWitness(window, cWindow, c); Sortable(WitnessCalibration(window, cWindow, c), raw, raw, c)
  {
    hide RawWitness, WitnessCalibration, CoarseSorter.TruncDiv, CorrectionOf;
    WitnessCorrections(window, cWindow, c);
    WitnessTimes(window, cWindow, c);
    var raw, cal := RawWitness(window, cWindow, c), WitnessCalibration(window, cWindow, c);
    InCoarseOrder(raw, Cycles(cWindow, c));
    hide cal.Correction, CoarseSorter.CoarseOrder;
    AtMost(cal, raw, c);
  }

  lemma AtMost(cal: P.Calibration, raw: seq<RawHit>, c: real)
    requires forall k :: 0 <= k < |raw| ==> 0.0 <= cal.Correction(raw[k]) <= c
    ensures P.SpansAtMost(cal, raw, c)
  {
    hide cal.Correction;
  }

  lemma WitnessTimes(window: real, cWindow: real, c: real)
    requires window >= 0.0 && cWindow >= 0.0 && c >= 0.0
    ensures var raw, m := RawWitness(window, cWindow, c), Cycles(cWindow, c);
      |raw| == 4 && m >= 0 && raw[0].time == 3 * m && raw[1].time == 4 * m + 3 <= raw[3].time && raw[2].time == 4 * m
  {
    hide Cycles, Reached;
    CyclesReach(window, c);
    CyclesReach(cWindow, c);
  }

  lemma InCoarseOrder(raw: seq<RawHit>, m: nat)
    requires |raw| == 4 && raw[0].time == 3 * m && raw[1].time == 4 * m + 3 <= raw[3].time && raw[2].time == 4 * m
    ensures CoarseSorter.CoarseOrder(raw, raw)
  {
  }

  lemma WitnessCorrections(window: real, cWindow: real, c: real)
    requires window >= 0.0 && cWindow >= 0.0 && c >= 0.0
    ensures var raw, cal := RawWitness(window, cWindow, c), WitnessCalibration(window, cWindow, c);
      forall k :: 0 <= k < 4 ==> 0.0 <= cal.Correction(raw[k]) <= c
  {
    hide Cycles, Reached, WitnessCalibration;
    CyclesReach(window, c);
    CyclesReach(cWindow, c);
    WitnessHits(window, cWindow, c);
  }

  lemma WitnessTelling(window: real, cWindow: real, c: real)
    requires window >= 0.0 && cWindow >= 0.0 && c >= 0.0
    ensures Telling(WitnessCalibration(window, cWindow, c).Process(RawWitness(window, cWindow, c)), Reached(window, c),
                    Reached(cWindow, c), 3.0 + c, SeedTime(cWindow, c) as real)
  {
    hide Cycles, Reached;
    var raw, cal := RawWitness(window, cWindow, c), WitnessCalibration(window, cWindow, c);
    WitnessHits(window, cWindow, c);
    hide cal.Correction, cal.Accepts;
    ProcessFour(cal, raw[0], raw[1], raw[2], raw[3]);
    assert raw == [raw[0], raw[1], raw[2], raw[3]];
  }

  lemma ProcessFour(cal: P.Calibration, a: RawHit, b: RawHit, c: RawHit, d: RawHit)
    requires cal.Accepts(a) && cal.Accepts(b) && cal.Accepts(c) && cal.Accepts(d)
    ensures cal.Process([a, b, c, d]) == [cal.Calibrated(a), cal.Calibrated(b), cal.Calibrated(c), cal.Calibrated(d)]
  {
    assert [a][..0] == [] && [a, b][..1] == [a] && [a, b, c][..2] == [a, b] && [a, b, c, d][..3] == [a, b, c];
    assert cal.Process([]) == [];
    assert cal.Process([a]) == [cal.Calibrated(a)];
    assert cal.Process([a, b]) == [cal.Calibrated(a), cal.Calibrated(b)];
    assert cal.Process([a, b, c]) == [cal.Calibrated(a), cal.Calibrated(b), cal.Calibrated(c)];
  }

  // ---------------------------------------------------------------- the bound

  /** The condition of CoincidencesExhaustive is exact, for all windows and all spans of the corrections: the
      early ends lose nothing, for all raw hits, sorted orders and calibrations, if and only if three cycles,
      the span and what can be reached of both windows come within the overlap and the coincidence window. */
  lemma BoundIsExact(window: real, cWindow: real, c: real)
    requires window >= 0.0 && cWindow >= 0.0 && c >= 0.0
    ensures EarlyEndsLoseNone(window, cWindow, c) <==> WithinOverlap(window, cWindow, c)
  {
    hide SamePairs, Sortable, Reached;
    if WithinOverlap(window, cWindow, c) {
      forall cfg: TriggerConfig, cal: P.Calibration, raw: seq<RawHit>, sorted: seq<RawHit> |
        cfg.maxHits >= 1 && cfg.groupWindow == window && cfg.coincidenceWindow == cWindow && Sortable(cal, raw, sorted, c)
        ensures SamePairs(cfg, cal.Process(sorted))
      {
        SamePairsWithin(cfg, cal, raw, sorted, c);
      }
    } else {
      var raw, cal := RawWitness(window, cWindow, c), WitnessCalibration(window, cWindow, c);
      WitnessSortable(window, cWindow, c);
      WitnessTelling(window, cWindow, c);
      CyclesReach(window, c);
      CyclesReach(cWindow, c);
      TellingLosesPair(cal.Process(raw), window, cWindow, Reached(window, c), Reached(cWindow, c), 3.0 + c,
                       SeedTime(cWindow, c) as real);
      assert !SamePairs(OpenConfig(window, cWindow), cal.Process(raw));
    }
  }

  /** In particular, for corrections that may span at least one cycle, if and only if c and the group window
      are within 37, which is 3 less than the overlap; the coincidence window does not matter. For smaller spans that is
      sufficient but not necessary: without corrections a group window of 37.5 loses nothing. */
  lemma BoundFromOneCycle(window: real, cWindow: real, c: real)
    requires window >= 0.0 && cWindow >= 0.0 && c >= 0.0
    ensures c >= 1.0 ==> (EarlyEndsLoseNone(window, cWindow, c) <==> c + window <= 37.0)
    ensures c + window <= 37.0 ==> EarlyEndsLoseNone(window, cWindow, c)
    ensures EarlyEndsLoseNone(37.5, cWindow, 0.0)
  {
    hide EarlyEndsLoseNone;
    BoundIsExact(window, cWindow, c);
    WithinOverlapIff(window, cWindow, c);
    BoundIsExact(37.5, cWindow, 0.0);
    ReachedNear(cWindow, 0.0);
    assert Reached(37.5, 0.0) == 37.0;
  }
}
