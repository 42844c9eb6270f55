/** The fourth stage: pairs of photons that are close in time (src/base/CoincidenceGrouper.cpp). */
module CoincidenceGrouper {
  import opened Events
  import opened Grouping

  /** The two photons make a prompt coincidence. */
  predicate Prompt(cfg: TriggerConfig, a: GammaPhoton, b: GammaPhoton) {
    cfg.coincidence(a.region, b.region) && Abs(a.time - b.time) <= cfg.coincidenceWindow
  }

  /** So far in the future of the other that the search ends. */
  predicate Far(cfg: TriggerConfig, a: GammaPhoton, b: GammaPhoton) {
    b.time - a.time > OVERLAP + cfg.coincidenceWindow
  }

  /** The partners of photon i from j on; with stop the search ends at the first far enough in the future. */
  function Partners(cfg: TriggerConfig, p: seq<GammaPhoton>, i: nat, j: nat, stop: bool): seq<(nat, nat)>
    requires i < |p|
    decreases |p| - j
  {
    if j >= |p| then []
    else if stop && Far(cfg, p[i], p[j]) then []
    else (if Prompt(cfg, p[i], p[j]) then [(i, j)] else []) + Partners(cfg, p, i, j + 1, stop)
  }

  function Pairs(cfg: TriggerConfig, p: seq<GammaPhoton>, i: nat, stop: bool): seq<(nat, nat)>
    decreases |p| - i
  {
    if i >= |p| then [] else Partners(cfg, p, i, i + 1, stop) + Pairs(cfg, p, i + 1, stop)
  }

  /** The photon with the higher region comes first, the later one if the regions are equal. */
  function PairUp(a: GammaPhoton, b: GammaPhoton): Coincidence {
    if a.region > b.region then Coincidence(a, b) else Coincidence(b, a)
  }

  /** A coincidence of an earlier and a later photon: not the lower region first, and of equal regions the
      later photon. */
  predicate MadeOf(c: Coincidence, earlier: GammaPhoton, later: GammaPhoton) {
    && ((c.first == earlier && c.second == later) || (c.first == later && c.second == earlier))
    && c.first.region >= c.second.region
    && (earlier.region == later.region ==> c.first == later && c.second == earlier)
  }

  ghost predicate InRange(p: seq<GammaPhoton>, pairs: seq<(nat, nat)>) {
    forall k :: 0 <= k < |pairs| ==> pairs[k].0 < |p| && pairs[k].1 < |p|
  }

  ghost function PairedUp(p: seq<GammaPhoton>, pairs: seq<(nat, nat)>): seq<Coincidence>
    requires InRange(p, pairs)
  {
    seq(|pairs|, k requires 0 <= k < |pairs| => PairUp(p[pairs[k].0], p[pairs[k].1]))
  }

  lemma PartnersFrom(cfg: TriggerConfig, p: seq<GammaPhoton>, i: nat, j: nat)
    requires i < |p| && j <= |p|
    ensures Partners(cfg, p, i, j, true) ==
      if j == |p| || Far(cfg, p[i], p[j]) then []
      else (if Prompt(cfg, p[i], p[j]) then [(i, j)] else []) + Partners(cfg, p, i, j + 1, true)
  {
  }

  class CoincidenceGrouper {
    const cfg: TriggerConfig
    var nPrompts: nat

    constructor (cfg: TriggerConfig)
      ensures this.cfg == cfg && nPrompts == 0
    {
      this.cfg := cfg;
      nPrompts := 0;
    }

    /** The inner loop: pairs photon i with the later photons. */
    method PairPhoton(inBuffer: EventBuffer<GammaPhoton>, i: nat, outBuffer: EventBuffer<Coincidence>, l: nat)
      returns (lPrompts: nat)
      requires inBuffer.Valid() && i < inBuffer.used && outBuffer.Valid()
      requires {inBuffer as object, inBuffer.buffer} !! {outBuffer as object, outBuffer.buffer}
      modifies outBuffer`buffer, outBuffer`used, outBuffer.buffer
      ensures outBuffer.Valid() && (outBuffer.buffer == old(outBuffer.buffer) || fresh(outBuffer.buffer))
      ensures var p := inBuffer.Contents();
        var q := Partners(cfg, p, i, i + 1, true);
        && InRange(p, q) && lPrompts == l + |q|
        && outBuffer.Contents() == old(outBuffer.Contents()) + PairedUp(p, q)
    {
      hide Prompt, PairUp, PairedUp, InRange, Partners;
      PairedUpNone(inBuffer.Contents());
      ghost var p := inBuffer.Contents();
      ghost var done: seq<(nat, nat)> := [];
      var photon1 := inBuffer.buffer[i];
      lPrompts := l;
      var j := i + 1;
      while j < inBuffer.used
        invariant i < j <= inBuffer.used && inBuffer.Contents() == p
        invariant outBuffer.Valid() && (outBuffer.buffer == old(outBuffer.buffer) || fresh(outBuffer.buffer))
        invariant done + Partners(cfg, p, i, j, true) == Partners(cfg, p, i, i + 1, true)
        invariant InRange(p, done) && lPrompts == l + |done|
        invariant outBuffer.Contents() == old(outBuffer.Contents()) + PairedUp(p, done)
      {
        var photon2 := inBuffer.buffer[j];
        PartnersFrom(cfg, p, i, j);
        assert p[i] == photon1 && p[j] == photon2;
        if Far(cfg, photon1, photon2) { break; }
        if Prompt(cfg, photon1, photon2) {
          outBuffer.Push(PairUp(photon1, photon2));
          lPrompts := lPrompts + 1;
          PairedUpGrows(p, done, (i, j));
          done := done + [(i, j)];
        }
        j := j + 1;
      }
      PartnersFrom(cfg, p, i, j);
      assert done == Partners(cfg, p, i, i + 1, true);
    }

    method HandleEvents(inBuffer: EventBuffer<GammaPhoton>) returns (outBuffer: EventBuffer<Coincidence>)
      requires inBuffer.Valid()
      modifies this
      ensures fresh(outBuffer) && outBuffer.Valid() && outBuffer.tMin == inBuffer.tMin
      ensures var p := inBuffer.Contents();
        var pairs := Pairs(cfg, p, 0, true);
        && InRange(p, pairs) && outBuffer.Contents() == PairedUp(p, pairs)
        && nPrompts == Add32(old(nPrompts), |pairs|)
      ensures var p, out, pairs := inBuffer.Contents(), outBuffer.Contents(), Pairs(cfg, inBuffer.Contents(), 0, true);
        && |out| == |pairs| && Lexicographic(pairs)
        && (forall k :: 0 <= k < |out| ==>
              pairs[k].0 < pairs[k].1 < |p| && MadeOf(out[k], p[pairs[k].0], p[pairs[k].1]))
        && (forall a: nat, b: nat :: (a, b) in pairs <==>
              a < b < |p| && cfg.coincidence(p[a].region, p[b].region)
              && -cfg.coincidenceWindow <= p[b].time - p[a].time <= cfg.coincidenceWindow
              && forall m :: a < m <= b ==> p[m].time - p[a].time <= 40.0 + cfg.coincidenceWindow)
    {
      hide Prompt, PairUp, PairedUp, InRange, Partners, Far, Lexicographic, MadeOf;
      PairedUpNone(inBuffer.Contents());
      var n := inBuffer.used;
      ghost var p := inBuffer.Contents();
      outBuffer := new EventBuffer<Coincidence>(n, inBuffer.tMin);
      ghost var done: seq<(nat, nat)> := [];
      var lPrompts := 0;
      for i := 0 to n
        invariant fresh(outBuffer) && fresh(outBuffer.buffer) && outBuffer.Valid() && outBuffer.tMin == inBuffer.tMin
        invariant inBuffer.Valid() && inBuffer.used == n && inBuffer.Contents() == p && unchanged(this)
        invariant done + Pairs(cfg, p, i, true) == Pairs(cfg, p, 0, true)
        invariant InRange(p, done) && outBuffer.Contents() == PairedUp(p, done) && lPrompts == |done|
      {
        lPrompts := PairPhoton(inBuffer, i, outBuffer, lPrompts);
        ghost var q := Partners(cfg, p, i, i + 1, true);
        PairedUpJoins(p, done, q);
        done := done + q;
      }
      assert done == Pairs(cfg, p, 0, true);
      nPrompts := Add32(nPrompts, lPrompts);
      PrunedExact(cfg, p);
      AllMade(p, done);
    }
  }

  lemma PairedUpJoins(p: seq<GammaPhoton>, done: seq<(nat, nat)>, q: seq<(nat, nat)>)
    requires InRange(p, done) && InRange(p, q)
    ensures InRange(p, done + q) && PairedUp(p, done + q) == PairedUp(p, done) + PairedUp(p, q)
  {
  }

  lemma AllMade(p: seq<GammaPhoton>, pairs: seq<(nat, nat)>)
    requires InRange(p, pairs)
    ensures |PairedUp(p, pairs)| == |pairs|
    ensures forall k :: 0 <= k < |pairs| ==>
                    pairs[k].0 < |p| && pairs[k].1 < |p| && MadeOf(PairedUp(p, pairs)[k], p[pairs[k].0], p[pairs[k].1])
  {
  }

  lemma PairedUpNone(p: seq<GammaPhoton>)
    ensures InRange(p, []) && PairedUp(p, []) == []
  {
  }

  lemma PairedUpGrows(p: seq<GammaPhoton>, done: seq<(nat, nat)>, ij: (nat, nat))
    requires InRange(p, done) && ij.0 < |p| && ij.1 < |p|
    ensures InRange(p, done + [ij]) && PairedUp(p, done + [ij]) == PairedUp(p, done) + [PairUp(p[ij.0], p[ij.1])]
  {
  }

  // ---------------------------------------------------------------- what is paired

  ghost predicate Lexicographic(pairs: seq<(nat, nat)>) {
    forall a, b :: 0 <= a < b < |pairs| ==>
      pairs[a].0 < pairs[b].0 || (pairs[a].0 == pairs[b].0 && pairs[a].1 < pairs[b].1)
  }

  lemma {:induction false} PartnersOrdered(cfg: TriggerConfig, p: seq<GammaPhoton>, i: nat, j: nat, stop: bool)
    requires i < |p|
    ensures var q := Partners(cfg, p, i, j, stop);
      Lexicographic(q) && (forall k :: 0 <= k < |q| ==> q[k].0 == i && j <= q[k].1 < |p|)
    decreases |p| - j
  {
    hide Prompt;
    if j < |p| {
      PartnersOrdered(cfg, p, i, j + 1, stop);
    }
  }

  /** The pairs found are the prompt ones, with stop those that no photon far in the future stands before. */
  predicate Found(cfg: TriggerConfig, p: seq<GammaPhoton>, i: nat, j: nat, b: nat, stop: bool)
    requires i < |p|
  {
    j <= b < |p| && Prompt(cfg, p[i], p[b]) && (stop ==> forall m :: j <= m <= b ==> !Far(cfg, p[i], p[m]))
  }

  lemma {:induction false} PartnersAll(cfg: TriggerConfig, p: seq<GammaPhoton>, i: nat, j: nat, a: nat, b: nat, stop: bool)
    requires i < |p|
    ensures (a, b) in Partners(cfg, p, i, j, stop) <==> a == i && Found(cfg, p, i, j, b, stop)
    decreases |p| - j
  {
    hide Prompt, Far;
    if j < |p| {
      PartnersAll(cfg, p, i, j + 1, a, b, stop);
      if !(stop && Far(cfg, p[i], p[j])) {
        var q, rest := Partners(cfg, p, i, j, stop), Partners(cfg, p, i, j + 1, stop);
        var first: seq<(nat, nat)> := if Prompt(cfg, p[i], p[j]) then [(i, j)] else [];
        assert q == first + rest;
      }
    }
  }

  lemma {:induction false} PairsOrdered(cfg: TriggerConfig, p: seq<GammaPhoton>, i: nat, stop: bool)
    ensures var q := Pairs(cfg, p, i, stop);
      Lexicographic(q) && forall k :: 0 <= k < |q| ==> i <= q[k].0 < q[k].1 < |p|
    decreases |p| - i
  {
    hide Prompt, Partners;
    if i < |p| {
      PartnersOrdered(cfg, p, i, i + 1, stop);
      PairsOrdered(cfg, p, i + 1, stop);
    }
  }

  lemma {:induction false} PairsAll(cfg: TriggerConfig, p: seq<GammaPhoton>, i: nat, a: nat, b: nat, stop: bool)
    ensures (a, b) in Pairs(cfg, p, i, stop) <==> i <= a < |p| && Found(cfg, p, a, a + 1, b, stop)
    decreases |p| - i
  {
    hide Found, Partners;
    if i < |p| {
      PartnersAll(cfg, p, i, i + 1, a, b, stop);
      PairsAll(cfg, p, i + 1, a, b, stop);
      var first, rest := Partners(cfg, p, i, i + 1, stop), Pairs(cfg, p, i + 1, stop);
      assert (a, b) in Pairs(cfg, p, i, stop) <==> (a, b) in first || (a, b) in rest;
    }
  }

  /** The full search yields exactly the pairs of allowed regions within the window, each once, in
      lexicographic order. */
  lemma PairsExact(cfg: TriggerConfig, p: seq<GammaPhoton>)
    ensures Lexicographic(Pairs(cfg, p, 0, false))
    ensures forall a: nat, b: nat :: (a, b) in Pairs(cfg, p, 0, false) <==>
              a < b < |p| && cfg.coincidence(p[a].region, p[b].region)
              && -cfg.coincidenceWindow <= p[b].time - p[a].time <= cfg.coincidenceWindow
  {
    PairsOrdered(cfg, p, 0, false);
    forall a: nat, b: nat
      ensures (a, b) in Pairs(cfg, p, 0, false) <==> a < b < |p| && Prompt(cfg, p[a], p[b])
    {
      PairsAll(cfg, p, 0, a, b, false);
    }
  }

  /** The pruned search yields those of them that no photon more than the overlap of 40 and the window later
      than the first one stands before. */
  lemma PrunedExact(cfg: TriggerConfig, p: seq<GammaPhoton>)
    ensures Lexicographic(Pairs(cfg, p, 0, true))
    ensures forall k :: 0 <= k < |Pairs(cfg, p, 0, true)| ==> Pairs(cfg, p, 0, true)[k].0 < Pairs(cfg, p, 0, true)[k].1 < |p|
    ensures forall a: nat, b: nat :: (a, b) in Pairs(cfg, p, 0, true) <==>
              a < b < |p| && cfg.coincidence(p[a].region, p[b].region)
              && -cfg.coincidenceWindow <= p[b].time - p[a].time <= cfg.coincidenceWindow
              && forall m :: a < m <= b ==> p[m].time - p[a].time <= 40.0 + cfg.coincidenceWindow
  {
    PairsOrdered(cfg, p, 0, true);
    forall a: nat, b: nat
      ensures (a, b) in Pairs(cfg, p, 0, true) <==> a < |p| && Found(cfg, p, a, a + 1, b, true)
    {
      PairsAll(cfg, p, 0, a, b, true);
    }
  }

  /** The search for the partners of photon a ends at m, and one of them comes after that. */
  predicate CutsOff(cfg: TriggerConfig, p: seq<GammaPhoton>, a: nat, m: nat, b: nat) {
    a < m <= b < |p| && Far(cfg, p[a], p[m]) && Prompt(cfg, p[a], p[b])
  }

  lemma {:induction false} NoPartners(cfg: TriggerConfig, p: seq<GammaPhoton>, i: nat, j: nat)
    requires i < |p| && forall k :: j <= k < |p| ==> !Prompt(cfg, p[i], p[k])
    ensures Partners(cfg, p, i, j, false) == []
    decreases |p| - j
  {
    if j < |p| {
      NoPartners(cfg, p, i, j + 1);
    }
  }

  lemma {:induction false} StopLosesNone(cfg: TriggerConfig, p: seq<GammaPhoton>, i: nat, j: nat)
    requires i < |p| && i < j && forall m: nat, b: nat :: !CutsOff(cfg, p, i, m, b)
    ensures Partners(cfg, p, i, j, true) == Partners(cfg, p, i, j, false)
    decreases |p| - j
  {
    hide Prompt, Far;
    if j < |p| {
      if Far(cfg, p[i], p[j]) {
        forall k | j <= k < |p| ensures !Prompt(cfg, p[i], p[k]) {
          assert !CutsOff(cfg, p, i, j, k);
        }
        NoPartners(cfg, p, i, j);
      } else {
        StopLosesNone(cfg, p, i, j + 1);
      }
    }
  }

  lemma {:induction false} PairsWithoutCut(cfg: TriggerConfig, p: seq<GammaPhoton>, i: nat)
    requires forall a: nat, m: nat, b: nat :: !CutsOff(cfg, p, a, m, b)
    ensures Pairs(cfg, p, i, true) == Pairs(cfg, p, i, false)
    decreases |p| - i
  {
    if i < |p| {
      StopLosesNone(cfg, p, i, i + 1);
      PairsWithoutCut(cfg, p, i + 1);
    }
  }

  /** The pruned search finds the same pairs, exactly if no partner comes after a photon at which the search
      for it ends. */
  lemma StopLosesNoneIff(cfg: TriggerConfig, p: seq<GammaPhoton>)
    ensures Pairs(cfg, p, 0, true) == Pairs(cfg, p, 0, false) <==> forall a: nat, m: nat, b: nat :: !CutsOff(cfg, p, a, m, b)
  {
    hide Prompt, Far, Pairs;
    if a: nat, m: nat, b: nat :| CutsOff(cfg, p, a, m, b) {
      PairsAll(cfg, p, 0, a, b, true);
      PairsAll(cfg, p, 0, a, b, false);
    } else {
      PairsWithoutCut(cfg, p, 0);
    }
  }

  /** The photons' times are out of order by at most tol. */
  ghost predicate Disordered(p: seq<GammaPhoton>, tol: real) {
    forall a, b :: 0 <= a < b < |p| ==> p[a].time <= p[b].time + tol
  }

  /** So it is if the times are out of order by no more than the overlap. */
  lemma PairsStopLosesNone(cfg: TriggerConfig, p: seq<GammaPhoton>, i: nat)
    requires Disordered(p, OVERLAP)
    ensures Pairs(cfg, p, i, true) == Pairs(cfg, p, i, false)
  {
    PairsWithoutCut(cfg, p, i);
  }
}
