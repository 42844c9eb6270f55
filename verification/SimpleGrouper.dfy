/** The third stage: hits become gamma photons (src/base/SimpleGrouper.cpp). */
module SimpleGrouper {
  import opened Events
  import opened Sequences
  import opened Grouping
  import opened EnergySort

  predicate InRange(h: seq<Hit>, group: seq<nat>) {
    group != [] && forall a :: 0 <= a < |group| ==> group[a] < |h|
  }

  function HitsOf(h: seq<Hit>, group: seq<nat>): seq<Hit>
    requires InRange(h, group)
  {
    seq(|group|, a requires 0 <= a < |group| => h[group[a]])
  }

  /** The hits kept of a group: the first maxHits of them. */
  function Kept(cfg: TriggerConfig, h: seq<Hit>, group: seq<nat>): seq<Hit>
    requires InRange(h, group)
  {
    if |group| > cfg.maxHits then HitsOf(h, group)[..cfg.maxHits] else HitsOf(h, group)
  }

  /** The photon assembled from a group: the kept hits by energy, and the first of them in its fields. */
  function PhotonOf(cfg: TriggerConfig, h: seq<Hit>, group: seq<nat>): GammaPhoton
    requires cfg.maxHits >= 1 && InRange(h, group)
  {
    Assemble(ByEnergy(Kept(cfg, h, group)))
  }

  function Assemble(hits: seq<Hit>): GammaPhoton {
    if hits == [] then GammaPhoton(0.0, 0.0, 0, 0.0, 0.0, 0.0, [])
    else GammaPhoton(hits[0].time, hits[0].energy, hits[0].region, hits[0].x, hits[0].y, hits[0].z, hits)
  }

  predicate Overflows(cfg: TriggerConfig, group: seq<nat>) { |group| > cfg.maxHits }

  predicate TooLow(cfg: TriggerConfig, p: GammaPhoton) { p.energy < cfg.minEnergy }

  predicate TooHigh(cfg: TriggerConfig, p: GammaPhoton) { p.energy > cfg.maxEnergy }

  predicate Passes(cfg: TriggerConfig, h: seq<Hit>, group: seq<nat>)
    requires cfg.maxHits >= 1 && InRange(h, group)
  {
    var p := PhotonOf(cfg, h, group);
    !Overflows(cfg, group) && !TooLow(cfg, p) && !TooHigh(cfg, p)
  }

  predicate AllInRange(h: seq<Hit>, groups: seq<seq<nat>>) { forall g :: g in groups ==> InRange(h, g) }

  /** The photons of the groups that pass, in the order of the groups. */
  function Photons(cfg: TriggerConfig, h: seq<Hit>, groups: seq<seq<nat>>): seq<GammaPhoton>
    requires cfg.maxHits >= 1 && AllInRange(h, groups)
  {
    if groups == [] then []
    else
      var last := groups[|groups| - 1];
      Photons(cfg, h, groups[..|groups| - 1]) + if Passes(cfg, h, last) then [PhotonOf(cfg, h, last)] else []
  }

  /** The photon counters; sizes[k] counts the groups of k + 1 hits. */
  datatype Tally = Tally(found: nat, overflow: nat, low: nat, high: nat, passed: nat, sizes: seq<nat>)

  function Tick(flag: bool): nat { if flag then 1 else 0 }

  function NoTally(cfg: TriggerConfig): Tally { Tally(0, 0, 0, 0, 0, seq(cfg.maxHits, k => 0)) }

  function Tallying(cfg: TriggerConfig, h: seq<Hit>, t: Tally, group: seq<nat>): (r: Tally)
    requires cfg.maxHits >= 1 && InRange(h, group) && |t.sizes| == cfg.maxHits
    ensures |r.sizes| == cfg.maxHits
  {
    var p := PhotonOf(cfg, h, group);
    Tally(t.found + 1, t.overflow + Tick(Overflows(cfg, group)),
          t.low + Tick(TooLow(cfg, p)), t.high + Tick(TooHigh(cfg, p)),
          t.passed + Tick(Passes(cfg, h, group)),
          if Overflows(cfg, group) then t.sizes else t.sizes[|group| - 1 := t.sizes[|group| - 1] + 1])
  }

  function Tallied(cfg: TriggerConfig, h: seq<Hit>, groups: seq<seq<nat>>): (t: Tally)
    requires cfg.maxHits >= 1 && AllInRange(h, groups)
    ensures |t.sizes| == cfg.maxHits
  {
    if groups == [] then NoTally(cfg)
    else Tallying(cfg, h, Tallied(cfg, h, groups[..|groups| - 1]), groups[|groups| - 1])
  }

  ghost function ValidHits(h: seq<Hit>): set<nat> { set k: nat | k < |h| && h[k].valid }

  lemma GroupsInRange(cfg: TriggerConfig, h: seq<Hit>, i: nat, taken: seq<bool>, stop: bool)
    requires |h| == |taken|
    ensures AllInRange(h, Groups(cfg, h, i, taken, stop))
  {
    GroupShape(cfg, h, i, taken, stop);
    var g := Groups(cfg, h, i, taken, stop);
    forall group | group in g
      ensures InRange(h, group)
    {
      var n :| 0 <= n < |g| && g[n] == group;
      assert IsGroup(cfg, h, g[n]);
    }
  }

  /** The array holds what is kept of the group. */
  ghost predicate Holds(cfg: TriggerConfig, h: seq<Hit>, group: seq<nat>, hits: seq<Hit>) {
    && InRange(h, group) && |Kept(cfg, h, group)| <= |hits|
    && hits[..|Kept(cfg, h, group)|] == Kept(cfg, h, group)
  }

  lemma KeptGrows(cfg: TriggerConfig, h: seq<Hit>, group: seq<nat>, j: nat, hits: seq<Hit>)
    requires Holds(cfg, h, group, hits) && j < |h| && |hits| == cfg.maxHits
    ensures Holds(cfg, h, group + [j], if |group| < cfg.maxHits then hits[|group| := h[j]] else hits)
  {
    assert HitsOf(h, group + [j]) == HitsOf(h, group) + [h[j]];
  }

  lemma KeptSize(cfg: TriggerConfig, h: seq<Hit>, group: seq<nat>)
    requires InRange(h, group)
    ensures |Kept(cfg, h, group)| == if |group| > cfg.maxHits then cfg.maxHits else |group|
  {
  }

  lemma KeptSeed(cfg: TriggerConfig, h: seq<Hit>, i: nat, hits: seq<Hit>)
    requires i < |h| && cfg.maxHits >= 1 && |hits| >= 1 && hits[0] == h[i]
    ensures Holds(cfg, h, [i], hits)
  {
  }

  lemma MarkGrows(was: seq<bool>, group: seq<nat>, j: nat)
    requires j < |was|
    ensures Mark(was, group + [j]) == Mark(was, group)[j := true]
  {
  }

  /** The inner loop between two hits: what it has collected, and what it still will, is the seed's group. */
  ghost predicate Collecting(cfg: TriggerConfig, h: seq<Hit>, i: nat, j: nat, was: seq<bool>, taken: seq<bool>, group: seq<nat>) {
    && i < |h| == |was| == |taken| && i < j <= |h|
    && group + Members(cfg, h, i, j, was, true) == [i] + Members(cfg, h, i, i + 1, was, true)
    && (forall k :: k in group ==> k < j)
    && taken == Mark(was, group)
  }

  lemma CollectSeed(cfg: TriggerConfig, h: seq<Hit>, i: nat, was: seq<bool>)
    requires i < |h| == |was|
    ensures Collecting(cfg, h, i, i + 1, was, was[i := true], [i])
  {
    hide Members;
    assert was[i := true] == Mark(was, [i]);
  }

  lemma CollectNext(cfg: TriggerConfig, h: seq<Hit>, i: nat, j: nat, was: seq<bool>, taken: seq<bool>, group: seq<nat>)
    requires Collecting(cfg, h, i, j, was, taken, group) && j < |h|
    ensures if !h[j].valid || taken[j] then Collecting(cfg, h, i, j + 1, was, taken, group)
      else if h[j].time - h[i].time > OVERLAP + cfg.groupWindow then
        group == [i] + Members(cfg, h, i, i + 1, was, true) && taken == Mark(was, group)
      else if Fits(cfg, h[i], h[j]) then Collecting(cfg, h, i, j + 1, was, taken[j := true], group + [j])
      else Collecting(cfg, h, i, j + 1, was, taken, group)
  {
    hide Fits;
    assert taken[j] == was[j] by {
      assert taken[j] == (was[j] || j in group);
    }
    MembersFrom(cfg, h, i, j, was);
    MarkGrows(was, group, j);
    hide Members, Mark;
    var rest := Members(cfg, h, i, j + 1, was, true);
    assert group + ([j] + rest) == group + [j] + rest;
    assert group + [] == group;
  }

  lemma MembersFrom(cfg: TriggerConfig, h: seq<Hit>, i: nat, j: nat, taken: seq<bool>)
    requires i < |h| == |taken| && j < |h|
    ensures var rest := Members(cfg, h, i, j + 1, taken, true);
      Members(cfg, h, i, j, taken, true) ==
      if !h[j].valid || taken[j] then rest
      else if h[j].time - h[i].time > OVERLAP + cfg.groupWindow then []
      else if Fits(cfg, h[i], h[j]) then [j] + rest
      else rest
  {
  }

  lemma CollectEnd(cfg: TriggerConfig, h: seq<Hit>, i: nat, was: seq<bool>, taken: seq<bool>, group: seq<nat>)
    requires Collecting(cfg, h, i, |h|, was, taken, group)
    ensures group == [i] + Members(cfg, h, i, i + 1, was, true) && taken == Mark(was, group)
  {
    assert Members(cfg, h, i, |h|, was, true) == [];
  }

  /** The inner loop: the hits of the seed's group, of which the array keeps the first maxHits. */
  method Collect(cfg: TriggerConfig, inBuffer: EventBuffer<Hit>, i: nat, taken: array<bool>, hits: array<Hit>)
    returns (nHits: nat)
    requires cfg.maxHits >= 1 && inBuffer.Valid() && i < inBuffer.used == taken.Length && hits.Length == cfg.maxHits
    requires hits != inBuffer.buffer
    modifies taken, hits
    ensures var h, was := inBuffer.Contents(), old(taken[..]);
      var group := [i] + Members(cfg, h, i, i + 1, was, true);
      nHits == |group| && taken[..] == Mark(was, group) && Holds(cfg, h, group, hits[..])
  {
    hide Fits, Kept, Members, Mark, Collecting, Holds;
    ghost var h, was := inBuffer.Contents(), taken[..];
    ghost var group: seq<nat> := [i];
    var hit := inBuffer.buffer[i];
    taken[i] := true;
    hits[0] := hit;
    nHits := 1;
    KeptSeed(cfg, h, i, hits[..]);
    CollectSeed(cfg, h, i, was);
    var j := i + 1;
    while j < inBuffer.used
      invariant i < j <= inBuffer.used && inBuffer.Contents() == h
      invariant Collecting(cfg, h, i, j, was, taken[..], group)
      invariant nHits == |group| && Holds(cfg, h, group, hits[..])
    {
      var hit2 := inBuffer.buffer[j];
      assert h[j] == hit2 && h[i] == hit;
      CollectNext(cfg, h, i, j, was, taken[..], group);
      if hit2.valid && !taken[j] {
        if hit2.time - hit.time > OVERLAP + cfg.groupWindow { break; }
        if Fits(cfg, hit, hit2) {
          KeptGrows(cfg, h, group, j, hits[..]);
          taken[j] := true;
          if nHits < cfg.maxHits {
            hits[nHits] := hit2;
          }
          nHits := nHits + 1;
          group := group + [j];
        }
      }
      j := j + 1;
    }
    if j == |h| {
      CollectEnd(cfg, h, i, was, taken[..], group);
    }
  }

  /** One more group: its photon is appended if it passes, and it is counted either way. */
  method Finish(cfg: TriggerConfig, ghost h: seq<Hit>, ghost group: seq<nat>, found: nat, hits: array<Hit>,
                outBuffer: EventBuffer<GammaPhoton>, t: Tally) returns (l: Tally)
    requires cfg.maxHits >= 1 && hits.Length == |t.sizes| == cfg.maxHits && outBuffer.Valid()
    requires Holds(cfg, h, group, hits[..]) && found == |group|
    modifies hits, outBuffer`buffer, outBuffer`used, outBuffer.buffer
    ensures outBuffer.Valid() && (outBuffer.buffer == old(outBuffer.buffer) || fresh(outBuffer.buffer))
    ensures outBuffer.Contents() == old(outBuffer.Contents()) + if Passes(cfg, h, group) then [PhotonOf(cfg, h, group)] else []
    ensures l == Tallying(cfg, h, t, group)
  {
    hide ByEnergy, HitsOf, Assemble;
    var nHits, overflow, low, high := found, false, false, false;
    if nHits > cfg.maxHits {
      overflow := true;
      nHits := cfg.maxHits;
    }
    KeptSize(cfg, h, group);
    BubbleSort(hits, nHits);
    var photon := Assemble(hits[..nHits]);
    assert photon == PhotonOf(cfg, h, group);
    if photon.energy < cfg.minEnergy { low := true; }
    if photon.energy > cfg.maxEnergy { high := true; }
    l := t.(found := t.found + 1);
    if overflow {
      l := l.(overflow := l.overflow + 1);
    } else {
      l := l.(sizes := l.sizes[nHits - 1 := l.sizes[nHits - 1] + 1]);
    }
    if low { l := l.(low := l.low + 1); }
    if high { l := l.(high := l.high + 1); }
    var slot := outBuffer.GetWriteSlot();
    outBuffer.buffer[slot] := photon;
    if !overflow && !low && !high {
      l := l.(passed := l.passed + 1);
      outBuffer.PushWriteSlot();
    }
  }

  // ---------------------------------------------------------------- what a photon is

  /** A photon that is passed on holds its whole group, highest energy first, and describes that hit. */
  lemma PhotonHoldsGroup(cfg: TriggerConfig, h: seq<Hit>, group: seq<nat>)
    requires cfg.maxHits >= 1 && InRange(h, group) && Passes(cfg, h, group)
    ensures var p := PhotonOf(cfg, h, group);
      && multiset(p.hits) == multiset(HitsOf(h, group)) && Descending(p.hits) && |p.hits| == |group|
      && p.time == p.hits[0].time && p.energy == p.hits[0].energy && p.region == p.hits[0].region
      && p.x == p.hits[0].x && p.y == p.hits[0].y && p.z == p.hits[0].z
      && (forall a :: 0 <= a < |group| ==> h[group[a]].energy <= p.energy)
      && cfg.minEnergy <= p.energy <= cfg.maxEnergy
  {
    var hits := HitsOf(h, group);
    ByEnergySorts(hits);
    var p := PhotonOf(cfg, h, group);
    assert |multiset(p.hits)| == |multiset(hits)|;
    forall a | 0 <= a < |group|
      ensures h[group[a]].energy <= p.energy
    {
      assert hits[a] in multiset(p.hits);
      var b :| 0 <= b < |p.hits| && p.hits[b] == hits[a];
    }
  }

  /** The highest energy in a group. */
  function MaxEnergy(h: seq<Hit>, group: seq<nat>): (e: real)
    requires InRange(h, group)
    ensures forall a :: 0 <= a < |group| ==> h[group[a]].energy <= e
    ensures exists a :: 0 <= a < |group| && h[group[a]].energy == e
  {
    var n := |group| - 1;
    if n == 0 then h[group[0]].energy
    else
      var e, last := MaxEnergy(h, group[..n]), h[group[n]].energy;
      assert exists a :: 0 <= a < n && h[group[..n][a]].energy == e && group[..n][a] == group[a];
      if last > e then last else e
  }

  /** The photon of a group: its hits, the strongest one first and in the fields. */
  ghost predicate PhotonFor(h: seq<Hit>, group: seq<nat>, p: GammaPhoton)
    requires InRange(h, group)
  {
    && StablySorted(seq(|group|, a requires 0 <= a < |group| => h[group[a]]), p.hits)
    && p.hits != [] && p.time == p.hits[0].time && p.energy == p.hits[0].energy && p.region == p.hits[0].region
    && p.x == p.hits[0].x && p.y == p.hits[0].y && p.z == p.hits[0].z
  }

  /** The groups that become photons: those that are not too large, of which the strongest hit's energy is
      within its limits. */
  function Chosen(cfg: TriggerConfig, h: seq<Hit>, groups: seq<seq<nat>>): (r: seq<seq<nat>>)
    requires AllInRange(h, groups)
    ensures AllInRange(h, r)
  {
    if groups == [] then []
    else
      var g := groups[|groups| - 1];
      assert g in groups;
      Chosen(cfg, h, groups[..|groups| - 1])
      + if |g| <= cfg.maxHits && cfg.minEnergy <= MaxEnergy(h, g) <= cfg.maxEnergy then [g] else []
  }

  /** The hits of a group that are kept. */
  function First(cfg: TriggerConfig, group: seq<nat>): seq<nat> {
    if |group| <= cfg.maxHits then group else group[..cfg.maxHits]
  }

  lemma StrongestFirst(cfg: TriggerConfig, h: seq<Hit>, group: seq<nat>)
    requires cfg.maxHits >= 1 && InRange(h, group)
    ensures InRange(h, First(cfg, group)) && PhotonFor(h, First(cfg, group), PhotonOf(cfg, h, group))
    ensures PhotonOf(cfg, h, group).energy == MaxEnergy(h, First(cfg, group))
  {
    var first, p := First(cfg, group), PhotonOf(cfg, h, group);
    var hits := seq(|first|, a requires 0 <= a < |first| => h[first[a]]);
    assert Kept(cfg, h, group) == hits;
    SortsStably(hits);
    assert |multiset(p.hits)| == |multiset(hits)|;
    HighestFirst(h, first, hits, p.hits);
  }

  lemma HighestFirst(h: seq<Hit>, group: seq<nat>, hits: seq<Hit>, sorted: seq<Hit>)
    requires InRange(h, group) && hits == seq(|group|, a requires 0 <= a < |group| => h[group[a]])
    requires StablySorted(hits, sorted) && sorted != []
    ensures sorted[0].energy == MaxEnergy(h, group)
  {
    var e := MaxEnergy(h, group);
    var a :| 0 <= a < |group| && h[group[a]].energy == e;
    hide MaxEnergy;
    assert hits[a] in multiset(sorted);
    var b :| 0 <= b < |sorted| && sorted[b] == hits[a];
    assert sorted[0] in multiset(hits);
    var c :| 0 <= c < |hits| && hits[c] == sorted[0];
    assert h[group[c]].energy <= e;
  }

  /** The output has exactly the photons of those groups, in their order. */
  lemma {:induction false} PhotonsExact(cfg: TriggerConfig, h: seq<Hit>, groups: seq<seq<nat>>)
    requires cfg.maxHits >= 1 && AllInRange(h, groups)
    ensures var chosen, out := Chosen(cfg, h, groups), Photons(cfg, h, groups);
      |out| == |chosen| && forall k :: 0 <= k < |out| ==> chosen[k] in chosen && PhotonFor(h, chosen[k], out[k])
  {
    hide PhotonFor, PhotonOf, MaxEnergy, InRange;
    if groups != [] {
      var n := |groups| - 1;
      assert groups[n] in groups;
      PhotonsExact(cfg, h, groups[..n]);
      StrongestFirst(cfg, h, groups[n]);
    }
  }

  // ---------------------------------------------------------------- what the counters count

  function CountGroups(groups: seq<seq<nat>>, p: seq<nat> -> bool): nat {
    if groups == [] then 0 else CountGroups(groups[..|groups| - 1], p) + if p(groups[|groups| - 1]) then 1 else 0
  }

  function TooLarge(cfg: TriggerConfig): seq<nat> -> bool { (g: seq<nat>) => |g| > cfg.maxHits }

  function OfSize(n: nat): seq<nat> -> bool { (g: seq<nat>) => |g| == n }

  /** The strongest hit kept is below or above the limits. */
  function Weak(cfg: TriggerConfig, h: seq<Hit>): seq<nat> -> bool {
    (g: seq<nat>) => InRange(h, First(cfg, g)) && MaxEnergy(h, First(cfg, g)) < cfg.minEnergy
  }

  function Strong(cfg: TriggerConfig, h: seq<Hit>): seq<nat> -> bool {
    (g: seq<nat>) => InRange(h, First(cfg, g)) && MaxEnergy(h, First(cfg, g)) > cfg.maxEnergy
  }

  /** What one group adds. */
  lemma TallyOne(cfg: TriggerConfig, h: seq<Hit>, t: Tally, group: seq<nat>)
    requires cfg.maxHits >= 1 && InRange(h, group) && |t.sizes| == cfg.maxHits
    ensures InRange(h, First(cfg, group))
    ensures var r, e := Tallying(cfg, h, t, group), MaxEnergy(h, First(cfg, group));
      && r.found == t.found + 1 && r.overflow == t.overflow + Tick(|group| > cfg.maxHits)
      && r.low == t.low + Tick(e < cfg.minEnergy) && r.high == t.high + Tick(e > cfg.maxEnergy)
      && r.passed == t.passed + Tick(|group| <= cfg.maxHits && cfg.minEnergy <= e <= cfg.maxEnergy)
      && forall k :: 0 <= k < cfg.maxHits ==> r.sizes[k] == t.sizes[k] + Tick(|group| == k + 1)
  {
    StrongestFirst(cfg, h, group);
    hide MaxEnergy, PhotonOf, First, PhotonFor;
  }

  lemma {:induction false} TallyExact(cfg: TriggerConfig, h: seq<Hit>, groups: seq<seq<nat>>)
    requires cfg.maxHits >= 1 && AllInRange(h, groups)
    ensures var t := Tallied(cfg, h, groups);
      && t.found == |groups| && t.passed == |Chosen(cfg, h, groups)|
      && t.overflow == CountGroups(groups, TooLarge(cfg))
      && t.low == CountGroups(groups, Weak(cfg, h)) && t.high == CountGroups(groups, Strong(cfg, h))
      && |t.sizes| == cfg.maxHits && forall k :: 0 <= k < cfg.maxHits ==> t.sizes[k] == CountGroups(groups, OfSize(k + 1))
  {
    hide MaxEnergy, InRange, First, Tallying, CountGroups, Chosen;
    if groups == [] {
      NoGroups(cfg, h);
    } else {
      var n := |groups| - 1;
      assert groups[n] in groups;
      TallyExact(cfg, h, groups[..n]);
      TallyOne(cfg, h, Tallied(cfg, h, groups[..n]), groups[n]);
      WholeFirst(cfg, groups[n]);
      ChosenLast(cfg, h, groups);
      CountLast(groups, TooLarge(cfg));
      CountLast(groups, Weak(cfg, h));
      CountLast(groups, Strong(cfg, h));
      forall size: nat
        ensures CountGroups(groups, OfSize(size)) == CountGroups(groups[..n], OfSize(size)) + Tick(|groups[n]| == size)
      {
        CountLast(groups, OfSize(size));
      }
    }
  }

  lemma NoGroups(cfg: TriggerConfig, h: seq<Hit>)
    ensures Chosen(cfg, h, []) == [] && forall p :: CountGroups([], p) == 0
  {
  }

  lemma CountLast(groups: seq<seq<nat>>, p: seq<nat> -> bool)
    requires groups != []
    ensures CountGroups(groups, p) == CountGroups(groups[..|groups| - 1], p) + Tick(p(groups[|groups| - 1]))
  {
  }

  lemma ChosenLast(cfg: TriggerConfig, h: seq<Hit>, groups: seq<seq<nat>>)
    requires groups != [] && AllInRange(h, groups) && groups[|groups| - 1] in groups
    ensures var g := groups[|groups| - 1];
      |Chosen(cfg, h, groups)| == |Chosen(cfg, h, groups[..|groups| - 1])|
                                  + Tick(|g| <= cfg.maxHits && cfg.minEnergy <= MaxEnergy(h, g) <= cfg.maxEnergy)
  {
  }

  lemma WholeFirst(cfg: TriggerConfig, group: seq<nat>)
    ensures |group| <= cfg.maxHits ==> First(cfg, group) == group
  {
  }

  /** All hits of a photon that is passed on are within the limits of one of them. */
  lemma PhotonsNear(cfg: TriggerConfig, h: seq<Hit>, stop: bool)
    requires cfg.maxHits >= 1 && AllInRange(h, AllGroups(cfg, h, stop))
    ensures forall p :: p in Photons(cfg, h, AllGroups(cfg, h, stop)) ==>
              exists seed :: seed in p.hits && forall o :: o in p.hits ==> o == seed || Near(cfg, seed, o)
  {
    var groups := AllGroups(cfg, h, stop);
    GroupShape(cfg, h, 0, seq(|h|, j => false), stop);
    PhotonsExact(cfg, h, groups);
    hide Near, Photons, PhotonFor, AllGroups, Groups, Chosen;
    var out, chosen := Photons(cfg, h, groups), Chosen(cfg, h, groups);
    forall p | p in out
      ensures exists seed :: seed in p.hits && forall o :: o in p.hits ==> o == seed || Near(cfg, seed, o)
    {
      var k :| 0 <= k < |out| && out[k] == p;
      ChosenFrom(cfg, h, groups, chosen[k]);
      var n :| 0 <= n < |groups| && groups[n] == chosen[k];
      NearInPhoton(cfg, h, groups[n], p);
    }
  }

  lemma {:induction false} ChosenFrom(cfg: TriggerConfig, h: seq<Hit>, groups: seq<seq<nat>>, g: seq<nat>)
    requires AllInRange(h, groups) && g in Chosen(cfg, h, groups)
    ensures g in groups
  {
    if g in Chosen(cfg, h, groups[..|groups| - 1]) {
      ChosenFrom(cfg, h, groups[..|groups| - 1], g);
    }
  }

  lemma NearInPhoton(cfg: TriggerConfig, h: seq<Hit>, g: seq<nat>, p: GammaPhoton)
    requires InRange(h, g) && PhotonFor(h, g, p) && forall a :: 0 < a < |g| ==> Near(cfg, h[g[0]], h[g[a]])
    ensures h[g[0]] in p.hits && forall o :: o in p.hits ==> o == h[g[0]] || Near(cfg, h[g[0]], o)
  {
    hide Near;
    var hits := seq(|g|, a requires 0 <= a < |g| => h[g[a]]);
    assert hits[0] in multiset(p.hits);
    forall o | o in p.hits ensures o == h[g[0]] || Near(cfg, h[g[0]], o) {
      assert o in multiset(hits);
      var a :| 0 <= a < |hits| && hits[a] == o;
    }
  }

  /** GammaPhoton::maxHits. */
  const MAX_HITS := 256

  class SimpleGrouper {
    const cfg: TriggerConfig
    var nHitsReceived: nat
    var nHitsReceivedValid: nat
    var photons: Tally

    ghost predicate Valid()
      reads this
    {
      1 <= cfg.maxHits <= MAX_HITS && |photons.sizes| == MAX_HITS
    }

    constructor (cfg: TriggerConfig)
      requires 1 <= cfg.maxHits <= MAX_HITS
      ensures Valid() && this.cfg == cfg
    {
      this.cfg := cfg;
      nHitsReceived, nHitsReceivedValid := 0, 0;
      photons := Tally(0, 0, 0, 0, 0, seq(MAX_HITS, k => 0));
    }

    method HandleEvents(inBuffer: EventBuffer<Hit>) returns (outBuffer: EventBuffer<GammaPhoton>)
      requires Valid() && inBuffer.Valid()
      modifies this
      ensures Valid() && fresh(outBuffer) && outBuffer.Valid() && outBuffer.tMin == inBuffer.tMin
      ensures var h := inBuffer.Contents();
        var groups := AllGroups(cfg, h, true);
        && AllInRange(h, groups)
        && outBuffer.Contents() == Photons(cfg, h, groups)
        && nHitsReceived == Add32(old(nHitsReceived), |h|)
        && nHitsReceivedValid == Add32(old(nHitsReceivedValid), |ValidHits(h)|)
        && photons == Atomically(old(photons), Tallied(cfg, h, groups))
      ensures var h, out := inBuffer.Contents(), outBuffer.Contents();
        var chosen := Chosen(cfg, h, AllGroups(cfg, h, true));
        |out| == |chosen| && forall k :: 0 <= k < |out| ==> chosen[k] in chosen && PhotonFor(h, chosen[k], out[k])
      ensures var h, groups := inBuffer.Contents(), AllGroups(cfg, inBuffer.Contents(), true);
        && photons.found == Add32(old(photons.found), |groups|)
        && photons.passed == Add32(old(photons.passed), |Chosen(cfg, h, groups)|)
        && photons.overflow == Add32(old(photons.overflow), CountGroups(groups, TooLarge(cfg)))
        && photons.low == Add32(old(photons.low), CountGroups(groups, Weak(cfg, h)))
        && photons.high == Add32(old(photons.high), CountGroups(groups, Strong(cfg, h)))
        && forall k :: 0 <= k < MAX_HITS ==>
             photons.sizes[k] == if k < cfg.maxHits then Add32(old(photons.sizes[k]), CountGroups(groups, OfSize(k + 1)))
                                 else old(photons.sizes[k])
    {
      hide MaxEnergy, Weak, Strong, OfSize, TooLarge, Chosen, PhotonFor, CountGroups, Add32;
      hide Members, Groups, AllGroups, Photons, Tallied, Fits, PhotonOf, Passes, Tallying, Mark, Holds, Atomically, InRange,
           Progress, ValidHits;
      var n := inBuffer.used;
      ghost var h := inBuffer.Contents();
      outBuffer := new EventBuffer<GammaPhoton>(n, inBuffer.tMin);
      var taken := new bool[n](j => false);
      var hits := new Hit[cfg.maxHits];
      var l := NoTally(cfg);
      var lHitsReceived, lHitsReceivedValid := 0, 0;
      ghost var done: seq<seq<nat>> := [];
      assert taken[..] == seq(|h|, j => false);
      ProgressStart(cfg, h);
      NoneValid(h);
      for i := 0 to n
        invariant fresh(outBuffer) && fresh(outBuffer.buffer) && outBuffer.Valid() && outBuffer.tMin == inBuffer.tMin
        invariant inBuffer.Valid() && inBuffer.used == n && inBuffer.Contents() == h && unchanged(this)
        invariant |l.sizes| == cfg.maxHits && Progress(cfg, h, done, i, taken[..], outBuffer.Contents(), l)
        invariant lHitsReceived == i && lHitsReceivedValid == |ValidHits(h[..i])|
      {
        lHitsReceived := lHitsReceived + 1;
        ValidGrows(h, i);
        ProgressNext(cfg, h, done, i, taken[..], outBuffer.Contents(), l);
        if inBuffer.buffer[i].valid {
          lHitsReceivedValid := lHitsReceivedValid + 1;
          if !taken[i] {
            ghost var group: seq<nat> := [i] + Members(cfg, h, i, i + 1, taken[..], true);
            var nHits := Collect(cfg, inBuffer, i, taken, hits);
            l := Finish(cfg, h, group, nHits, hits, outBuffer, l);
            done := done + [group];
          }
        }
      }
      assert h[..n] == h;
      ProgressEnd(cfg, h, done, taken[..], outBuffer.Contents(), l);
      nHitsReceived := Add32(nHitsReceived, lHitsReceived);
      nHitsReceivedValid := Add32(nHitsReceivedValid, lHitsReceivedValid);
      ghost var was := photons;
      photons := Atomically(photons, l);
      PhotonsExact(cfg, h, AllGroups(cfg, h, true));
      TallyExact(cfg, h, AllGroups(cfg, h, true));
      AtomicallyEach(was, l);
    }
  }

  lemma AtomicallyEach(t: Tally, l: Tally)
    ensures var r := Atomically(t, l);
      && r.found == Add32(t.found, l.found) && r.overflow == Add32(t.overflow, l.overflow) && r.low == Add32(t.low, l.low)
      && r.high == Add32(t.high, l.high) && r.passed == Add32(t.passed, l.passed) && |r.sizes| == |t.sizes|
      && forall k :: 0 <= k < |t.sizes| ==> r.sizes[k] == if k < |l.sizes| then Add32(t.sizes[k], l.sizes[k]) else t.sizes[k]
  {
  }

  /** The outer loop between two hits: groups done so far, with their photons and counts, and those to come. */
  ghost predicate Progress(cfg: TriggerConfig, h: seq<Hit>, done: seq<seq<nat>>, i: nat, taken: seq<bool>,
                           out: seq<GammaPhoton>, l: Tally) {
    && |taken| == |h| && cfg.maxHits >= 1
    && done + Groups(cfg, h, i, taken, true) == AllGroups(cfg, h, true)
    && AllInRange(h, done) && out == Photons(cfg, h, done) && l == Tallied(cfg, h, done)
  }

  lemma ProgressStart(cfg: TriggerConfig, h: seq<Hit>)
    requires cfg.maxHits >= 1
    ensures Progress(cfg, h, [], 0, seq(|h|, j => false), [], NoTally(cfg))
  {
  }

  lemma ProgressNext(cfg: TriggerConfig, h: seq<Hit>, done: seq<seq<nat>>, i: nat, taken: seq<bool>,
                     out: seq<GammaPhoton>, l: Tally)
    requires i < |h| && Progress(cfg, h, done, i, taken, out, l)
    ensures |taken| == |h|
    ensures !h[i].valid || taken[i] ==> Progress(cfg, h, done, i + 1, taken, out, l)
    ensures h[i].valid && !taken[i] ==>
              var group: seq<nat> := [i] + Members(cfg, h, i, i + 1, taken, true);
              && InRange(h, group) && |l.sizes| == cfg.maxHits
              && Progress(cfg, h, done + [group], i + 1, Mark(taken, group),
                          out + (if Passes(cfg, h, group) then [PhotonOf(cfg, h, group)] else []),
                          Tallying(cfg, h, l, group))
  {
    hide Members, Fits, PhotonOf, Passes, Tallying, Mark, AllGroups;
    if h[i].valid && !taken[i] {
      var group: seq<nat> := [i] + Members(cfg, h, i, i + 1, taken, true);
      GroupsInRange(cfg, h, i, taken, true);
      assert group in Groups(cfg, h, i, taken, true);
      DoneGrows(cfg, h, done, group);
      var rest := Groups(cfg, h, i + 1, Mark(taken, group), true);
      assert done + ([group] + rest) == done + [group] + rest;
    }
  }

  lemma ProgressEnd(cfg: TriggerConfig, h: seq<Hit>, done: seq<seq<nat>>, taken: seq<bool>, out: seq<GammaPhoton>, l: Tally)
    requires Progress(cfg, h, done, |h|, taken, out, l)
    ensures var groups := AllGroups(cfg, h, true);
      AllInRange(h, groups) && out == Photons(cfg, h, groups) && l == Tallied(cfg, h, groups)
  {
    assert Groups(cfg, h, |h|, taken, true) == [];
    assert done == AllGroups(cfg, h, true);
  }

  function Atomically(t: Tally, l: Tally): (r: Tally)
    ensures |r.sizes| == |t.sizes|
  {
    Tally(Add32(t.found, l.found), Add32(t.overflow, l.overflow), Add32(t.low, l.low), Add32(t.high, l.high),
          Add32(t.passed, l.passed),
          seq(|t.sizes|, k requires 0 <= k < |t.sizes| => if k < |l.sizes| then Add32(t.sizes[k], l.sizes[k]) else t.sizes[k]))
  }

  lemma DoneGrows(cfg: TriggerConfig, h: seq<Hit>, done: seq<seq<nat>>, group: seq<nat>)
    requires cfg.maxHits >= 1 && AllInRange(h, done) && InRange(h, group)
    ensures AllInRange(h, done + [group])
    ensures Photons(cfg, h, done + [group]) == Photons(cfg, h, done) + if Passes(cfg, h, group) then [PhotonOf(cfg, h, group)] else []
    ensures Tallied(cfg, h, done + [group]) == Tallying(cfg, h, Tallied(cfg, h, done), group)
  {
    assert (done + [group])[..|done|] == done;
  }

  lemma NoneValid(h: seq<Hit>)
    ensures |ValidHits(h[..0])| == 0
  {
    assert ValidHits(h[..0]) == {};
  }

  lemma ValidGrows(h: seq<Hit>, i: nat)
    requires i < |h|
    ensures |ValidHits(h[..i + 1])| == |ValidHits(h[..i])| + Tick(h[i].valid)
  {
    assert ValidHits(h[..i + 1]) == ValidHits(h[..i]) + if h[i].valid then {i} else {};
  }

  // ---------------------------------------------------------------- the counters

  function Sum(s: seq<nat>): nat {
    if s == [] then 0 else s[0] + Sum(s[1..])
  }

  lemma {:induction false} SumUpdate(s: seq<nat>, k: nat)
    requires k < |s|
    ensures Sum(s[k := s[k] + 1]) == Sum(s) + 1
  {
    if k == 0 {
      assert s[0 := s[0] + 1][1..] == s[1..];
    } else {
      assert s[k := s[k] + 1][1..] == s[1..][k - 1 := s[1..][k - 1] + 1];
      SumUpdate(s[1..], k - 1);
    }
  }

  lemma {:induction false} SumZero(n: nat)
    ensures Sum(seq(n, k => 0)) == 0
  {
    if n > 0 {
      assert seq(n, k => 0)[1..] == seq(n - 1, k => 0);
      SumZero(n - 1);
    }
  }

  /** Every group found is counted once by its size or as an overflow; what passes is the output. */
  lemma {:induction false} TallyAddsUp(cfg: TriggerConfig, h: seq<Hit>, groups: seq<seq<nat>>)
    requires cfg.maxHits >= 1 && AllInRange(h, groups)
    ensures var t := Tallied(cfg, h, groups);
      && t.found == |groups| && t.found == Sum(t.sizes) + t.overflow
      && t.passed == |Photons(cfg, h, groups)|
      && t.passed <= t.found <= t.passed + t.overflow + t.low + t.high
  {
    hide PhotonOf;
    if groups == [] {
      SumZero(cfg.maxHits);
    } else {
      var n := |groups| - 1;
      TallyAddsUp(cfg, h, groups[..n]);
      var t := Tallied(cfg, h, groups[..n]);
      assert groups[n] in groups;
      if !Overflows(cfg, groups[n]) {
        SumUpdate(t.sizes, |groups[n]| - 1);
      }
    }
  }

  function Lengths(groups: seq<seq<nat>>): nat {
    if groups == [] then 0 else |groups[0]| + Lengths(groups[1..])
  }

  lemma {:induction false} FlattenLength(groups: seq<seq<nat>>)
    ensures |Flatten(groups)| == Lengths(groups)
  {
    if groups != [] {
      FlattenCons(groups);
      FlattenLength(groups[1..]);
    }
  }

  ghost function Elements(s: seq<nat>): set<nat> { set k: nat | k in s }

  lemma {:induction false} DistinctCount(s: seq<nat>)
    requires Distinct(s)
    ensures |Elements(s)| == |s|
  {
    if s != [] {
      DistinctCount(s[1..]);
      assert s[0] !in s[1..];
      assert Elements(s) == {s[0]} + Elements(s[1..]);
    }
  }

  /** Each valid hit is in exactly one group: the sizes of the groups, before any is cut short, add up to
      the number of valid hits. */
  lemma ValidHitsAddUp(cfg: TriggerConfig, h: seq<Hit>, stop: bool)
    ensures Lengths(AllGroups(cfg, h, stop)) == |ValidHits(h)|
  {
    var g := AllGroups(cfg, h, stop);
    Partition(cfg, h, 0, seq(|h|, j => false), stop);
    FlattenLength(g);
    DistinctCount(Flatten(g));
    assert Elements(Flatten(g)) == ValidHits(h);
  }
}
