/** The bubble sort that puts the highest energy of a group first (src/base/SimpleGrouper.cpp:134-146). */
module EnergySort {
  import opened Events

  /** x goes in front of the hits it is not lower than. */
  function Insert(x: Hit, s: seq<Hit>): seq<Hit> {
    if s == [] || x.energy >= s[0].energy then [x] + s else [s[0]] + Insert(x, s[1..])
  }

  /** By non-increasing energy, hits of equal energy in their original order. */
  function ByEnergy(s: seq<Hit>): seq<Hit> {
    if s == [] then [] else Insert(s[0], ByEnergy(s[1..]))
  }

  ghost predicate Descending(s: seq<Hit>) {
    forall i, j :: 0 <= i < j < |s| ==> s[i].energy >= s[j].energy
  }

  lemma {:induction false} InsertKeeps(x: Hit, s: seq<Hit>)
    ensures multiset(Insert(x, s)) == multiset{x} + multiset(s)
  {
    if s != [] && x.energy < s[0].energy {
      InsertKeeps(x, s[1..]);
      assert s == [s[0]] + s[1..];
    }
  }

  lemma {:induction false} InsertSorts(x: Hit, s: seq<Hit>)
    requires Descending(s)
    ensures Descending(Insert(x, s))
  {
    if s != [] && x.energy < s[0].energy {
      InsertSorts(x, s[1..]);
      InsertKeeps(x, s[1..]);
      var r := Insert(x, s[1..]);
      forall i | 0 <= i < |r|
        ensures s[0].energy >= r[i].energy
      {
        assert r[i] in multiset(r);
        assert r[i] == x || r[i] in s[1..];
      }
    }
  }

  lemma {:induction false} ByEnergySorts(s: seq<Hit>)
    ensures Descending(ByEnergy(s)) && multiset(ByEnergy(s)) == multiset(s)
  {
    if s != [] {
      ByEnergySorts(s[1..]);
      InsertSorts(s[0], ByEnergy(s[1..]));
      InsertKeeps(s[0], ByEnergy(s[1..]));
      assert s == [s[0]] + s[1..];
    }
  }

  /** The hits of one energy. */
  function WithEnergy(s: seq<Hit>, e: real): seq<Hit> {
    if s == [] then [] else (if s[0].energy == e then [s[0]] else []) + WithEnergy(s[1..], e)
  }

  lemma WithEnergyCons(x: Hit, s: seq<Hit>, e: real)
    ensures WithEnergy([x] + s, e) == (if x.energy == e then [x] else []) + WithEnergy(s, e)
  {
    assert ([x] + s)[1..] == s;
  }

  lemma {:induction false} InsertStable(x: Hit, s: seq<Hit>, e: real)
    ensures WithEnergy(Insert(x, s), e) == (if x.energy == e then [x] else []) + WithEnergy(s, e)
  {
    if s == [] || x.energy >= s[0].energy {
      WithEnergyCons(x, s, e);
    } else {
      InsertStable(x, s[1..], e);
      WithEnergyCons(s[0], Insert(x, s[1..]), e);
      WithEnergyCons(s[0], s[1..], e);
      assert s == [s[0]] + s[1..];
      hide WithEnergy;
    }
  }

  /** Hits of the same energy stay in their order. */
  lemma {:induction false} ByEnergyStable(s: seq<Hit>, e: real)
    ensures WithEnergy(ByEnergy(s), e) == WithEnergy(s, e)
  {
    if s != [] {
      ByEnergyStable(s[1..], e);
      InsertStable(s[0], ByEnergy(s[1..]), e);
    }
  }

  /** The same hits, by non-increasing energy, those of the same energy in their order. */
  ghost predicate StablySorted(was: seq<Hit>, now: seq<Hit>) {
    && multiset(now) == multiset(was)
    && (forall i, j :: 0 <= i < j < |now| ==> now[i].energy >= now[j].energy)
    && forall e :: WithEnergy(now, e) == WithEnergy(was, e)
  }

  lemma SortsStably(s: seq<Hit>)
    ensures StablySorted(s, ByEnergy(s))
  {
    ByEnergySorts(s);
    forall e ensures WithEnergy(ByEnergy(s), e) == WithEnergy(s, e) {
      ByEnergyStable(s, e);
    }
  }

  /** A list that is in order already stays as it is. */
  lemma {:induction false} SortedStays(s: seq<Hit>)
    requires forall k :: 0 < k < |s| ==> s[k - 1].energy >= s[k].energy
    ensures ByEnergy(s) == s
  {
    if s != [] {
      SortedStays(s[1..]);
      assert s == [s[0]] + s[1..];
      assert |s| > 1 ==> s[1 - 1].energy >= s[1].energy;
    }
  }

  function Swap(s: seq<Hit>, k: nat): seq<Hit>
    requires 0 < k < |s|
  {
    s[k - 1 := s[k]][k := s[k - 1]]
  }

  lemma {:induction false} InsertCommutes(a: Hit, b: Hit, s: seq<Hit>)
    requires a.energy < b.energy
    ensures Insert(a, Insert(b, s)) == Insert(b, Insert(a, s))
  {
    if s != [] && b.energy < s[0].energy {
      InsertCommutes(a, b, s[1..]);
    }
  }

  /** Swapping two neighbours that are out of order does not change what the list sorts to. */
  lemma {:induction false} SwapKeeps(s: seq<Hit>, k: nat)
    requires 0 < k < |s| && s[k - 1].energy < s[k].energy
    ensures ByEnergy(Swap(s, k)) == ByEnergy(s)
  {
    var t := Swap(s, k);
    if k == 1 {
      assert t[1..][1..] == s[1..][1..];
      InsertCommutes(s[0], s[1], ByEnergy(s[2..]));
      assert s[1..][1..] == s[2..];
      assert t[1..] == [s[0]] + s[2..] && s[1..] == [s[1]] + s[2..];
    } else {
      assert t[1..] == Swap(s[1..], k - 1);
      SwapKeeps(s[1..], k - 1);
    }
  }

  function Above(e: real, s: seq<Hit>): nat {
    if s == [] then 0 else (if e < s[0].energy then 1 else 0) + Above(e, s[1..])
  }

  /** The pairs that are out of order: what the bubble sort works off. */
  function Inversions(s: seq<Hit>): nat {
    if s == [] then 0 else Above(s[0].energy, s[1..]) + Inversions(s[1..])
  }

  lemma {:induction false} AboveSwap(e: real, s: seq<Hit>, k: nat)
    requires 0 < k < |s|
    ensures Above(e, Swap(s, k)) == Above(e, s)
  {
    var t := Swap(s, k);
    if k == 1 {
      assert t[1..][1..] == s[1..][1..];
    } else {
      assert t[1..] == Swap(s[1..], k - 1);
      AboveSwap(e, s[1..], k - 1);
    }
  }

  lemma {:induction false} SwapReduces(s: seq<Hit>, k: nat)
    requires 0 < k < |s| && s[k - 1].energy < s[k].energy
    ensures Inversions(Swap(s, k)) == Inversions(s) - 1
  {
    var t := Swap(s, k);
    if k == 1 {
      assert t[1..][1..] == s[1..][1..];
    } else {
      assert t[1..] == Swap(s[1..], k - 1);
      SwapReduces(s[1..], k - 1);
      AboveSwap(s[0].energy, s[1..], k - 1);
    }
  }

  /** Sorts the first n entries in place. */
  method BubbleSort(hits: array<Hit>, n: nat)
    requires n <= hits.Length
    modifies hits
    ensures hits[..n] == ByEnergy(old(hits[..n]))
    ensures hits[n..] == old(hits[n..])
    ensures StablySorted(old(hits[..n]), hits[..n])
  {
    hide StablySorted, ByEnergy, Inversions;
    SortsStably(hits[..n]);
    var sorted := false;
    while !sorted
      invariant ByEnergy(hits[..n]) == ByEnergy(old(hits[..n])) && hits[n..] == old(hits[n..])
      invariant sorted ==> forall k :: 0 < k < n ==> hits[k - 1].energy >= hits[k].energy
      decreases Inversions(hits[..n]), !sorted
    {
      ghost var before := Inversions(hits[..n]);
      sorted := true;
      var k := 1;
      while k < n
        invariant k >= 1 && (n >= 1 ==> k <= n)
        invariant ByEnergy(hits[..n]) == ByEnergy(old(hits[..n])) && hits[n..] == old(hits[n..])
        invariant sorted ==> Inversions(hits[..n]) == before
        invariant sorted ==> forall j :: 0 < j < k && j < n ==> hits[j - 1].energy >= hits[j].energy
        invariant !sorted ==> Inversions(hits[..n]) < before
      {
        if hits[k - 1].energy < hits[k].energy {
          sorted := false;
          SwapKeeps(hits[..n], k);
          SwapReduces(hits[..n], k);
          ghost var swapped := Swap(hits[..n], k);
          hits[k - 1], hits[k] := hits[k], hits[k - 1];
          assert hits[..n] == swapped;
        }
        k := k + 1;
      }
    }
    SortedStays(hits[..n]);
  }
}
