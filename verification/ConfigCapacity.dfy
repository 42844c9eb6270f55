/** What one bit array can hold: whether all fields of a layout can have any value at the same time
    (src/petsys_py_lib/tofhir2.py:65-94). */
module ConfigCapacity {
  import opened Options
  import opened ConfigBits
  import opened ConfigFields

  /** Bits for every field, as many as it has. */
  predicate BitsFor(fields: map<string, seq<int>>, want: map<string, seq<bool>>) {
    want.Keys == fields.Keys && forall k :: k in fields ==> |want[k]| == |fields[k]|
  }

  /** A value for every field, within its range. */
  predicate ValuesFor(fields: map<string, seq<int>>, want: map<string, nat>) {
    want.Keys == fields.Keys && forall k :: k in fields ==> want[k] < Pow2(|fields[k]|)
  }

  ghost predicate BitsHeld(fields: map<string, seq<int>>, bits: seq<bool>, want: map<string, seq<bool>>)
    requires AllAddressable(fields, |bits|) && BitsFor(fields, want)
  {
    forall k :: k in fields ==> Select(bits, fields[k]) == want[k]
  }

  ghost predicate ValuesHeld(fields: map<string, seq<int>>, bits: seq<bool>, want: map<string, nat>)
    requires AllAddressable(fields, |bits|) && ValuesFor(fields, want)
  {
    forall k :: k in fields ==> Value(Select(bits, fields[k])) == want[k]
  }

  ghost predicate HoldsAnyBits(fields: map<string, seq<int>>, l: nat)
    requires AllAddressable(fields, l)
  {
    forall want: map<string, seq<bool>> :: BitsFor(fields, want) ==>
      exists bits: seq<bool> :: |bits| == l && BitsHeld(fields, bits, want)
  }

  /** Whatever values the fields are to have, some array of l bits has them all. */
  ghost predicate HoldsAnyValues(fields: map<string, seq<int>>, l: nat)
    requires AllAddressable(fields, l)
  {
    forall want: map<string, nat> :: ValuesFor(fields, want) ==>
      exists bits: seq<bool> :: |bits| == l && ValuesHeld(fields, bits, want)
  }

  // ---------------------------------------------------------------- bits

  predicate Owns(fields: map<string, seq<int>>, l: nat, k: string, i: nat, p: int) {
    k in fields && i < |fields[k]| && Place(fields[k][i], l) == p
  }

  /** A place belongs to one bit of one field. */
  lemma OneOwner(fields: map<string, seq<int>>, l: nat, k: string, i: nat, k': string, i': nat)
    requires Divides(fields, l) && k in fields && i < |fields[k]| && k' in fields && i' < |fields[k']|
    requires k != k' || i != i'
    ensures Place(fields[k][i], l) != Place(fields[k'][i'], l)
  {
    if k != k' {
      assert Apart(fields[k][i], fields[k'][i'], l);
    } else if i < i' {
      assert Apart(fields[k][i], fields[k][i'], l);
    } else {
      assert Apart(fields[k][i'], fields[k][i], l);
    }
  }

  /** Each place filled with what the bit that owns it is to be. */
  ghost function Filled(fields: map<string, seq<int>>, l: nat, want: map<string, seq<bool>>): (bits: seq<bool>)
    requires BitsFor(fields, want)
    ensures |bits| == l
  {
    seq(l, p requires 0 <= p < l =>
      if exists k: string, i: nat :: Owns(fields, l, k, i, p) then
        var k: string, i: nat :| Owns(fields, l, k, i, p);
        want[k][i]
      else false)
  }

  lemma FilledHolds(fields: map<string, seq<int>>, l: nat, want: map<string, seq<bool>>)
    requires AllAddressable(fields, l) && Divides(fields, l) && BitsFor(fields, want)
    ensures BitsHeld(fields, Filled(fields, l, want), want)
  {
    var bits := Filled(fields, l, want);
    forall k, a | k in fields && 0 <= a < |fields[k]|
      ensures bits[Place(fields[k][a], l)] == want[k][a]
    {
      var p := Place(fields[k][a], l);
      assert Owns(fields, l, k, a, p);
      forall k', a' | Owns(fields, l, k', a', p) ensures k' == k && a' == a {
        if k' != k || a' != a {
          OneOwner(fields, l, k, a, k', a');
        }
      }
    }
  }

  /** One bit of one field true, everything else false. */
  function OneTrue(fields: map<string, seq<int>>, k: string, i: nat): (want: map<string, seq<bool>>)
    ensures BitsFor(fields, want)
  {
    map x | x in fields :: seq(|fields[x]|, a => x == k && a == i)
  }

  /** Of two bits in one place no array can have one true and the other false. */
  lemma Clash(fields: map<string, seq<int>>, l: nat, k: string, i: nat, k': string, j: nat)
    requires AllAddressable(fields, l) && k in fields && k' in fields && i < |fields[k]| && j < |fields[k']|
    requires (k != k' || i != j) && !Apart(fields[k][i], fields[k'][j], l)
    ensures !HoldsAnyBits(fields, l)
  {
    var want := OneTrue(fields, k, i);
    forall bits: seq<bool> | |bits| == l ensures !BitsHeld(fields, bits, want) {
      assert Select(bits, fields[k])[i] == Select(bits, fields[k'])[j];
      assert want[k][i] != want[k'][j];
    }
  }

  lemma AnyBitsIff(fields: map<string, seq<int>>, l: nat)
    requires AllAddressable(fields, l)
    ensures HoldsAnyBits(fields, l) <==> Divides(fields, l)
  {
    hide Addressable, Apart;
    if Divides(fields, l) {
      forall want: map<string, seq<bool>> | BitsFor(fields, want)
        ensures exists bits: seq<bool> :: |bits| == l && BitsHeld(fields, bits, want)
      {
        FilledHolds(fields, l, want);
      }
    } else if k :| k in fields && !Spread(fields[k], l) {
      var i, j :| 0 <= i < j < |fields[k]| && !Apart(fields[k][i], fields[k][j], l);
      Clash(fields, l, k, i, k, j);
    } else {
      var k, k' :| k in fields && k' in fields && k != k' && !Separate(fields[k], fields[k'], l);
      var i, j :| 0 <= i < |fields[k]| && 0 <= j < |fields[k']| && !Apart(fields[k][i], fields[k'][j], l);
      Clash(fields, l, k, i, k', j);
    }
  }

  // ---------------------------------------------------------------- values

  /** The n bits of a number. */
  function BitsOf(v: nat, n: nat): (s: seq<bool>)
    ensures |s| == n
    ensures v < Pow2(n) ==> Value(s) == v
  {
    if n == 0 then [] else
      var s := BitsOf(v / 2, n - 1) + [v % 2 == 1];
      assert s[..n - 1] == BitsOf(v / 2, n - 1);
      s
  }

  /** All fields of a layout can have any values at the same time if and only if the fields divide the array. */
  lemma AnyValuesIff(fields: map<string, seq<int>>, l: nat)
    requires AllAddressable(fields, l)
    ensures HoldsAnyValues(fields, l) <==> Divides(fields, l)
  {
    hide Divides, Addressable, Select;
    AnyBitsIff(fields, l);
    if HoldsAnyBits(fields, l) {
      forall want: map<string, nat> | ValuesFor(fields, want)
        ensures exists bits: seq<bool> :: |bits| == l && ValuesHeld(fields, bits, want)
      {
        var wb := map k | k in fields :: BitsOf(want[k], |fields[k]|);
        assert BitsFor(fields, wb);
        var bits: seq<bool> :| |bits| == l && BitsHeld(fields, bits, wb);
        assert ValuesHeld(fields, bits, want);
      }
    }
    if HoldsAnyValues(fields, l) {
      forall want: map<string, seq<bool>> | BitsFor(fields, want)
        ensures exists bits: seq<bool> :: |bits| == l && BitsHeld(fields, bits, want)
      {
        var values := map k | k in fields :: Value(want[k]);
        assert ValuesFor(fields, values);
        var bits: seq<bool> :| |bits| == l && ValuesHeld(fields, bits, values);
        forall k | k in fields ensures Select(bits, fields[k]) == want[k] {
          ValueDetermines(Select(bits, fields[k]), want[k]);
        }
      }
    }
  }

  // ---------------------------------------------------------------- accepted layouts

  /** No bit number is another one plus l. */
  predicate NoneWraps(fields: map<string, seq<int>>, l: nat) {
    forall k, k' :: k in fields && k' in fields ==> NoneAbove(fields[k], fields[k'], l)
  }

  predicate NoneAbove(a: seq<int>, b: seq<int>, l: nat) {
    forall i, j :: 0 <= i < |a| && 0 <= j < |b| ==> a[i] != b[j] + l
  }

  /** In an accepted layout no bit number is used twice. */
  predicate BitsOnce(fields: map<string, seq<int>>) {
    && (forall k, i, j :: k in fields && 0 <= i < j < |fields[k]| ==> fields[k][i] != fields[k][j])
    && (forall k, k' :: k in fields && k' in fields && k != k' ==> DisjointBits(fields[k], fields[k']))
  }

  /** Two bits are in one place if they are the same, or one is the other plus l. */
  lemma ApartIff(a: int, b: int, l: nat)
    requires 0 <= a < 2 * l && 0 <= b < 2 * l
    ensures Apart(a, b, l) <==> a != b && a != b + l && b != a + l
  {
  }

  lemma SpreadIff(bits: seq<int>, l: nat)
    requires Addressable(bits, l) && forall i, j :: 0 <= i < j < |bits| ==> bits[i] != bits[j]
    ensures Spread(bits, l) <==> NoneAbove(bits, bits, l)
  {
    hide Apart;
    forall i, j | 0 <= i < |bits| && 0 <= j < |bits|
      ensures Apart(bits[i], bits[j], l) <==> bits[i] != bits[j] && bits[i] != bits[j] + l && bits[j] != bits[i] + l
    {
      ApartIff(bits[i], bits[j], l);
    }
    if i, j :| 0 <= i < |bits| && 0 <= j < |bits| && bits[i] == bits[j] + l {
      assert !Apart(bits[i], bits[j], l) && !Apart(bits[j], bits[i], l);
      assert l > 0;
    }
  }

  lemma SeparateIff(a: seq<int>, b: seq<int>, l: nat)
    requires Addressable(a, l) && Addressable(b, l) && DisjointBits(a, b)
    ensures Separate(a, b, l) <==> NoneAbove(a, b, l) && NoneAbove(b, a, l)
  {
    hide Apart;
    forall i, j | 0 <= i < |a| && 0 <= j < |b|
      ensures Apart(a[i], b[j], l) <==> a[i] != b[j] + l && b[j] != a[i] + l
    {
      assert a[i] in a && b[j] in b;
      ApartIff(a[i], b[j], l);
    }
    if i, j :| 0 <= i < |b| && 0 <= j < |a| && b[i] == a[j] + l {
      assert !Apart(a[j], b[i], l);
    }
  }

  lemma DividesIff(fields: map<string, seq<int>>, l: nat)
    requires AllAddressable(fields, l) && BitsOnce(fields)
    ensures Divides(fields, l) <==> NoneWraps(fields, l)
  {
    hide Addressable, NoneAbove, Spread, Separate;
    forall k | k in fields ensures Spread(fields[k], l) <==> NoneAbove(fields[k], fields[k], l) {
      SpreadIff(fields[k], l);
    }
    forall k, k' | k in fields && k' in fields && k != k'
      ensures Separate(fields[k], fields[k'], l) <==> NoneAbove(fields[k], fields[k'], l) && NoneAbove(fields[k'], fields[k], l)
    {
      SeparateIff(fields[k], fields[k'], l);
    }
  }

  lemma LayoutBitsOnce(args: seq<Group>)
    requires Disjoint(Layout(args))
    ensures BitsOnce(FieldMap(Layout(args)))
  {
    hide FieldMap, LastDefault, Layout, Disjoint;
    var entries := Layout(args);
    var fields := FieldMap(entries);
    forall k, i, j | k in fields && 0 <= i < j < |fields[k]| ensures fields[k][i] != fields[k][j] {
      FieldMapFrom(entries, k);
      var n :| 0 <= n < |entries| && entries[n].name == k && fields[k] == entries[n].bits;
      LayoutBits(args, n);
    }
    forall k, k' | k in fields && k' in fields && k != k' ensures DisjointBits(fields[k], fields[k']) {
      FieldsDisjoint(entries, k, k');
    }
  }

  /** An accepted layout all of whose bits Python can address keeps its fields apart, so that all can have any
      values at the same time, if and only if no bit number of a field is another one plus the total length. */
  lemma AcceptedHoldsIff(args: seq<Group>)
    requires Disjoint(Layout(args)) && AllAddressable(FieldMap(Layout(args)), TotalLength(args))
    ensures HoldsAnyValues(FieldMap(Layout(args)), TotalLength(args)) <==> NoneWraps(FieldMap(Layout(args)), TotalLength(args))
    ensures Divides(FieldMap(Layout(args)), TotalLength(args)) <==> NoneWraps(FieldMap(Layout(args)), TotalLength(args))
  {
    hide FieldMap, Layout, TotalLength, Disjoint, Divides, NoneWraps, HoldsAnyValues, BitsOnce;
    var fields, l := FieldMap(Layout(args)), TotalLength(args);
    AnyValuesIff(fields, l);
    LayoutBitsOnce(args);
    DividesIff(fields, l);
  }

  /** Those of an accepted layout within its length do. */
  lemma LayoutDivides(args: seq<Group>)
    requires Disjoint(Layout(args)) && AllIn(Layout(args), TotalLength(args))
    ensures var fields, l := FieldMap(Layout(args)), TotalLength(args); AllAddressable(fields, l) && Divides(fields, l)
  {
    hide FieldMap, LastDefault, TotalLength, Layout, Disjoint, Divides;
    var entries, l := Layout(args), TotalLength(args);
    var fields := FieldMap(entries);
    forall k, j | k in fields && 0 <= j < |fields[k]| ensures 0 <= fields[k][j] < l {
      FieldMapFrom(entries, k);
      var i :| 0 <= i < |entries| && entries[i].name == k && fields[k] == entries[i].bits;
      assert fields[k][j] in entries[i].bits;
    }
    AcceptedHoldsIff(args);
  }

  // ---------------------------------------------------------------- a field that loses its default

  /** Two fields of one bit, the second beyond the length of one. */
  function Clashing(a: string, b: string): seq<Group> { [Group(1, [Field(a, 0, 0, 1), Field(b, 1, 1, 0)])] }

  /** compile_cfg_map does not look at the length: it accepts these two fields, of which the second is in the
      place of the first. Whatever the array holds, both have the same value. */
  lemma AcceptedMayClash(a: string, b: string)
    requires Lower(a) == a && Lower(b) == b && a != b
    ensures var args := Clashing(a, b);
      var fields, l := FieldMap(Layout(args)), TotalLength(args);
      && Disjoint(Layout(args)) && AllAddressable(fields, l) && !HoldsAnyValues(fields, l)
      && l == 1 && fields == map[a := [0], b := [1]]
      && forall bits: seq<bool> :: |bits| == l ==> Select(bits, fields[a]) == Select(bits, fields[b])
  {
    hide *;
    ClashingFields(a, b);
    BothInOnePlace(FieldMap(Layout(Clashing(a, b))), a, b);
    AnyValuesIff(FieldMap(Layout(Clashing(a, b))), 1);
  }

  lemma ClashingFields(a: string, b: string)
    requires Lower(a) == a && Lower(b) == b && a != b
    ensures var args := Clashing(a, b);
      Disjoint(Layout(args)) && TotalLength(args) == 1 && FieldMap(Layout(args)) == map[a := [0], b := [1]]
  {
    hide Lower, Layout, FieldMap, TotalLength, Clashing;
    TwoFields(a, b);
    TwoEntries(Entry(a, [0], 1), Entry(b, [1], 0));
    assert map[][a := [0]][b := [1]] == map[a := [0], b := [1]];
    assert DisjointBits([0], [1]);
  }

  lemma BothInOnePlace(fields: map<string, seq<int>>, a: string, b: string)
    requires a != b && fields == map[a := [0], b := [1]]
    ensures AllAddressable(fields, 1) && !Divides(fields, 1)
    ensures forall bits: seq<bool> :: |bits| == 1 ==> Select(bits, fields[a]) == Select(bits, fields[b])
  {
    assert !Apart(fields[a][0], fields[b][0], 1);
    assert !Separate(fields[a], fields[b], 1);
  }

  lemma TwoFields(a: string, b: string)
    requires Lower(a) == a && Lower(b) == b
    ensures Layout(Clashing(a, b)) == [Entry(a, [0], 1), Entry(b, [1], 0)] && TotalLength(Clashing(a, b)) == 1
  {
    hide Lower;
    var args := Clashing(a, b);
    assert args[..0] == [];
    assert Layout([]) == [] && TotalLength([]) == 0;
    assert GroupEntries(args[0].fields, 0) == [Entry(a, [0], 1), Entry(b, [1], 0)];
  }

  lemma TwoEntries(x: Entry, y: Entry)
    requires x.name != y.name
    ensures FieldMap([x, y]) == map[][x.name := x.bits][y.name := y.bits]
    ensures LastDefault([x, y], x.name) == Some(x.default) && LastDefault([x, y], y.name) == Some(y.default)
  {
    assert [x, y][..1] == [x] && [x][..0] == [];
    assert FieldMap([x]) == map[][x.name := x.bits];
  }

  /** The setting of the first field is undone by that of the second: after the defaults of this layout have
      been set, a field whose default is 1 reads as 0. */
  method DefaultLost(a: string, b: string) returns (value: nat)
    requires Lower(a) == a && Lower(b) == b && a != b
    ensures LastDefault(Layout(Clashing(a, b)), a) == Some(1)
    ensures value == 0
  {
    hide Lower, Layout, FieldMap, TotalLength, Disjoint, Clashing, Undisturbed, LastsHold, LastDefault, HoldsAnyValues,
         Value, Select, Addressable, Divides, DefaultsSet;
    AcceptedMayClash(a, b);
    TwoFields(a, b);
    TwoEntries(Entry(a, [0], 1), Entry(b, [1], 0));
    var u := MakeDefault(Clashing(a, b));
    assert u.config.FieldValue(b) == 0 by {
      SecondHolds(u.config, Entry(a, [0], 1), Entry(b, [1], 0));
    }
    var status;
    status, value := u.config.GetValue(a);
  }

  lemma SecondHolds(c: AbstractConfig, x: Entry, y: Entry)
    requires c.Valid() && AllAddressable(c.fields, c.l) && LastsHold(c, [x, y])
    requires y.name in c.fields && |c.fields[y.name]| == 1 && y.default == 0
    ensures c.FieldValue(y.name) == 0
  {
    assert Spread(c.fields[y.name], c.l);
    assert LastDefault([x, y], y.name) == Some(0);
    assert Undisturbed(c.fields, c.l, [x, y], y.name);
  }
}
