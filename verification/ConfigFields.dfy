/** Layouts of named fields and the bit arrays they divide (src/petsys_py_lib/tofhir2.py:7-94, and
    __MAKE_DEFAULT_... in src/petsys_py_lib/tofhir2b.py:129-141). */
module ConfigFields {
  import opened Options
  import opened Arithmetic
  import opened ConfigBits

  datatype Field = Field(name: string, msb: int, lsb: int, default: int)

  /** So many bits, and the fields in them. */
  datatype Group = Group(length: nat, fields: seq<Field>)

  datatype Entry = Entry(name: string, bits: seq<int>, default: int)

  datatype CfgMap = CfgMap(length: nat, entries: seq<Entry>)

  function Lower(s: string): (t: string)
    ensures |t| == |s|
  {
    seq(|s|, i requires 0 <= i < |s| => if 'A' <= s[i] <= 'Z' then s[i] - 'A' + 'a' else s[i])
  }

  /** Only the case of the letters A to Z changes. */
  lemma LowerIs(s: string, i: nat)
    requires i < |s|
    ensures Lower(s)[i] as int == if 65 <= s[i] as int <= 90 then s[i] as int + 32 else s[i] as int
  {
  }

  lemma LowerTwice(s: string)
    ensures Lower(Lower(s)) == Lower(s)
  {
  }

  /** From the most significant bit down. The third branch is meant to run upward. */
  function BitRange(msb: int, lsb: int): seq<int> {
    if msb > lsb then seq(msb - lsb + 1, i => msb - i)
    else if msb == lsb then [msb]
    else seq(AtLeast0(msb + 1 - lsb), i => lsb + i)
  }

  /** It never has anything to run over: a field whose bits are given in the wrong order is empty. */
  lemma BitRangeBits(msb: int, lsb: int)
    ensures var bits := BitRange(msb, lsb);
      && (forall b :: b in bits <==> lsb <= b <= msb)
      && (forall i, j :: 0 <= i < j < |bits| ==> bits[i] > bits[j])
  {
    var bits := BitRange(msb, lsb);
    forall b | lsb <= b <= msb ensures b in bits {
      assert bits[msb - b] == b;
    }
  }

  function EntryOf(f: Field, offset: nat): Entry {
    Entry(Lower(f.name), BitRange(offset + f.msb, offset + f.lsb), f.default)
  }

  function GroupEntries(fields: seq<Field>, offset: nat): (es: seq<Entry>)
    ensures |es| == |fields|
  {
    seq(|fields|, i requires 0 <= i < |fields| => EntryOf(fields[i], offset))
  }

  function TotalLength(args: seq<Group>): nat {
    if args == [] then 0 else TotalLength(args[..|args| - 1]) + args[|args| - 1].length
  }

  /** All fields, each group's counted from the end of the groups before. */
  function Layout(args: seq<Group>): seq<Entry> {
    if args == [] then []
    else var n := |args| - 1;
      Layout(args[..n]) + GroupEntries(args[n].fields, TotalLength(args[..n]))
  }

  /** The lengths and the numbers of fields of the groups, added up. */
  function Lengths(args: seq<Group>): nat { if args == [] then 0 else args[0].length + Lengths(args[1..]) }

  function FieldCount(args: seq<Group>): nat { if args == [] then 0 else |args[0].fields| + FieldCount(args[1..]) }

  lemma {:induction false} LengthsSnoc(args: seq<Group>, g: Group)
    ensures Lengths(args + [g]) == Lengths(args) + g.length && FieldCount(args + [g]) == FieldCount(args) + |g.fields|
  {
    if args != [] {
      assert (args + [g])[1..] == args[1..] + [g];
      LengthsSnoc(args[1..], g);
    } else {
      assert ([] + [g])[1..] == [];
    }
  }

  lemma {:induction false} LayoutSums(args: seq<Group>)
    ensures TotalLength(args) == Lengths(args) && |Layout(args)| == FieldCount(args)
  {
    if args != [] {
      var n := |args| - 1;
      LayoutSums(args[..n]);
      LengthsSnoc(args[..n], args[n]);
      assert args == args[..n] + [args[n]];
    }
  }

  /** The j-th field of the n-th group: its entry follows those of the fields before, and has its default and the
      bits from lsb to msb, from the highest down, counted from the end of the groups before. */
  lemma FieldsInLayout(args: seq<Group>, n: nat, j: nat)
    requires n < |args| && j < |args[n].fields|
    ensures var k, f, offset := FieldCount(args[..n]) + j, args[n].fields[j], Lengths(args[..n]);
      && k < |Layout(args)| && Layout(args)[k].name == Lower(f.name) && Layout(args)[k].default == f.default
      && (var bits := Layout(args)[k].bits;
          && (forall b :: b in bits <==> offset + f.lsb <= b <= offset + f.msb)
          && (forall a, b :: 0 <= a < b < |bits| ==> bits[a] > bits[b]))
  {
    hide BitRange, Lower, FieldCount, Lengths;
    LayoutSums(args[..n]);
    var f, upTo := args[n].fields[j], args[..n + 1];
    LayoutPrefix(args, n + 1);
    assert upTo[..n] == args[..n] && upTo[n] == args[n];
    assert Layout(upTo) == Layout(args[..n]) + GroupEntries(args[n].fields, TotalLength(args[..n]));
    assert Layout(upTo)[|Layout(args[..n])| + j] == EntryOf(f, TotalLength(args[..n]));
    BitRangeBits(TotalLength(args[..n]) + f.msb, TotalLength(args[..n]) + f.lsb);
  }

  predicate DisjointBits(a: seq<int>, b: seq<int>) {
    forall x :: x in a ==> x !in b
  }

  predicate Disjoint(entries: seq<Entry>) {
    forall i, j :: 0 <= i < j < |entries| ==> DisjointBits(entries[i].bits, entries[j].bits)
  }

  ghost predicate Used(entries: seq<Entry>, bitsUsed: set<int>) {
    forall x :: x in bitsUsed <==> exists i :: 0 <= i < |entries| && x in entries[i].bits
  }

  lemma UsedSnoc(entries: seq<Entry>, bitsUsed: set<int>, e: Entry)
    requires Used(entries, bitsUsed)
    ensures Used(entries + [e], bitsUsed + set x | x in e.bits)
  {
    var all := entries + [e];
    forall x
      ensures x in bitsUsed || x in e.bits <==> exists i :: 0 <= i < |all| && x in all[i].bits
    {
      if x in e.bits {
        assert x in all[|entries|].bits;
      } else if x in bitsUsed {
        var i :| 0 <= i < |entries| && x in entries[i].bits;
        assert x in all[i].bits;
      }
    }
  }

  lemma DisjointSnoc(entries: seq<Entry>, bitsUsed: set<int>, e: Entry)
    requires Used(entries, bitsUsed) && Disjoint(entries)
    ensures Disjoint(entries + [e]) <==> forall x :: x in e.bits ==> x !in bitsUsed
  {
    var all := entries + [e];
    if x :| x in e.bits && x in bitsUsed {
      var i :| 0 <= i < |entries| && x in entries[i].bits;
      assert x in all[i].bits && x in all[|entries|].bits;
      assert !DisjointBits(all[i].bits, all[|entries|].bits);
    } else {
      forall i, j | 0 <= i < j < |all| ensures DisjointBits(all[i].bits, all[j].bits) {
        if j == |entries| {
          assert forall x :: x in entries[i].bits ==> x in bitsUsed;
        }
      }
    }
  }

  lemma ConflictStays(part: seq<Entry>, all: seq<Entry>)
    requires part <= all && !Disjoint(part)
    ensures !Disjoint(all)
  {
    var i, j :| 0 <= i < j < |part| && !DisjointBits(part[i].bits, part[j].bits);
    assert !DisjointBits(all[i].bits, all[j].bits);
  }

  lemma {:induction false} LayoutPrefix(args: seq<Group>, n: nat)
    requires n <= |args|
    ensures Layout(args[..n]) <= Layout(args)
    decreases |args|
  {
    if n == |args| {
      assert args[..n] == args;
    } else {
      assert args[..|args| - 1][..n] == args[..n];
      LayoutPrefix(args[..|args| - 1], n);
    }
  }

  /** The bits of a field that other fields use already. */
  function Common(bits: seq<int>, bitsUsed: set<int>): set<int> { set x | x in bits && x in bitsUsed }

  lemma NoneCommon(bits: seq<int>, bitsUsed: set<int>)
    ensures Common(bits, bitsUsed) == {} <==> forall x :: x in bits ==> x !in bitsUsed
  {
    if Common(bits, bitsUsed) == {} {
      forall x | x in bits ensures x !in bitsUsed {
        assert x !in Common(bits, bitsUsed);
      }
    }
    if forall x :: x in bits ==> x !in bitsUsed {
      assert forall x :: x !in Common(bits, bitsUsed);
      assert Common(bits, bitsUsed) == {};
    }
  }

  /** The fields of one group. */
  method CompileGroup(fields: seq<Field>, totalLength: nat, bitsUsed: set<int>, resultMap: seq<Entry>)
    returns (ok: bool, bitsUsed': set<int>, resultMap': seq<Entry>)
    requires Used(resultMap, bitsUsed) && Disjoint(resultMap)
    ensures ok <==> Disjoint(resultMap + GroupEntries(fields, totalLength))
    ensures ok ==> resultMap' == resultMap + GroupEntries(fields, totalLength) && Used(resultMap', bitsUsed')
  {
    hide Used, Disjoint, BitRange;
    bitsUsed', resultMap' := bitsUsed, resultMap;
    ghost var entries := GroupEntries(fields, totalLength);
    for k := 0 to |fields|
      invariant resultMap' == resultMap + entries[..k]
      invariant Used(resultMap', bitsUsed') && Disjoint(resultMap')
    {
      var f := fields[k];
      var bits := BitRange(totalLength + f.msb, totalLength + f.lsb);
      var intersection := Common(bits, bitsUsed');
      var entry := Entry(Lower(f.name), bits, f.default);
      assert resultMap' + [entry] == resultMap + entries[..k + 1] <= resultMap + entries;
      DisjointSnoc(resultMap', bitsUsed', entry);
      NoneCommon(bits, bitsUsed');
      if intersection != {} {
        ConflictStays(resultMap' + [entry], resultMap + entries);
        return false, bitsUsed', resultMap';
      }
      UsedSnoc(resultMap', bitsUsed', entry);
      bitsUsed' := bitsUsed' + set x | x in bits;
      resultMap' := resultMap' + [entry];
    }
    assert entries[..|fields|] == entries;
    ok := true;
  }

  /** Refuses a layout if and only if two of its fields have a bit in common. */
  method CompileCfgMap(args: seq<Group>) returns (r: Option<CfgMap>)
    ensures r.Some? <==> Disjoint(Layout(args))
    ensures r.Some? ==> r.value == CfgMap(TotalLength(args), Layout(args))
  {
    var totalLength := 0;
    var bitsUsed: set<int> := {};
    var resultMap: seq<Entry> := [];
    for n := 0 to |args|
      invariant totalLength == TotalLength(args[..n]) && resultMap == Layout(args[..n])
      invariant Used(resultMap, bitsUsed) && Disjoint(resultMap)
    {
      assert args[..n + 1][..n] == args[..n];
      LayoutPrefix(args, n + 1);
      var ok;
      ok, bitsUsed, resultMap := CompileGroup(args[n].fields, totalLength, bitsUsed, resultMap);
      if !ok {
        ConflictStays(Layout(args[..n + 1]), Layout(args));
        return None;
      }
      totalLength := totalLength + args[n].length;
    }
    assert args[..|args|] == args;
    return Some(CfgMap(totalLength, resultMap));
  }

  // ---------------------------------------------------------------- the bit array

  /** Bit b of the layout is the b-th from the end of an array of l bits; Python takes the index l - 1 - b,
      which is then negative for b beyond the array, to count from the end. */
  function Place(b: int, l: nat): int { if b < l then l - 1 - b else 2 * l - 1 - b }

  /** The index is one that Python accepts. */
  predicate Addressable(bits: seq<int>, l: nat) {
    forall i :: 0 <= i < |bits| ==> 0 <= bits[i] < 2 * l
  }

  predicate Apart(a: int, b: int, l: nat) { Place(a, l) != Place(b, l) }

  /** No two bits of a field are in the same place. */
  predicate Spread(bits: seq<int>, l: nat) {
    forall i, j :: 0 <= i < j < |bits| ==> Apart(bits[i], bits[j], l)
  }

  /** No bit of one field is in the place of a bit of the other. */
  predicate Separate(a: seq<int>, b: seq<int>, l: nat) {
    forall i, j :: 0 <= i < |a| && 0 <= j < |b| ==> Apart(a[i], b[j], l)
  }

  /** The fields divide the array: no place belongs to two bits. */
  predicate Divides(fields: map<string, seq<int>>, l: nat) {
    && (forall k :: k in fields ==> Spread(fields[k], l))
    && (forall k, k' :: k in fields && k' in fields && k != k' ==> Separate(fields[k], fields[k'], l))
  }

  predicate AllAddressable(fields: map<string, seq<int>>, l: nat) {
    forall k :: k in fields ==> Addressable(fields[k], l)
  }

  /** The bits of a field. */
  function Select(bits: seq<bool>, index: seq<int>): (s: seq<bool>)
    requires Addressable(index, |bits|)
    ensures |s| == |index|
  {
    seq(|index|, a requires 0 <= a < |index| => bits[Place(index[a], |bits|)])
  }

  /** The bits are at these indices from the end of the array, or, beyond its beginning, from there on. */
  predicate ReadsAs(bits: seq<bool>, index: seq<int>, value: seq<bool>) {
    && |value| == |index|
    && forall a :: 0 <= a < |index| ==>
         && 0 <= index[a] < 2 * |bits|
         && value[a] == if index[a] < |bits| then bits[|bits| - 1 - index[a]] else bits[2 * |bits| - 1 - index[a]]
  }

  lemma SelectReads(bits: seq<bool>, index: seq<int>)
    requires Addressable(index, |bits|)
    ensures ReadsAs(bits, index, Select(bits, index))
  {
  }

  /** Bits that are not in a place of the index are the same. */
  predicate SameElsewhere(before: seq<bool>, after: seq<bool>, index: seq<int>) {
    && |before| == |after|
    && forall p :: 0 <= p < |before| && (forall i :: 0 <= i < |index| ==> Place(index[i], |before|) != p) ==>
         after[p] == before[p]
  }

  lemma SelectSame(before: seq<bool>, after: seq<bool>, changed: seq<int>, index: seq<int>)
    requires SameElsewhere(before, after, changed) && Addressable(index, |before|) && Separate(changed, index, |before|)
    ensures Select(after, index) == Select(before, index)
  {
    forall a | 0 <= a < |index| ensures after[Place(index[a], |after|)] == before[Place(index[a], |before|)] {
      assert forall i :: 0 <= i < |changed| ==> Apart(changed[i], index[a], |before|);
    }
  }

  /** How an operation ends: normally or with one of Python's exceptions. */
  datatype Status = Done | KeyError | AssertionError | IndexError

  class AbstractConfig {
    const l: nat
    const fields: map<string, seq<int>>
    const bits: array<bool>

    ghost predicate Valid() {
      bits.Length == l
    }

    ghost function FieldValue(key: string): nat
      requires Valid() && key in fields && Addressable(fields[key], l)
      reads bits
    {
      Value(Select(bits[..], fields[key]))
    }

    constructor (l: nat, fields: map<string, seq<int>>)
      ensures Valid() && this.l == l && this.fields == fields && fresh(bits)
    {
      this.l := l;
      this.fields := fields;
      bits := new bool[l];
    }

    /** Writes a field bit by bit; the length of the value must be that of the field. */
    method SetBits(key: string, value: seq<bool>) returns (status: Status)
      requires Valid()
      modifies bits
      ensures status == if Lower(key) !in fields then KeyError
                        else if |value| != |fields[Lower(key)]| then AssertionError
                        else if !Addressable(fields[Lower(key)], l) then IndexError
                        else Done
      ensures status.KeyError? || status.AssertionError? ==> bits[..] == old(bits[..])
      ensures status.Done? && Spread(fields[Lower(key)], l) ==> Select(bits[..], fields[Lower(key)]) == value
      ensures status.Done? ==> SameElsewhere(old(bits[..]), bits[..], fields[Lower(key)])
      ensures status.Done? && Spread(fields[Lower(key)], l) ==> ReadsAs(bits[..], fields[Lower(key)], value)
    {
      hide Place, Lower;
      var k := Lower(key);
      if k !in fields { return KeyError; }
      var index := fields[k];
      if |value| != |index| { return AssertionError; }
      ghost var was := bits[..];
      for a := 0 to |index|
        invariant Addressable(index[..a], l)
        invariant forall i :: 0 <= i < a ==> 0 <= Place(index[i], l) < l
        invariant Spread(index, l) ==> forall i :: 0 <= i < a ==> bits[Place(index[i], l)] == value[i]
        invariant SameElsewhere(was, bits[..], index)
      {
        if index[a] < 0 || index[a] >= 2 * l { return IndexError; }
        Placed(index[a], l);
        bits[Place(index[a], l)] := value[a];
      }
      assert index[..|index|] == index;
      assert Spread(index, l) ==> Select(bits[..], index) == value;
      SelectReads(bits[..], index);
      status := Done;
    }

    method GetBits(key: string) returns (status: Status, value: seq<bool>)
      requires Valid()
      ensures status == if Lower(key) !in fields then KeyError
                        else if !Addressable(fields[Lower(key)], l) then IndexError
                        else Done
      ensures status.Done? ==> value == Select(bits[..], fields[Lower(key)])
      ensures status.Done? ==> ReadsAs(bits[..], fields[Lower(key)], value)
    {
      hide Place, Lower;
      var k := Lower(key);
      if k !in fields { return KeyError, []; }
      var index := fields[k];
      var v := new bool[|index|];
      for a := 0 to |index|
        invariant Addressable(index[..a], l)
        invariant forall i :: 0 <= i < a ==> 0 <= Place(index[i], l) < l && v[i] == bits[Place(index[i], l)]
      {
        if index[a] < 0 || index[a] >= 2 * l { return IndexError, []; }
        Placed(index[a], l);
        v[a] := bits[Place(index[a], l)];
      }
      assert index[..|index|] == index;
      assert v[..] == Select(bits[..], index);
      SelectReads(bits[..], index);
      return Done, v[..];
    }

    /** Sets one field to the value, clamped to what its bits can hold, and leaves all separate fields as they
        are. */
    method SetValue(key: string, value: int) returns (status: Status)
      requires Valid()
      modifies bits
      ensures status == if Lower(key) !in fields then KeyError
                        else if !Addressable(fields[Lower(key)], l) then IndexError
                        else Done
      ensures status.KeyError? ==> bits[..] == old(bits[..])
      ensures status.Done? && Spread(fields[Lower(key)], l) ==>
                FieldValue(Lower(key)) == Clamp(value, |fields[Lower(key)]|)
      ensures status.Done? ==>
                forall k :: k in fields && Addressable(fields[k], l) && Separate(fields[Lower(key)], fields[k], l) ==>
                  FieldValue(k) == old(FieldValue(k))
    {
      hide Lower, SameElsewhere, Separate, Spread, Addressable, Place;
      var key' := Lower(key);
      if key' !in fields { return KeyError; }
      var b := IntToBin(value, |fields[key']|);
      LowerTwice(key);
      status := SetBits(key', b);
      if status.Done? {
        forall k | k in fields && Addressable(fields[k], l) && Separate(fields[key'], fields[k], l)
          ensures Select(bits[..], fields[k]) == old(Select(bits[..], fields[k]))
        {
          SelectSame(old(bits[..]), bits[..], fields[key'], fields[k]);
        }
      }
    }

    method GetValue(key: string) returns (status: Status, value: nat)
      requires Valid()
      ensures status == if Lower(key) !in fields then KeyError
                        else if !Addressable(fields[Lower(key)], l) then IndexError
                        else Done
      ensures status.Done? ==> value == FieldValue(Lower(key))
    {
      var b;
      status, b := GetBits(Lower(key));
      LowerTwice(key);
      value := BinToInt(b);
    }
  }

  lemma Placed(b: int, l: nat)
    requires 0 <= b < 2 * l
    ensures 0 <= Place(b, l) < l
  {
  }

  // ---------------------------------------------------------------- default configurations

  /** The dictionary of fields: of several with one name, the last. */
  function FieldMap(entries: seq<Entry>): map<string, seq<int>> {
    if entries == [] then map[]
    else var e := entries[|entries| - 1]; FieldMap(entries[..|entries| - 1])[e.name := e.bits]
  }

  /** The default that comes last for a name. */
  function LastDefault(entries: seq<Entry>, name: string): Option<int> {
    if entries == [] then None
    else var e := entries[|entries| - 1];
      if e.name == name then Some(e.default) else LastDefault(entries[..|entries| - 1], name)
  }

  /** Of several entries with one name the last one counts. */
  lemma {:induction false} LastEntry(entries: seq<Entry>, i: nat)
    requires i < |entries| && forall j :: i < j < |entries| ==> entries[j].name != entries[i].name
    ensures var e := entries[i];
      e.name in FieldMap(entries) && FieldMap(entries)[e.name] == e.bits && LastDefault(entries, e.name) == Some(e.default)
  {
    if i < |entries| - 1 {
      LastEntry(entries[..|entries| - 1], i);
    }
  }

  predicate AllIn(entries: seq<Entry>, l: nat) {
    forall i :: 0 <= i < |entries| ==> forall b :: b in entries[i].bits ==> 0 <= b < l
  }

  lemma {:induction false} FieldMapFrom(entries: seq<Entry>, k: string)
    ensures k in FieldMap(entries) <==> LastDefault(entries, k).Some?
    ensures k in FieldMap(entries) ==>
              exists i :: 0 <= i < |entries| && entries[i].name == k && FieldMap(entries)[k] == entries[i].bits
  {
    if entries != [] {
      var n := |entries| - 1;
      FieldMapFrom(entries[..n], k);
      if k in FieldMap(entries) && entries[n].name != k {
        var i :| 0 <= i < n && entries[i].name == k && FieldMap(entries[..n])[k] == entries[..n][i].bits;
        assert entries[..n][i] == entries[i];
      } else if entries[n].name == k {
        assert FieldMap(entries)[k] == entries[n].bits;
      }
    }
  }

  lemma FieldsDisjoint(entries: seq<Entry>, k: string, k': string)
    requires Disjoint(entries) && k in FieldMap(entries) && k' in FieldMap(entries) && k != k'
    ensures DisjointBits(FieldMap(entries)[k], FieldMap(entries)[k'])
  {
    FieldMapFrom(entries, k);
    FieldMapFrom(entries, k');
    hide FieldMap, LastDefault;
    var i :| 0 <= i < |entries| && entries[i].name == k && FieldMap(entries)[k] == entries[i].bits;
    var j :| 0 <= j < |entries| && entries[j].name == k' && FieldMap(entries)[k'] == entries[j].bits;
    if i < j {
      assert DisjointBits(entries[i].bits, entries[j].bits);
    } else {
      assert DisjointBits(entries[j].bits, entries[i].bits);
    }
  }

  lemma {:induction false} LayoutBits(args: seq<Group>, i: nat)
    requires i < |Layout(args)|
    ensures var bits := Layout(args)[i].bits; forall a, b :: 0 <= a < b < |bits| ==> bits[a] != bits[b]
    ensures exists name :: Layout(args)[i].name == Lower(name)
    decreases |args|
  {
    var n := |args| - 1;
    var before := Layout(args[..n]);
    if i < |before| {
      LayoutBits(args[..n], i);
    } else {
      var f := args[n].fields[i - |before|];
      assert Layout(args)[i] == EntryOf(f, TotalLength(args[..n]));
      BitRangeBits(TotalLength(args[..n]) + f.msb, TotalLength(args[..n]) + f.lsb);
    }
  }

  method BuildFields(f: seq<Entry>) returns (fields: map<string, seq<int>>)
    ensures fields == FieldMap(f)
  {
    fields := map[];
    for i := 0 to |f|
      invariant fields == FieldMap(f[..i])
    {
      assert f[..i + 1][..i] == f[..i];
      fields := fields[f[i].name := f[i].bits];
    }
    assert f[..|f|] == f;
  }

  /** No setting that comes after the last one for a field is in a place of it. */
  predicate Undisturbed(fields: map<string, seq<int>>, l: nat, f: seq<Entry>, k: string)
    requires k in fields
  {
    if f == [] then true
    else var e := f[|f| - 1];
      e.name == k
      || ((e.name in fields ==> Separate(fields[e.name], fields[k], l)) && Undisturbed(fields, l, f[..|f| - 1], k))
  }

  lemma {:induction false} AllUndisturbed(fields: map<string, seq<int>>, l: nat, f: seq<Entry>, k: string)
    requires Divides(fields, l) && k in fields
    ensures Undisturbed(fields, l, f, k)
  {
    if f != [] {
      AllUndisturbed(fields, l, f[..|f| - 1], k);
    }
  }

  /** Fields without a later setting in their places have their last defaults. */
  ghost predicate LastsHold(c: AbstractConfig, f: seq<Entry>)
    requires c.Valid() && AllAddressable(c.fields, c.l)
    reads c.bits
  {
    forall k :: k in c.fields && LastDefault(f, k).Some? && Spread(c.fields[k], c.l) && Undisturbed(c.fields, c.l, f, k) ==>
      c.FieldValue(k) == Clamp(LastDefault(f, k).value, |c.fields[k]|)
  }

  /** All fields that have been set have their last defaults. */
  ghost predicate DefaultsSet(c: AbstractConfig, f: seq<Entry>)
    requires c.Valid() && AllAddressable(c.fields, c.l)
    reads c.bits
  {
    forall k :: k in c.fields && LastDefault(f, k).Some? ==>
      c.FieldValue(k) == Clamp(LastDefault(f, k).value, |c.fields[k]|)
  }

  method SetDefaults(c: AbstractConfig, f: seq<Entry>) returns (status: Status)
    requires c.Valid() && (forall i :: 0 <= i < |f| ==> Lower(f[i].name) == f[i].name && f[i].name in c.fields)
    modifies c.bits
    ensures status == if forall i :: 0 <= i < |f| ==> Addressable(c.fields[f[i].name], c.l) then Done else IndexError
    ensures AllAddressable(c.fields, c.l) ==> LastsHold(c, f)
    ensures AllAddressable(c.fields, c.l) && Divides(c.fields, c.l) ==> DefaultsSet(c, f)
  {
    hide Clamp, Addressable, Spread, Separate, Lower;
    for i := 0 to |f|
      invariant forall j :: 0 <= j < i ==> Addressable(c.fields[f[j].name], c.l)
      invariant AllAddressable(c.fields, c.l) ==> LastsHold(c, f[..i])
    {
      assert f[..i + 1][..i] == f[..i];
      status := c.SetValue(f[i].name, f[i].default);
      if status != Done { return; }
    }
    assert f[..|f|] == f;
    if Divides(c.fields, c.l) {
      forall k | k in c.fields ensures Undisturbed(c.fields, c.l, f, k) {
        AllUndisturbed(c.fields, c.l, f, k);
      }
    }
    status := Done;
  }

  datatype Outcome = Built(config: AbstractConfig) | Overlap | BadIndex

  /** Builds the default configuration of a layout, for any layout: it fails exactly when fields overlap or an
      index is one that Python refuses; otherwise every field has its default value unless one set later is in
      a place of it, and so all have if the fields divide the array. */
  method MakeDefault(args: seq<Group>) returns (u: Outcome)
    ensures u.Overlap? <==> !Disjoint(Layout(args))
    ensures u.BadIndex? <==> Disjoint(Layout(args)) && !AllAddressable(FieldMap(Layout(args)), TotalLength(args))
    ensures u.Built? ==>
              && u.config.Valid() && fresh(u.config) && fresh(u.config.bits) && u.config.l == TotalLength(args)
              && u.config.fields == FieldMap(Layout(args))
              && AllAddressable(u.config.fields, u.config.l) && LastsHold(u.config, Layout(args))
              && (Divides(u.config.fields, u.config.l) ==> DefaultsSet(u.config, Layout(args)))
              && forall k :: k in u.config.fields <==> LastDefault(Layout(args), k).Some?
  {
    hide Layout, TotalLength, Disjoint, Divides, Lower, FieldMap, DefaultsSet, LastsHold, LastDefault, Addressable;
    var r := CompileCfgMap(args);
    if r.None? {
      return Overlap;
    }
    var f := r.value.entries;
    var fields := BuildFields(f);
    var c := new AbstractConfig(r.value.length, fields);
    forall k ensures k in fields <==> LastDefault(f, k).Some? {
      FieldMapFrom(f, k);
    }
    forall i | 0 <= i < |f| ensures Lower(f[i].name) == f[i].name && f[i].name in fields {
      LayoutBits(args, i);
      NamedIn(f, i);
      var name :| f[i].name == Lower(name);
      LowerTwice(name);
    }
    var status := SetDefaults(c, f);
    AllNamed(f, c.l);
    u := if status.Done? then Built(c) else BadIndex;
  }

  /** The names of the entries are those of the fields. */
  lemma AllNamed(f: seq<Entry>, l: nat)
    requires forall i :: 0 <= i < |f| ==> f[i].name in FieldMap(f)
    ensures AllAddressable(FieldMap(f), l) <==> forall i :: 0 <= i < |f| ==> Addressable(FieldMap(f)[f[i].name], l)
  {
    hide FieldMap, LastDefault, Addressable;
    forall k | k in FieldMap(f) ensures exists i :: 0 <= i < |f| && f[i].name == k {
      FieldMapFrom(f, k);
    }
  }

  lemma {:induction false} NamedIn(f: seq<Entry>, i: nat)
    requires i < |f|
    ensures f[i].name in FieldMap(f)
  {
    if i < |f| - 1 {
      NamedIn(f[..|f| - 1], i);
    }
  }
}
