/** Calibration data are not written frame by frame: the event words of a step are collected in a sorted
    multiset and written as pairs of word and frequency (write_raw.cpp:166-173 and 216-231). */
module CalibrationSet {
  import opened Arithmetic

  datatype CalibrationRecord = CalibrationRecord(word: nat, freq: int)

  predicate Sorted(s: seq<nat>) {
    forall i, j :: 0 <= i < j < |s| ==> s[i] <= s[j]
  }

  /** Where the elements greater than x begin. */
  function UpperBound(s: seq<nat>, x: nat): (u: nat)
    ensures u <= |s|
    ensures Sorted(s) ==> (forall i :: 0 <= i < |s| ==> (s[i] <= x <==> i < u))
  {
    if s == [] || s[0] > x then 0 else 1 + UpperBound(s[1..], x)
  }

  function Insert(s: seq<nat>, x: nat): (t: seq<nat>)
    requires Sorted(s)
    ensures Sorted(t) && multiset(t) == multiset(s) + multiset{x}
  {
    var u := UpperBound(s, x);
    InsertAt(s, u, x);
    s[..u] + [x] + s[u..]
  }

  lemma InsertAt(s: seq<nat>, u: nat, x: nat)
    requires Sorted(s) && u <= |s| && forall i :: 0 <= i < |s| ==> (s[i] <= x <==> i < u)
    ensures Sorted(s[..u] + [x] + s[u..]) && multiset(s[..u] + [x] + s[u..]) == multiset(s) + multiset{x}
  {
    InsertKeeps(s, u, x);
    var t := s[..u] + [x] + s[u..];
    forall i, j | 0 <= i < j < |t| ensures t[i] <= t[j] {
      var a, b := if i > u then s[i - 1] else x, if j > u then s[j - 1] else x;
      assert i < u ==> t[i] == s[i];
      assert j < u ==> t[j] == s[j];
    }
  }

  lemma InsertKeeps(s: seq<nat>, u: nat, x: nat)
    requires u <= |s|
    ensures multiset(s[..u] + [x] + s[u..]) == multiset(s) + multiset{x}
  {
    assert s == s[..u] + s[u..];
  }

  /** std::multiset::count returns more bits than the int it is stored in. */
  function ToInt32(n: int): (r: int)
    ensures -0x8000_0000 <= r < 0x8000_0000
  {
    (n + 0x8000_0000) % 0x1_0000_0000 - 0x8000_0000
  }

  /** Strictly increasing words, and exactly those that occur. */
  ghost predicate Compressed(out: seq<CalibrationRecord>, events: multiset<nat>) {
    && (forall i, j :: 0 <= i < j < |out| ==> out[i].word < out[j].word)
    && (forall i :: 0 <= i < |out| ==> out[i].word in events && out[i].freq == ToInt32(events[out[i].word]))
    && (forall w :: w in events ==> HasRecord(out, w))
  }

  /** What a reader makes of the records. */
  ghost function Expansion(out: seq<CalibrationRecord>): multiset<nat> {
    if out == [] then multiset{}
    else var r := out[|out| - 1];
      Expansion(out[..|out| - 1]) + multiset{}[r.word := if r.freq < 0 then 0 else r.freq]
  }

  /** The words before position it have their records. */
  ghost predicate WalkedTo(out: seq<CalibrationRecord>, s: seq<nat>, it: nat) {
    && it <= |s|
    && (forall i, j :: 0 <= i < j < |out| ==> out[i].word < out[j].word)
    && (forall i :: 0 <= i < |out| ==> out[i].word in s && out[i].freq == ToInt32(multiset(s)[out[i].word]))
    && (forall k :: 0 <= k < it ==> HasRecord(out, s[k]))
    && (forall i, k :: 0 <= i < |out| && it <= k < |s| ==> out[i].word < s[k])
  }

  ghost predicate HasRecord(out: seq<CalibrationRecord>, w: nat) {
    exists i :: 0 <= i < |out| && out[i].word == w
  }

  lemma HasRecordSnoc(out: seq<CalibrationRecord>, r: CalibrationRecord)
    ensures forall w :: HasRecord(out, w) || w == r.word ==> HasRecord(out + [r], w)
  {
    var out' := out + [r];
    forall w | HasRecord(out, w) || w == r.word ensures HasRecord(out', w) {
      if w == r.word {
        assert out'[|out|].word == w;
      } else {
        var i :| 0 <= i < |out| && out[i].word == w;
        assert out'[i].word == w;
      }
    }
  }

  lemma WalkStep(out: seq<CalibrationRecord>, s: seq<nat>, it: nat)
    requires Sorted(s) && it < |s| && WalkedTo(out, s, it)
    ensures it < UpperBound(s, s[it])
    ensures WalkedTo(out + [CalibrationRecord(s[it], ToInt32(multiset(s)[s[it]]))], s, UpperBound(s, s[it]))
  {
    hide UpperBound, ToInt32, HasRecord;
    var r, u := CalibrationRecord(s[it], ToInt32(multiset(s)[s[it]])), UpperBound(s, s[it]);
    HasRecordSnoc(out, r);
    OneMoreRecord(out, r, s, it, u);
    assert forall k :: it <= k < u ==> s[it] <= s[k] <= s[it];
    hide Sorted;
  }

  lemma OneMoreRecord(out: seq<CalibrationRecord>, r: CalibrationRecord, s: seq<nat>, it: nat, u: nat)
    requires it < |s| && u <= |s| && r.word == s[it]
    requires forall i, j :: 0 <= i < j < |out| ==> out[i].word < out[j].word
    requires forall i, k :: 0 <= i < |out| && it <= k < |s| ==> out[i].word < s[k]
    requires forall k :: u <= k < |s| ==> it <= k && r.word < s[k]
    ensures forall i, j :: 0 <= i < j < |out + [r]| ==> (out + [r])[i].word < (out + [r])[j].word
    ensures forall i, k :: 0 <= i < |out + [r]| && u <= k < |s| ==> (out + [r])[i].word < s[k]
  {
  }

  /** The walk from each word to the first greater one: it passes every word once. */
  method Compress(calEventSet: seq<nat>) returns (out: seq<CalibrationRecord>)
    requires Sorted(calEventSet)
    ensures Compressed(out, multiset(calEventSet))
  {
    out := [];
    var it := 0;
    while it != |calEventSet|
      invariant WalkedTo(out, calEventSet, it)
      decreases |calEventSet| - it
    {
      var word := calEventSet[it];
      var freq := ToInt32(multiset(calEventSet)[word]);
      WalkStep(out, calEventSet, it);
      out := out + [CalibrationRecord(word, freq)];
      it := UpperBound(calEventSet, word);
    }
  }

  /** In the expansion, a word that has a record occurs as often as it says. */
  lemma {:induction false} ExpansionAt(out: seq<CalibrationRecord>, w: nat)
    requires forall i, j :: 0 <= i < j < |out| ==> out[i].word < out[j].word
    ensures forall i :: 0 <= i < |out| && out[i].word == w ==>
                    Expansion(out)[w] == if out[i].freq < 0 then 0 else out[i].freq
    ensures (forall i :: 0 <= i < |out| ==> out[i].word != w) ==> Expansion(out)[w] == 0
  {
    if out != [] {
      ExpansionAt(out[..|out| - 1], w);
      assert forall i :: 0 <= i < |out| - 1 ==> out[..|out| - 1][i] == out[i];
    }
  }

  lemma FitsInt32(n: nat)
    ensures AtLeast0(ToInt32(n)) == n <==> n < 0x8000_0000
  {
  }

  lemma ExpansionCounts(out: seq<CalibrationRecord>, events: multiset<nat>, w: nat)
    requires Compressed(out, events)
    ensures Expansion(out)[w] == AtLeast0(ToInt32(events[w]))
  {
    hide Expansion, ToInt32;
    ExpansionAt(out, w);
    if w in events {
      assert HasRecord(out, w);
      var i :| 0 <= i < |out| && out[i].word == w;
      assert out[i].freq == ToInt32(events[w]);
    } else {
      FitsInt32(0);
    }
  }

  /** The expansion is the multiset of the step's events if and only if no event word occurs 2 to the 31st
      times or more. */
  lemma ExpandsToEvents(out: seq<CalibrationRecord>, events: multiset<nat>)
    requires Compressed(out, events)
    ensures Expansion(out) == events <==> forall w :: w in events ==> events[w] < 0x8000_0000
  {
    hide Expansion, ToInt32, AtLeast0, Compressed;
    forall w: nat
      ensures Expansion(out)[w] == events[w] <==> events[w] < 0x8000_0000
    {
      ExpansionCounts(out, events, w);
      FitsInt32(events[w]);
    }
    if forall w :: w in events ==> events[w] < 0x8000_0000 {
      assert forall w :: Expansion(out)[w] == events[w];
    }
  }

  /** In that case no frequency is less than one. */
  lemma FrequenciesPositive(out: seq<CalibrationRecord>, events: multiset<nat>)
    requires Compressed(out, events) && Expansion(out) == events
    ensures forall i :: 0 <= i < |out| ==> out[i].freq >= 1
  {
    forall i | 0 <= i < |out| ensures out[i].freq >= 1 {
      ExpansionAt(out, out[i].word);
    }
  }
}
