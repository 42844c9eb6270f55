/** Time tags of version 1 data (src/raw_data/DAQv1Reader.cpp:20-40 and 162-212): 32-bit tags are put on one
    time axis by watching one e-link's tags for wrap-arounds. The hexadecimal fields of a line are taken as
    numbers; what is made of the other fields is left out. */
module DAQv1 {
  import opened Options
  import opened Arithmetic

  /** A line of the file. */
  datatype Line =
    | Unreadable
    | Event(link: nat, elink: nat, tag: nat, evt: nat)

  const PERIOD := 0x1_0000_0000
  const HALF_PERIOD := 0x8000_0000

  /** ELINK_MAP knows the e-link. */
  predicate Connected(elink: nat) { 9 <= elink <= 20 }

  /** Lines that are not skipped: readable, of event type 0, from an e-link that is connected. */
  predicate Accepted(line: Line) {
    line.Event? && EventType(line.evt) == 0 && Connected(line.elink)
  }

  /** Bit 87 of the event, which is the hexadecimal number without its lowest 32 bits. */
  function EventType(evt: nat): nat { evt / PERIOD / 0x80_0000_0000_0000_0000_0000 % 2 }

  function ElinkID(line: Line): nat
    requires line.Event?
  {
    line.link * 0x100 % PERIOD + line.elink
  }

  function Tag(line: Line): nat
    requires line.Event?
  {
    line.tag % PERIOD
  }

  /** The tag with all bits but the top one masked off. */
  function TopBit(tag: int): int { tag / HALF_PERIOD % 2 * HALF_PERIOD }

  /** The accepted lines of the e-link that the first accepted line comes from. */
  function Reference(lines: seq<Line>): (es: seq<nat>)
    ensures forall i :: 0 <= i < |es| ==> es[i] < |lines| && Accepted(lines[es[i]])
    ensures forall i :: 0 <= i < |lines| && Accepted(lines[i]) ==> |es| > 0
  {
    if lines == [] then []
    else
      var n := |lines| - 1;
      var es := Reference(lines[..n]);
      if Accepted(lines[n]) && (es == [] || ElinkID(lines[n]) == ElinkID(lines[es[0]])) then es + [n] else es
  }

  /** How often the top bit fell from one tag to the next. */
  function Wraps(tags: seq<nat>): nat {
    if |tags| <= 1 then 0
    else var n := |tags| - 1;
      Wraps(tags[..n]) + if TopBit(tags[n]) < TopBit(tags[n - 1]) then 1 else 0
  }

  function Tags(lines: seq<Line>, es: seq<nat>): (tags: seq<nat>)
    requires forall i :: 0 <= i < |es| ==> es[i] < |lines| && lines[es[i]].Event?
    ensures |tags| == |es|
    ensures forall i :: 0 <= i < |es| ==> tags[i] == Tag(lines[es[i]])
  {
    seq(|es|, i requires 0 <= i < |es| => Tag(lines[es[i]]))
  }

  lemma ReferenceSnoc(lines: seq<Line>, n: nat)
    requires n < |lines|
    ensures var es, es' := Reference(lines[..n]), Reference(lines[..n + 1]);
      es' == if Accepted(lines[n]) && (es == [] || ElinkID(lines[n]) == ElinkID(lines[es[0]])) then es + [n] else es
  {
    assert lines[..n + 1][..n] == lines[..n];
  }

  /** The reconstructed tag of an accepted line: the wrap-arounds seen up to there are added, and the first
      tag is subtracted. */
  function Unwrapped(lines: seq<Line>, i: nat): int
    requires i < |lines| && Accepted(lines[i])
  {
    var es := Reference(lines[..i + 1]);
    assert Accepted(lines[..i + 1][i]);
    Tag(lines[i]) + Wraps(Tags(lines, es)) * PERIOD - Tag(lines[es[0]])
  }

  /** The variables of the loop after some lines. */
  ghost predicate Watching(lines: seq<Line>, n: nat, firstID: int, first: int, last: int, wraps: int)
    requires n <= |lines|
  {
    var es := Reference(lines[..n]);
    if es == [] then firstID == -1
    else
      && firstID == ElinkID(lines[es[0]]) && first == Tag(lines[es[0]]) && last == Tag(lines[es[|es| - 1]])
      && wraps == Wraps(Tags(lines, es))
  }

  lemma WrapsSnoc(lines: seq<Line>, es: seq<nat>, n: nat)
    requires (forall i :: 0 <= i < |es| ==> es[i] < |lines| && lines[es[i]].Event?) && n < |lines| && lines[n].Event?
    ensures Wraps(Tags(lines, es + [n]))
         == Wraps(Tags(lines, es))
            + if es != [] && TopBit(Tag(lines[n])) < TopBit(Tag(lines[es[|es| - 1]])) then 1 else 0
    ensures es == [] ==> Wraps(Tags(lines, es)) == 0
  {
    hide TopBit, Tag;
    assert Tags(lines, es + [n])[..|es|] == Tags(lines, es);
  }

  /** The test and the update of the loop for an accepted line. */
  lemma Watch(lines: seq<Line>, n: nat, firstID: int, first: int, last: int, wraps: int)
    requires n < |lines| && Accepted(lines[n]) && Watching(lines, n, firstID, first, last, wraps)
    ensures var tag, id := Tag(lines[n]), ElinkID(lines[n]);
      var wraps' := if TopBit(tag) < TopBit(last) then wraps + 1 else wraps;
      if firstID == -1 then Watching(lines, n + 1, id, tag, tag, 0) && Unwrapped(lines, n) == 0
      else if id == firstID then
        Watching(lines, n + 1, firstID, first, tag, wraps') && Unwrapped(lines, n) == tag + wraps' * PERIOD - first
      else Watching(lines, n + 1, firstID, first, last, wraps) && Unwrapped(lines, n) == tag + wraps * PERIOD - first
  {
    hide Reference, EventType, Connected, Tag, TopBit, ElinkID, Wraps, Tags;
    ReferenceSnoc(lines, n);
    WrapsSnoc(lines, Reference(lines[..n]), n);
  }

  lemma WatchNothing(lines: seq<Line>)
    ensures Watching(lines, 0, -1, 0, 0, 0)
  {
  }

  lemma WatchSkips(lines: seq<Line>, n: nat, firstID: int, first: int, last: int, wraps: int)
    requires n < |lines| && !Accepted(lines[n]) && Watching(lines, n, firstID, first, last, wraps)
    ensures Watching(lines, n + 1, firstID, first, last, wraps)
  {
    ReferenceSnoc(lines, n);
  }

  /** A readable line of an event whose number, without its lowest 32 bits, has bit 87 clear, from one of the
      e-links 9 to 20. */
  predicate HasTag(line: Line) {
    match line
    case Unreadable => false
    case Event(_, elink, _, evt) =>
      evt / 0x1_0000_0000 / 0x80_0000_0000_0000_0000_0000 % 2 == 0 && 9 <= elink <= 20
  }

  lemma AcceptedIs(line: Line)
    ensures Accepted(line) <==> HasTag(line)
  {
  }

  method ProcessStep(lines: seq<Line>) returns (rxTimetag2: seq<Option<int>>)
    ensures |rxTimetag2| == |lines|
    ensures forall i :: 0 <= i < |lines| ==>
                    rxTimetag2[i] == if Accepted(lines[i]) then Some(Unwrapped(lines, i)) else None
    ensures forall i :: 0 <= i < |lines| ==> (rxTimetag2[i].Some? <==> HasTag(lines[i]))
  {
    hide Watching, EventType, Connected, Unwrapped, Tag, TopBit, ElinkID;
    assert Watching(lines, 0, -1, 0, 0, 0) by { WatchNothing(lines); }
    rxTimetag2 := [];
    var firstElinkID: int, firstRxTimetag, lastRxTimetag, wraps := -1, 0, 0, 0;
    for n := 0 to |lines|
      invariant |rxTimetag2| == n
      invariant forall i :: 0 <= i < n ==>
                        rxTimetag2[i] == if Accepted(lines[i]) then Some(Unwrapped(lines, i)) else None
      invariant Watching(lines, n, firstElinkID, firstRxTimetag, lastRxTimetag, wraps)
    {
      if !Accepted(lines[n]) {
        WatchSkips(lines, n, firstElinkID, firstRxTimetag, lastRxTimetag, wraps);
        rxTimetag2 := rxTimetag2 + [None];
        continue;
      }
      Watch(lines, n, firstElinkID, firstRxTimetag, lastRxTimetag, wraps);
      var tag, elinkID := Tag(lines[n]), ElinkID(lines[n]);
      if firstElinkID == -1 {
        firstElinkID, firstRxTimetag, lastRxTimetag, wraps := elinkID, tag, tag, 0;
      } else if elinkID == firstElinkID {
        if TopBit(tag) < TopBit(lastRxTimetag) {
          wraps := wraps + 1;
        }
        lastRxTimetag := tag;
      }
      rxTimetag2 := rxTimetag2 + [Some(tag + wraps * PERIOD - firstRxTimetag)];
    }
    forall i | 0 <= i < |lines| ensures rxTimetag2[i].Some? <==> HasTag(lines[i]) {
      AcceptedIs(lines[i]);
    }
  }

  // ---------------------------------------------------------------- what the tags say of the true times

  /** From a time to one later by step, the test sees exactly the crossings of a multiple of the period. */
  predicate CountsCrossings(a: nat, step: nat) {
    (a + step) / PERIOD - a / PERIOD == if TopBit((a + step) % PERIOD) < TopBit(a % PERIOD) then 1 else 0
  }

  lemma TopBitIs(t: nat)
    requires t < PERIOD
    ensures TopBit(t) == if t < HALF_PERIOD then 0 else HALF_PERIOD
  {
    if t < HALF_PERIOD {
      DivUnique(t, HALF_PERIOD, 0, t);
    } else {
      DivUnique(t, HALF_PERIOD, 1, t - HALF_PERIOD);
    }
  }

  lemma DivIs(q: nat, r: nat)
    requires r < PERIOD
    ensures (q * PERIOD + r) / PERIOD == q && (q * PERIOD + r) % PERIOD == r
  {
    DivUnique(q * PERIOD + r, PERIOD, q, r);
  }

  lemma HalfPeriodSuffices(a: nat, step: nat)
    requires step <= HALF_PERIOD
    ensures CountsCrossings(a, step)
  {
    hide TopBit;
    var q, r := a / PERIOD, a % PERIOD;
    assert a == q * PERIOD + r;
    TopBitIs(r);
    if r + step < PERIOD {
      DivIs(q, r + step);
      TopBitIs(r + step);
    } else {
      DivIs(q + 1, r + step - PERIOD);
      TopBitIs(r + step - PERIOD);
    }
  }

  /** The two parts of a time: how many periods have passed, and the tag. */
  function Epoch(t: nat): nat { t / PERIOD }

  function TagAt(t: nat): nat { t % PERIOD }

  lemma Parts(t: nat)
    ensures t == Epoch(t) * PERIOD + TagAt(t)
  {
  }

  lemma Crossing(a: nat, b: nat)
    requires a <= b <= a + HALF_PERIOD
    ensures Epoch(b) - Epoch(a) == if TopBit(TagAt(b)) < TopBit(TagAt(a)) then 1 else 0
  {
    HalfPeriodSuffices(a, b - a);
  }

  lemma LongStepFails(step: nat)
    requires step > HALF_PERIOD
    ensures !CountsCrossings(PERIOD - 1, step)
  {
    hide TopBit;
    DivIs(0, PERIOD - 1);
    TopBitIs(PERIOD - 1);
    var q, r := (step - 1) / PERIOD, (step - 1) % PERIOD;
    DivIs(q + 1, r);
    TopBitIs(r);
    assert PERIOD - 1 + step == (q + 1) * PERIOD + r;
  }

  /** Half a period is the largest step for which that holds wherever it starts. */
  lemma StepBound(step: nat)
    ensures (forall a: nat :: CountsCrossings(a, step)) <==> step <= HALF_PERIOD
  {
    hide CountsCrossings;
    if step <= HALF_PERIOD {
      forall a: nat ensures CountsCrossings(a, step) {
        HalfPeriodSuffices(a, step);
      }
    } else {
      LongStepFails(step);
    }
  }

  /** Times of the lines: those of the reference e-link never decrease, nor jump by more than half a period,
      and their tags are the times modulo the period. */
  ghost predicate TimesOf(lines: seq<Line>, times: seq<nat>) { Timed(lines, times, Reference(lines)) }

  /** More lines only add to the reference events. */
  lemma {:induction false} ReferenceGrows(lines: seq<Line>, m: nat)
    requires m <= |lines|
    ensures var before, es := Reference(lines[..m]), Reference(lines);
      |before| <= |es| && es[..|before|] == before && forall j :: |before| <= j < |es| ==> es[j] >= m
    decreases |lines|
  {
    hide Reference, Accepted, ElinkID;
    var n := |lines| - 1;
    if m == |lines| {
      assert lines[..m] == lines;
    } else {
      assert lines[..n + 1] == lines && lines[..n][..m] == lines[..m];
      ReferenceSnoc(lines, n);
      ReferenceGrows(lines[..n], m);
    }
  }

  lemma ReferencePrefix(lines: seq<Line>, j: nat)
    requires j < |Reference(lines)|
    ensures Reference(lines[..Reference(lines)[j] + 1]) == Reference(lines)[..j + 1]
  {
    var es := Reference(lines);
    var i := es[j];
    ReferenceGrows(lines, i);
    ReferenceGrows(lines, i + 1);
    ReferenceSnoc(lines, i);
    hide Reference, Accepted, ElinkID;
    UpToThere(es, Reference(lines[..i]), Reference(lines[..i + 1]), i, j);
  }

  lemma UpToThere(es: seq<nat>, before: seq<nat>, upTo: seq<nat>, i: nat, j: nat)
    requires j < |es| && es[j] == i && |before| <= |upTo| <= |before| + 1 && |upTo| <= |es|
    requires es[..|before|] == before && es[..|upTo|] == upTo
    requires forall k :: 0 <= k < |before| ==> before[k] < i
    requires forall k :: |upTo| <= k < |es| ==> es[k] > i
    ensures upTo == es[..j + 1]
  {
    assert forall k :: 0 <= k < |before| ==> es[k] == before[k];
    assert |before| <= j < |upTo|;
  }

  /** The tags of some events are those of their times, which neither decrease nor jump too far. */
  ghost predicate Timed(lines: seq<Line>, times: seq<nat>, es: seq<nat>) {
    && |times| == |lines|
    && (forall j :: 0 <= j < |es| ==> es[j] < |lines| && lines[es[j]].Event?)
    && (forall j :: 0 <= j < |es| ==> lines[es[j]].tag % 0x1_0000_0000 == times[es[j]] % 0x1_0000_0000)
    && (forall j :: 0 < j < |es| ==> times[es[j - 1]] <= times[es[j]] <= times[es[j - 1]] + 0x8000_0000)
  }

  lemma TimedPrefix(lines: seq<Line>, times: seq<nat>, es: seq<nat>, n: nat)
    requires Timed(lines, times, es) && n <= |es|
    ensures Timed(lines, times, es[..n])
  {
    hide Tag, TagAt;
    forall j | 0 < j < n
      ensures times[es[..n][j - 1]] <= times[es[..n][j]] <= times[es[..n][j - 1]] + 0x8000_0000
    {
      assert es[..n][j - 1] == es[j - 1];
    }
  }

  lemma TimedAt(lines: seq<Line>, times: seq<nat>, es: seq<nat>, j: nat)
    requires Timed(lines, times, es) && j < |es|
    ensures |times| == |lines| && es[j] < |lines| && lines[es[j]].Event? && Tag(lines[es[j]]) == TagAt(times[es[j]])
    ensures j > 0 ==> es[j - 1] < |lines| && times[es[j - 1]] <= times[es[j]] <= times[es[j - 1]] + HALF_PERIOD
  {
  }

  lemma AllEvents(lines: seq<Line>, times: seq<nat>, es: seq<nat>)
    requires Timed(lines, times, es)
    ensures |times| == |lines| && forall j :: 0 <= j < |es| ==> es[j] < |lines| && lines[es[j]].Event?
  {
  }

  lemma {:induction false} WrapsAreCrossings(lines: seq<Line>, times: seq<nat>, es: seq<nat>)
    requires Timed(lines, times, es) && es != []
    ensures |times| == |lines| && forall j :: 0 <= j < |es| ==> es[j] < |lines| && lines[es[j]].Event?
    ensures Wraps(Tags(lines, es)) == Epoch(times[es[|es| - 1]]) - Epoch(times[es[0]])
    decreases |es|
  {
    hide TopBit, Tag, Epoch, TagAt, Timed;
    AllEvents(lines, times, es);
    var n := |es| - 1;
    if n > 0 {
      hide Wraps, Tags;
      assert es == es[..n] + [es[n]];
      TimedPrefix(lines, times, es, n);
      TimedAt(lines, times, es, n);
      TimedAt(lines, times, es, n - 1);
      WrapsAreCrossings(lines, times, es[..n]);
      WrapsSnoc(lines, es[..n], es[n]);
      Crossing(times[es[n - 1]], times[es[n]]);
    }
  }

  /** Up to a reference event, the wrap-arounds counted are those of the reference events so far. */
  lemma UnwrappedAt(lines: seq<Line>, j: nat)
    requires j < |Reference(lines)|
    ensures var es := Reference(lines);
      Unwrapped(lines, es[j])
      == Tag(lines[es[j]]) + Wraps(Tags(lines, es[..j + 1])) * PERIOD - Tag(lines[es[0]])
  {
    hide Reference, Tag, Wraps;
    ReferencePrefix(lines, j);
  }

  /** The last event of the reference e-link up to an accepted line. */
  function LastReference(lines: seq<Line>, i: nat): (r: nat)
    requires i < |lines| && Accepted(lines[i])
    ensures r < |lines|
  {
    var es := Reference(lines[..i + 1]);
    assert Accepted(lines[..i + 1][i]);
    es[|es| - 1]
  }

  lemma TimedUpTo(lines: seq<Line>, times: seq<nat>, i: nat)
    requires TimesOf(lines, times) && i < |lines|
    ensures Timed(lines, times, Reference(lines[..i + 1]))
    ensures var before, es := Reference(lines[..i + 1]), Reference(lines); |before| <= |es| && es[..|before|] == before
  {
    ReferenceGrows(lines, i + 1);
    var before, es := Reference(lines[..i + 1]), Reference(lines);
    assert es[..|before|] == before;
    TimedPrefix(lines, times, es, |before|);
  }

  lemma TagsOf(lines: seq<Line>, i: nat, es: seq<nat>)
    requires i < |lines| && forall j :: 0 <= j < |es| ==> es[j] < i + 1 && lines[es[j]].Event?
    ensures Tags(lines[..i + 1], es) == Tags(lines, es)
  {
  }

  /** Any accepted line gets its true time, counted from the first one, if and only if it is in the same period
      as the last event of the reference e-link before it. */
  lemma UnwrapsIff(lines: seq<Line>, times: seq<nat>, i: nat)
    requires TimesOf(lines, times) && i < |lines| && Accepted(lines[i])
    requires |times| == |lines| && lines[i].tag % 0x1_0000_0000 == times[i] % 0x1_0000_0000
    ensures Reference(lines) != []
    ensures Unwrapped(lines, i) + times[Reference(lines)[0]] == times[i] <==>
            times[i] / 0x1_0000_0000 == times[LastReference(lines, i)] / 0x1_0000_0000
  {
    hide Wraps, TopBit, Timed, Epoch, EventType, Connected;
    var es := Reference(lines[..i + 1]);
    assert Accepted(lines[..i + 1][i]);
    TimedUpTo(lines, times, i);
    assert Reference(lines)[..|es|][0] == es[0];
    TimedAt(lines, times, es, 0);
    WrapsAreCrossings(lines, times, es);
    hide Reference, Tag, Tags;
    var first, last := times[es[0]], times[es[|es| - 1]];
    Parts(first);
    Parts(times[i]);
    assert Unwrapped(lines, i) == Tag(lines[i]) + (Epoch(last) - Epoch(first)) * PERIOD - Tag(lines[es[0]]);
    SamePeriod(Unwrapped(lines, i), times[i], first, last);
  }

  lemma SamePeriod(u: int, t: nat, first: nat, last: nat)
    requires u == TagAt(t) + (Epoch(last) - Epoch(first)) * PERIOD - TagAt(first)
    ensures u == t - first <==> t / 0x1_0000_0000 == last / 0x1_0000_0000
  {
    Parts(first);
    Parts(t);
  }

  /** Each event of the first line's e-link gets its true time, counted from the first one. */
  lemma UnwrapsToTrueTime(lines: seq<Line>, times: seq<nat>, j: nat)
    requires TimesOf(lines, times) && j < |Reference(lines)|
    ensures |times| == |lines|
    ensures var es := Reference(lines); Unwrapped(lines, es[j]) + times[es[0]] == times[es[j]]
  {
    hide Reference, Tag, Tags, Wraps, Unwrapped, EventType, Connected, Epoch, TagAt, Timed;
    UnwrappedAt(lines, j);
    var es := Reference(lines);
    TimedPrefix(lines, times, es, j + 1);
    TimedAt(lines, times, es, 0);
    TimedAt(lines, times, es, j);
    WrapsAreCrossings(lines, times, es[..j + 1]);
    Parts(times[es[0]]);
    Parts(times[es[j]]);
  }

  // ---------------------------------------------------------------- which events are watched

  /** These are the accepted lines of the link and e-link of the first one, in order. */
  ghost predicate Watched(lines: seq<Line>, es: seq<nat>) {
    && (forall j, k :: 0 <= j < k < |es| ==> es[j] < es[k])
    && (forall j :: 0 <= j < |es| ==> es[j] < |lines| && HasTag(lines[es[j]]))
    && (forall i :: 0 <= i < |lines| && HasTag(lines[i]) ==> es != [] && es[0] <= i)
    && (forall i: nat :: i < |lines| && HasTag(lines[i]) ==>
          (i in es <==> lines[i].link == lines[es[0]].link && lines[i].elink == lines[es[0]].elink))
  }

  lemma WatchedSkip(lines: seq<Line>, es: seq<nat>, line: Line)
    requires Watched(lines, es)
    requires HasTag(line) ==> es != [] && !(line.link == lines[es[0]].link && line.elink == lines[es[0]].elink)
    ensures Watched(lines + [line], es)
  {
    hide HasTag;
    assert |lines| !in es;
  }

  lemma WatchedNext(lines: seq<Line>, es: seq<nat>, line: Line)
    requires Watched(lines, es) && HasTag(line)
    requires es == [] || (line.link == lines[es[0]].link && line.elink == lines[es[0]].elink)
    ensures Watched(lines + [line], es + [|lines|])
  {
    hide HasTag;
    var es', n := es + [|lines|], |lines|;
    forall i: nat | i <= n ensures i in es' <==> i in es || i == n {
    }
  }

  /** As long as the links fit the 24 bits that the shift leaves of them, the events watched for wrap-arounds are
      these. */
  lemma {:induction false} ReferenceIs(lines: seq<Line>)
    requires forall i :: 0 <= i < |lines| && HasTag(lines[i]) ==> lines[i].link < 0x100_0000
    ensures Watched(lines, Reference(lines))
  {
    if lines != [] {
      var n := |lines| - 1;
      var es, line := Reference(lines[..n]), lines[n];
      ReferenceIs(lines[..n]);
      AcceptedIs(line);
      assert lines == lines[..n] + [line];
      if es != [] && HasTag(line) {
        assert HasTag(lines[..n][es[0]]);
        IDsTell(line, lines[es[0]]);
      }
      if HasTag(line) && (es == [] || ElinkID(line) == ElinkID(lines[es[0]])) {
        WatchedNext(lines[..n], es, line);
      } else {
        WatchedSkip(lines[..n], es, line);
      }
    }
  }

  lemma IDsTell(a: Line, b: Line)
    requires HasTag(a) && HasTag(b) && a.link < 0x100_0000 && b.link < 0x100_0000
    ensures ElinkID(a) == ElinkID(b) <==> a.link == b.link && a.elink == b.elink
  {
  }
}
