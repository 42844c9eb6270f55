/** The second stage: hits are calibrated, and dropped where a calibration is missing
    (src/base/ProcessHit.cpp). */
module ProcessHit {
  import opened Events
  import opened CalibrationFormulas

  /** The coefficients of the pedestal polynomial. */
  type Qac = p: seq<real> | |p| == 10 witness [0.0, 0.0, 0.0, 0.0, 0.0, 0.0, 0.0, 0.0, 0.0, 0.0]

  /** The run's configuration: tables by channel and by TAC, and positions by channel. */
  datatype Calibration = Calibration(
    triggerID: int, useTDC: bool, useQDC: bool, useXYZ: bool, sqrt: real -> real,
    tacT: (nat, nat) -> Tac, tacE: (nat, nat) -> Tac, qac: (nat, nat) -> Qac,
    region: nat -> int, x: nat -> real, y: nat -> real, z: nat -> real)
  {
    /** The time corrections, with the offset of the channel. */
    function q1(h: RawHit): real { Fine(tacT(h.channelID, h.tacID), h.t1fine) }

    function q2(h: RawHit): real { Fine(tacE(h.channelID, h.tacID), h.t2fine) }

    function Fine(tac: Tac, fine: nat): real { FineTime(sqrt, tac, fine as real) + tac.t0 }

    function pedestal(h: RawHit, ti: real): real { Sum(qac(h.channelID, h.tacID), ti) }

    predicate missing1(h: RawHit) { tacT(h.channelID, h.tacID).a1 == 0.0 }

    predicate missing2(h: RawHit) { tacE(h.channelID, h.tacID).a1 == 0.0 }

    predicate missingQ(h: RawHit) { qac(h.channelID, h.tacID)[1] == 0.0 }

    predicate IsTrigger(h: RawHit) { h.channelID / 2048 == triggerID }

    predicate MissingTDC(h: RawHit) { !IsTrigger(h) && useTDC && (missing1(h) || missing2(h)) }

    predicate MissingQDC(h: RawHit) { !IsTrigger(h) && useQDC && missingQ(h) }

    predicate MissingXYZ(h: RawHit) { !IsTrigger(h) && useXYZ && region(h.channelID) == -1 }

    predicate Accepts(h: RawHit) { h.valid && !MissingTDC(h) && !MissingQDC(h) && !MissingXYZ(h) }

    /** How much earlier than its coarse time a hit is. */
    function Correction(h: RawHit): real {
      if IsTrigger(h) then (h.t1fine as int - 27) as real * 0.25
      else if useTDC then q1(h)
      else 0.0
    }

    function Time(h: RawHit): real { h.time as real - Correction(h) }

    function Calibrated(h: RawHit): Hit {
      if IsTrigger(h) then
        Hit(true, h, Time(h), Time(h), if h.t2fine == 28 then 1.0 else -1.0, -1, 0.0, 0.0, 0.0)
      else
        Hit(true, h, Time(h),
            if useTDC then h.timeEnd as real - q2(h) else h.timeEnd as real,
            if useQDC then h.qfine as real - pedestal(h, h.timeEndQ as real - Time(h)) else h.qfine as real,
            if useXYZ then region(h.channelID) else -1,
            if useXYZ then x(h.channelID) else 0.0,
            if useXYZ then y(h.channelID) else 0.0,
            if useXYZ then z(h.channelID) else 0.0)
    }

    /** The accepted hits, calibrated, in the order they came in. */
    function Process(hits: seq<RawHit>): seq<Hit> {
      if hits == [] then []
      else
        var last := hits[|hits| - 1];
        Process(hits[..|hits| - 1]) + if Accepts(last) then [Calibrated(last)] else []
    }
  }

  /** The stage's counters. The one for missing energy calibrations counts hits that lack a time or charge
      calibration: its mask 0x16 covers the flags of these two and one that is never set. */
  datatype Counters = Counters(received: nat, invalid: nat, noTDC: nat, noQDC: nat, noEnergy: nat, noXYZ: nat, sent: nat)
  {
    function Atomically(o: Counters): Counters {
      Counters(Add32(received, o.received), Add32(invalid, o.invalid), Add32(noTDC, o.noTDC),
               Add32(noQDC, o.noQDC), Add32(noEnergy, o.noEnergy), Add32(noXYZ, o.noXYZ), Add32(sent, o.sent))
    }

    function Counting(cal: Calibration, h: RawHit): Counters {
      Counters(received + 1, invalid + Tick(!h.valid), noTDC + Tick(cal.MissingTDC(h)),
               noQDC + Tick(cal.MissingQDC(h)), noEnergy + Tick(cal.MissingTDC(h) || cal.MissingQDC(h)),
               noXYZ + Tick(cal.MissingXYZ(h)), sent + Tick(cal.Accepts(h)))
    }
  }

  const ZERO := Counters(0, 0, 0, 0, 0, 0, 0)

  function Tick(flag: bool): nat { if flag then 1 else 0 }

  /** What the counters are to count. */
  function Counted(cal: Calibration, hits: seq<RawHit>): Counters {
    if hits == [] then ZERO else Counted(cal, hits[..|hits| - 1]).Counting(cal, hits[|hits| - 1])
  }

  // ---------------------------------------------------------------- in terms of the source's fields

  /** The hits that are to come out: valid ones of the trigger, or with every calibration that is in use. */
  function Complete(cal: Calibration, hits: seq<RawHit>): seq<RawHit> {
    if hits == [] then []
    else
      var h := hits[|hits| - 1];
      Complete(cal, hits[..|hits| - 1])
      + if h.valid && (h.channelID / 2048 == cal.triggerID || !(NoTime(cal)(h) || NoCharge(cal)(h) || NoPlace(cal)(h)))
        then [h] else []
  }

  /** What an ordinary channel's hit may lack. */
  function NoTime(cal: Calibration): RawHit -> bool {
    (h: RawHit) => h.channelID / 2048 != cal.triggerID && cal.useTDC
         && (cal.tacT(h.channelID, h.tacID).a1 == 0.0 || cal.tacE(h.channelID, h.tacID).a1 == 0.0)
  }

  function NoCharge(cal: Calibration): RawHit -> bool {
    (h: RawHit) => h.channelID / 2048 != cal.triggerID && cal.useQDC && cal.qac(h.channelID, h.tacID)[1] == 0.0
  }

  function NoPlace(cal: Calibration): RawHit -> bool {
    (h: RawHit) => h.channelID / 2048 != cal.triggerID && cal.useXYZ && cal.region(h.channelID) == -1
  }

  function NotValid(): RawHit -> bool { (h: RawHit) => !h.valid }

  function Either(p: RawHit -> bool, q: RawHit -> bool): RawHit -> bool { (h: RawHit) => p(h) || q(h) }

  /** What a hit may lack at all. */
  function Lacking(cal: Calibration): RawHit -> bool {
    Either(NotValid(), Either(NoTime(cal), Either(NoCharge(cal), NoPlace(cal))))
  }

  function CountOf(hits: seq<RawHit>, p: RawHit -> bool): nat {
    if hits == [] then 0 else CountOf(hits[..|hits| - 1], p) + if p(hits[|hits| - 1]) then 1 else 0
  }

  function Raws(hits: seq<Hit>): seq<RawHit> { seq(|hits|, k requires 0 <= k < |hits| => hits[k].raw) }

  /** How a hit is related to its raw hit and the tables. A fine time is the solution of the quadratic equation
      that twice the leading coefficient times it, plus the linear one, equals the root. */
  ghost predicate Described(cal: Calibration, o: Hit) {
    var r, t, e := o.raw, cal.tacT(o.raw.channelID, o.raw.tacID), cal.tacE(o.raw.channelID, o.raw.tacID);
    && o.valid
    && if r.channelID / 2048 == cal.triggerID then
         && 4.0 * (r.time as real - o.time) == r.t1fine as real - 27.0 && o.timeEnd == o.time
         && o.energy == (if r.t2fine == 28 then 1.0 else -1.0) && o.region == -1 && o.x == o.y == o.z == 0.0
       else
         && (cal.useTDC ==>
               Corrects(cal.sqrt, t, r.t1fine, r.time, o.time) && Corrects(cal.sqrt, e, r.t2fine, r.timeEnd, o.timeEnd))
         && (!cal.useTDC ==> o.time == r.time as real && o.timeEnd == r.timeEnd as real)
         && (cal.useQDC ==>
               o.energy + Horner(cal.qac(r.channelID, r.tacID), r.timeEndQ as real - o.time) == r.qfine as real)
         && (!cal.useQDC ==> o.energy == r.qfine as real)
         && (cal.useXYZ ==> o.region == cal.region(r.channelID) && o.x == cal.x(r.channelID) && o.y == cal.y(r.channelID)
                            && o.z == cal.z(r.channelID))
         && (!cal.useXYZ ==> o.region == -1 && o.x == o.y == o.z == 0.0)
  }

  ghost predicate Corrects(sqrt: real -> real, tac: Tac, fine: nat, coarse: int, time: real) {
    var q := coarse as real - tac.t0 - time;
    tac.a2 != 0.0 ==> 2.0 * tac.a2 * q + tac.a1 == sqrt(tac.a1 * tac.a1 - 4.0 * (tac.a0 - fine as real) * tac.a2)
  }

  lemma FineCorrects(cal: Calibration, tac: Tac, fine: nat, coarse: int)
    ensures Corrects(cal.sqrt, tac, fine, coarse, coarse as real - cal.Fine(tac, fine))
  {
    if tac.a2 != 0.0 {
      Divides(-tac.a1 + cal.sqrt(tac.Discriminant(fine as real)), 2.0 * tac.a2);
    }
  }

  lemma CalibratedDescribed(cal: Calibration, h: RawHit)
    ensures Described(cal, cal.Calibrated(h)) && cal.Calibrated(h).raw == h
  {
    FineCorrects(cal, cal.tacT(h.channelID, h.tacID), h.t1fine, h.time);
    FineCorrects(cal, cal.tacE(h.channelID, h.tacID), h.t2fine, h.timeEnd);
    SumIsHorner(cal.qac(h.channelID, h.tacID), h.timeEndQ as real - cal.Time(h));
    hide cal.Fine, Corrects, Sum, Horner;
  }

  /** The output is exactly the complete hits, in their order, each as it should be calibrated. */
  lemma {:induction false} CompleteSent(cal: Calibration, hits: seq<RawHit>)
    ensures Raws(cal.Process(hits)) == Complete(cal, hits)
    ensures forall k :: 0 <= k < |cal.Process(hits)| ==> Described(cal, cal.Process(hits)[k])
  {
    if hits != [] {
      var n := |hits| - 1;
      CompleteSent(cal, hits[..n]);
      CalibratedDescribed(cal, hits[n]);
      hide cal.Calibrated, Described;
    }
  }

  /** The counters: each counts what its name says, and no hit that is counted as lacking something is sent. */
  lemma {:induction false} CountersExact(cal: Calibration, hits: seq<RawHit>)
    ensures var c := Counted(cal, hits);
      && c.received == |hits| && c.sent == |Complete(cal, hits)|
      && c.invalid == CountOf(hits, NotValid())
      && c.noTDC == CountOf(hits, NoTime(cal)) && c.noQDC == CountOf(hits, NoCharge(cal))
      && c.noXYZ == CountOf(hits, NoPlace(cal)) && c.noEnergy == CountOf(hits, Either(NoTime(cal), NoCharge(cal)))
      && c.received - c.sent == CountOf(hits, Lacking(cal))
  {
    if hits != [] {
      CountersExact(cal, hits[..|hits| - 1]);
    }
  }

  class ProcessHit {
    const cal: Calibration
    var counters: Counters

    constructor (cal: Calibration)
      ensures this.cal == cal && counters == ZERO
    {
      this.cal := cal;
      counters := ZERO;
    }

    /** Writes the fields of a slot, whatever an earlier hit may have left in it. */
    method Fill(in_: RawHit, slot: Hit) returns (out: Hit, flagTDC: bool, flagQDC: bool, flagXYZ: bool)
      ensures out.(valid := true) == cal.Calibrated(in_)
      ensures flagTDC == cal.MissingTDC(in_) && flagQDC == cal.MissingQDC(in_) && flagXYZ == cal.MissingXYZ(in_)
    {
      out := slot.(raw := in_);
      flagTDC, flagQDC, flagXYZ := false, false, false;
      if in_.channelID / 2048 == cal.triggerID {
        out := out.(time := in_.time as real);
        out := out.(time := out.time - (in_.t1fine as int - 27) as real * 0.25);
        out := out.(timeEnd := out.time, energy := if in_.t2fine == 28 then 1.0 else -1.0);
        out := out.(region := -1, x := 0.0, y := 0.0, z := 0.0);
      } else {
        out := out.(time := in_.time as real);
        if cal.useTDC {
          out := out.(time := in_.time as real - cal.q1(in_));
          if cal.missing1(in_) { flagTDC := true; }
        }
        out := out.(timeEnd := in_.timeEnd as real);
        if cal.useTDC {
          out := out.(timeEnd := in_.timeEnd as real - cal.q2(in_));
          if cal.missing2(in_) { flagTDC := true; }
        }
        out := out.(energy := in_.qfine as real);
        if cal.useQDC {
          var ti := in_.timeEndQ as real - out.time;
          out := out.(energy := in_.qfine as real - cal.pedestal(in_, ti));
          if cal.missingQ(in_) { flagQDC := true; }
        }
        out := out.(region := -1, x := 0.0, y := 0.0, z := 0.0);
        if cal.useXYZ {
          out := out.(region := cal.region(in_.channelID), x := cal.x(in_.channelID),
                      y := cal.y(in_.channelID), z := cal.z(in_.channelID));
          if cal.region(in_.channelID) == -1 { flagXYZ := true; }
        }
      }
    }

    /** A rejected hit's slot is written again by the next one; only accepted hits keep theirs. */
    method HandleHit(in_: RawHit, outBuffer: EventBuffer<Hit>, c: Counters) returns (l: Counters)
      requires outBuffer.Valid()
      modifies outBuffer`buffer, outBuffer`used, outBuffer.buffer
      ensures outBuffer.Valid() && (outBuffer.buffer == old(outBuffer.buffer) || fresh(outBuffer.buffer))
      ensures outBuffer.Contents() == old(outBuffer.Contents()) + if cal.Accepts(in_) then [cal.Calibrated(in_)] else []
      ensures l == c.Counting(cal, in_)
    {
      var slot := outBuffer.GetWriteSlot();
      var out, flagTDC, flagQDC, flagXYZ := Fill(in_, outBuffer.buffer[slot]);
      l := c.(received := c.received + 1);
      if !in_.valid { l := l.(invalid := l.invalid + 1); }
      if flagTDC { l := l.(noTDC := l.noTDC + 1); }
      if flagQDC { l := l.(noQDC := l.noQDC + 1); }
      if flagXYZ { l := l.(noXYZ := l.noXYZ + 1); }
      if flagTDC || flagQDC { l := l.(noEnergy := l.noEnergy + 1); }
      outBuffer.buffer[slot] := out;
      if in_.valid && !flagTDC && !flagQDC && !flagXYZ {
        outBuffer.buffer[slot] := out.(valid := true);
        outBuffer.PushWriteSlot();
        l := l.(sent := l.sent + 1);
      }
    }

    method HandleEvents(inBuffer: EventBuffer<RawHit>) returns (outBuffer: EventBuffer<Hit>)
      requires inBuffer.Valid()
      modifies this
      ensures fresh(outBuffer) && outBuffer.Valid() && outBuffer.tMin == inBuffer.tMin
      ensures outBuffer.Contents() == cal.Process(inBuffer.Contents())
      ensures counters == old(counters).Atomically(Counted(cal, inBuffer.Contents()))
      ensures Raws(outBuffer.Contents()) == Complete(cal, inBuffer.Contents())
      ensures forall k :: 0 <= k < |outBuffer.Contents()| ==> Described(cal, outBuffer.Contents()[k])
      ensures var hits := inBuffer.Contents();
        && counters.received == Add32(old(counters.received), |hits|)
        && counters.invalid == Add32(old(counters.invalid), CountOf(hits, NotValid()))
        && counters.noTDC == Add32(old(counters.noTDC), CountOf(hits, NoTime(cal)))
        && counters.noQDC == Add32(old(counters.noQDC), CountOf(hits, NoCharge(cal)))
        && counters.noEnergy == Add32(old(counters.noEnergy), CountOf(hits, Either(NoTime(cal), NoCharge(cal))))
        && counters.noXYZ == Add32(old(counters.noXYZ), CountOf(hits, NoPlace(cal)))
        && counters.sent == Add32(old(counters.sent), |Complete(cal, hits)|)
    {
      hide Described, Add32, CountOf, Complete;
      var n := inBuffer.used;
      ghost var hits := inBuffer.Contents();
      outBuffer := new EventBuffer<Hit>(n, inBuffer.tMin);
      var l := ZERO;
      for i := 0 to n
        invariant fresh(outBuffer) && fresh(outBuffer.buffer) && outBuffer.Valid() && outBuffer.tMin == inBuffer.tMin
        invariant inBuffer.Valid() && inBuffer.used == n && inBuffer.Contents() == hits && unchanged(this)
        invariant outBuffer.Contents() == cal.Process(hits[..i])
        invariant l == Counted(cal, hits[..i])
      {
        l := HandleHit(inBuffer.buffer[i], outBuffer, l);
        assert hits[..i + 1][..i] == hits[..i];
      }
      assert hits[..n] == hits;
      counters := counters.Atomically(l);
      CompleteSent(cal, hits);
      CountersExact(cal, hits);
    }
  }

  /** Every hit received is sent or dropped for one of the counted reasons, and the output is what is sent. */
  lemma {:induction false} CountersAddUp(cal: Calibration, hits: seq<RawHit>)
    ensures var c := Counted(cal, hits);
      && c.received == |hits| && c.sent == |cal.Process(hits)|
      && c.sent <= c.received <= c.sent + c.invalid + c.noTDC + c.noQDC + c.noXYZ
      && c.noTDC <= c.noEnergy && c.noQDC <= c.noEnergy <= c.noTDC + c.noQDC
  {
    if hits != [] {
      CountersAddUp(cal, hits[..|hits| - 1]);
    }
  }

  // ---------------------------------------------------------------- order

  /** A later hit precedes an earlier one by at most tol. */
  ghost predicate ApproxSorted(hits: seq<Hit>, tol: real) {
    forall i, j :: 0 <= i < j < |hits| ==> hits[i].time <= hits[j].time + tol
  }

  /** The calibration corrections of the hits span at most c. */
  ghost predicate SpansAtMost(cal: Calibration, hits: seq<RawHit>, c: real) {
    forall i, j :: 0 <= i < |hits| && 0 <= j < |hits| ==> cal.Correction(hits[i]) <= cal.Correction(hits[j]) + c
  }

  lemma IsCalibrated(cal: Calibration, h: RawHit)
    ensures cal.Calibrated(h).raw == h && cal.Calibrated(h).valid
  {
  }

  /** What comes out is calibrated from raw hits that went in, in their order. */
  lemma {:induction false} ProcessFrom(cal: Calibration, hits: seq<RawHit>, d: int)
    requires forall i, j :: 0 <= i < j < |hits| ==> hits[i].time <= hits[j].time + d
    ensures forall h :: h in cal.Process(hits) ==> h.raw in hits && h == cal.Calibrated(h.raw) && h.valid
    ensures forall k, k' :: 0 <= k < k' < |cal.Process(hits)| ==>
                       cal.Process(hits)[k].raw.time <= cal.Process(hits)[k'].raw.time + d
  {
    if hits != [] {
      var n := |hits| - 1;
      ProcessFrom(cal, hits[..n], d);
      IsCalibrated(cal, hits[n]);
      hide cal.Calibrated, cal.Accepts;
      var before := cal.Process(hits[..n]);
      assert cal.Process(hits) == before + if cal.Accepts(hits[n]) then [cal.Calibrated(hits[n])] else [];
      assert hits[n] in hits;
      forall k | 0 <= k < |before| ensures before[k].raw in hits && before[k].raw.time <= hits[n].time + d {
        assert before[k] in before;
        assert before[k].raw in hits[..n];
      }
    }
  }

  /** Calibration adds the span of its corrections to the disorder of the times. */
  lemma ProcessDisorder(cal: Calibration, hits: seq<RawHit>, d: int, c: real)
    requires forall i, j :: 0 <= i < j < |hits| ==> hits[i].time <= hits[j].time + d
    requires SpansAtMost(cal, hits, c)
    ensures ApproxSorted(cal.Process(hits), d as real + c)
    ensures forall k :: 0 <= k < |cal.Process(hits)| ==> cal.Process(hits)[k].valid
  {
    ProcessFrom(cal, hits, d);
    var out := cal.Process(hits);
    forall k, k' | 0 <= k < k' < |out|
      ensures out[k].time <= out[k'].time + (d as real + c)
    {
      assert out[k] in out && out[k'] in out;
      assert cal.Correction(out[k'].raw) <= cal.Correction(out[k].raw) + c;
      assert out[k].raw.time as real <= (out[k'].raw.time + d) as real;
    }
  }
}
