/** The records that travel through the event-building stages (src/base/Event.hpp) and the growable
    buffer they travel in (src/base/EventBuffer.hpp). Times and energies are real numbers: rounding is
    not part of this model. */
module Events {
  datatype RawHit = RawHit(
    valid: bool, time: int, timeEnd: int, timeEndQ: int, prevEventTime: int, prevEventFlags: nat,
    channelID: nat, tacID: nat, t1fine: nat, t2fine: nat, qfine: nat)

  datatype Hit = Hit(
    valid: bool, raw: RawHit, time: real, timeEnd: real, energy: real, region: int, x: real, y: real, z: real)

  datatype GammaPhoton = GammaPhoton(
    time: real, energy: real, region: int, x: real, y: real, z: real, hits: seq<Hit>)

  datatype Coincidence = Coincidence(first: GammaPhoton, second: GammaPhoton)

  /** OverlappedEventHandler::overlap: 200 ns at 200 MHz. */
  const OVERLAP: real := 40.0

  function Abs(r: real): (a: real)
    ensures a == r || a == -r
    ensures a >= 0.0
  {
    if r < 0.0 then -r else r
  }

  /** What atomicAdd leaves in a 32-bit counter. */
  function Add32(counter: nat, increment: nat): (sum: nat)
    ensures sum < 0x1_0000_0000 && (counter + increment - sum) % 0x1_0000_0000 == 0
  {
    (counter + increment) % 0x1_0000_0000
  }

  class EventBuffer<T(0)> {
    var buffer: array<T>
    var used: nat
    var tMin: int
    var tMax: int

    ghost predicate Valid()
      reads this
    {
      used <= buffer.Length
    }

    function Contents(): seq<T>
      requires Valid()
      reads this, buffer
    {
      buffer[..used]
    }

    constructor (initialCapacity: nat, tMin: int)
      ensures Valid() && fresh(buffer) && Contents() == [] && this.tMin == tMin
      ensures buffer.Length > initialCapacity && buffer.Length % 1024 == 0
    {
      buffer := new T[(initialCapacity / 1024 + 1) * 1024];
      used := 0;
      this.tMin := tMin;
    }

    method Reserve(newCapacity: nat)
      requires Valid()
      modifies this`buffer
      ensures Valid() && Contents() == old(Contents())
      ensures buffer.Length == if newCapacity <= old(buffer.Length) then old(buffer.Length) else newCapacity
      ensures buffer == old(buffer) || fresh(buffer)
    {
      if newCapacity <= buffer.Length {
        return;
      }
      Reallocate(newCapacity);
    }

    /** realloc to a larger size: what was in the buffer stays. */
    method Reallocate(newCapacity: nat)
      requires Valid() && newCapacity >= buffer.Length
      modifies this`buffer
      ensures Valid() && fresh(buffer) && buffer.Length == newCapacity
      ensures buffer[..old(buffer.Length)] == old(buffer[..])
      ensures Contents() == old(Contents())
    {
      var reBuffer := new T[newCapacity];
      for i := 0 to buffer.Length
        invariant buffer == old(buffer) && reBuffer != buffer
        invariant reBuffer[..i] == buffer[..i] && buffer[..] == old(buffer[..])
      {
        reBuffer[i] := buffer[i];
      }
      buffer := reBuffer;
      assert reBuffer[..used] == old(buffer[..])[..used];
    }

    /** Makes room for one more element and returns the index of its slot. */
    method GetWriteSlot() returns (slot: nat)
      requires Valid()
      modifies this`buffer
      ensures Valid() && slot == used < buffer.Length && Contents() == old(Contents())
      ensures buffer == old(buffer) || fresh(buffer)
    {
      if used >= buffer.Length {
        var increment := (buffer.Length / 10240 + 1) * 1024;
        Reallocate(buffer.Length + increment);
      }
      slot := used;
    }

    method PushWriteSlot()
      requires Valid() && used < buffer.Length
      modifies this`used
      ensures Valid() && Contents() == old(Contents()) + [old(buffer[used])]
    {
      used := used + 1;
    }

    method Push(e: T)
      requires Valid()
      modifies this`buffer, this`used, buffer
      ensures Valid() && Contents() == old(Contents()) + [e]
      ensures buffer == old(buffer) || fresh(buffer)
    {
      var slot := GetWriteSlot();
      buffer[slot] := e;
      PushWriteSlot();
    }
  }
}
