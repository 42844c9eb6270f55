/** Ring buffers whose two pointers run modulo twice the number of slots, so that full and empty differ:
    the shared-memory frame ring (16384 slots), the double buffer of the DAQ card (2) and the card's
    command slots (16). The abstract pointers count all slots ever written and ever freed. */
module WrapRing {
  import opened Arithmetic

  lemma SplitTwice(x: nat, n: nat, q: nat, r: nat, q': nat, r': nat)
    requires x == (2 * n) * q + r && r == n * q' + r'
    ensures x == n * (2 * q + q') + r'
  {
    assert n * (2 * q + q') == (2 * n) * q + n * q';
  }

  lemma RemHalf(x: nat, n: nat)
    requires n > 0
    ensures Rem(Rem(x, 2 * n), n) == Rem(x, n)
    ensures Quot(Rem(x, 2 * n), n) <= Quot(x, n)
  {
    hide Quot, Rem;
    Split(x, 2 * n);
    var q, r := Quot(x, 2 * n), Rem(x, 2 * n);
    Split(r, n);
    SplitTwice(x, n, q, r, Quot(r, n), Rem(r, n));
    Unique(x, n, 2 * q + Quot(r, n), Rem(r, n));
  }

  /** The slot index is the same whether the pointer wraps or not. */
  lemma ModHalf(x: nat, n: nat)
    requires n > 0
    ensures Index(Wrapped(x, n), n) == Index(x, n)
  {
    RemHalf(x, n);
  }

  /** The slot that a pointer designates. */
  function Index(pointer: nat, n: nat): (i: nat)
    requires n > 0
    ensures i < n
  {
    pointer % n
  }

  /** The value that the pointer variable holds. */
  function Wrapped(pointer: nat, n: nat): (p: nat)
    requires n > 0
    ensures p < 2 * n
  {
    pointer % (2 * n)
  }

  /** DAQFrameServer.cpp's isFull. */
  predicate IsFull(wr: nat, rd: nat, n: nat)
    requires n > 0
  {
    wr != rd && wr % n == rd % n
  }

  /** The slots in use, from the pointers alone. */
  function Occupancy(wr: nat, rd: nat, n: nat): nat
    requires n > 0 && wr < 2 * n && rd < 2 * n
  {
    if wr >= rd then wr - rd else wr + 2 * n - rd
  }

  /** For every state that writing and freeing slots can reach, the pointers determine how many slots are
      in use, and the full and empty tests of the code say what they should. */
  lemma PointersSuffice(written: nat, freed: nat, n: nat)
    requires n > 0 && freed <= written <= freed + n
    ensures var wr, rd := Wrapped(written, n), Wrapped(freed, n);
      && Occupancy(wr, rd, n) == written - freed
      && (IsFull(wr, rd, n) <==> written - freed == n)
      && (wr == rd <==> written == freed)
  {
    var d := written - freed;
    ModAdd(freed, d, 2 * n);
    var wr, rd := Wrapped(written, n), Wrapped(freed, n);
    ModHalf(written, n);
    ModHalf(freed, n);
    if d == n {
      assert written == freed + n;
      DivSplit(freed, n);
      assert n * (freed / n + 1) == n * (freed / n) + n;
      DivUnique(written, n, freed / n + 1, freed % n);
    } else {
      ModAdd(freed, d, n);
    }
  }

  /** The slot written next is not among those in use. */
  lemma NextSlotFree(written: nat, freed: nat, n: nat, k: nat)
    requires n > 0 && freed <= k < written < freed + n
    ensures Index(k, n) != Index(written, n)
  {
    ModAdd(k, written - k, n);
  }

  /** A slot counted from the wrapped read pointer is the slot counted from the abstract one. */
  lemma SameSlot(c: nat, k: nat, n: nat)
    requires n > 0
    ensures Index(Wrapped(c, n) + k, n) == Index(c + k, n)
  {
    ShiftRounds(c, k, n);
  }

  /** c and what is left of it modulo 2n differ by a multiple of n, and so they do with k added. */
  lemma ShiftRounds(c: nat, k: nat, n: nat)
    requires n > 0
    ensures Rem(c + k, n) == Rem(Rem(c, 2 * n) + k, n)
  {
    hide Quot, Rem;
    var r := Rem(c, 2 * n);
    RemHalf(c, n);
    Split(c, n);
    Split(r, n);
    Split(r + k, n);
    var q, q', t := Quot(c, n), Quot(r, n), Quot(r + k, n);
    assert n * (q - q' + t) == n * q - n * q' + n * t;
    Unique(c + k, n, q - q' + t, Rem(r + k, n));
  }

  lemma Advance(x: nat, n: nat)
    requires n > 0
    ensures Wrapped(Wrapped(x, n) + 1, n) == Wrapped(x + 1, n)
  {
    ModAdd(x, 1, 2 * n);
    ModAdd(x % (2 * n), 1, 2 * n);
    DivUnique(x % (2 * n), 2 * n, 0, x % (2 * n));
  }

  lemma AdvanceBy(x: nat, d: nat, n: nat)
    requires n > 0 && d <= n
    ensures Wrapped(Wrapped(x, n) + d, n) == Wrapped(x + d, n)
  {
    ModAdd(x, d, 2 * n);
    ModAdd(x % (2 * n), d, 2 * n);
    DivUnique(x % (2 * n), 2 * n, 0, x % (2 * n));
  }

  /** PFP_KX7.cpp:278, on 2-bit pointers: the low bits agree and the wrap bits differ. */
  predicate BufferSetFull(wr: nat, rd: nat) {
    wr % 2 == rd % 2 && (wr / 2) % 2 != (rd / 2) % 2
  }

  /** PFP_KX7.cpp:219: the condition under which sendCommand waits, on pointers of which only the low five
      bits count (the device's register carries a pattern above them). */
  predicate CommandSlotsFull(wr: nat, rd: nat) {
    (wr / 16) % 2 != (rd / 16) % 2 && wr % 16 == rd % 16
  }

  /** Both are the generic test for 2 and for 16 slots. */
  lemma BitTestsAreFull(wr: nat, rd: nat)
    ensures wr < 4 && rd < 4 ==> (BufferSetFull(wr, rd) <==> IsFull(wr, rd, 2))
    ensures CommandSlotsFull(wr, rd) <==> IsFull(wr % 32, rd % 32, 16)
  {
    LowBits(wr);
    LowBits(rd);
  }

  lemma LowBits(x: nat)
    ensures (x / 16) % 2 == x % 32 / 16 && x % 16 == x % 32 % 16
  {
    var a, w := x / 32, x % 32;
    DivUnique(x, 16, 2 * a + w / 16, w % 16);
  }

  /** daqd.py: the distance of the pointers, folded when it exceeds the number of slots. */
  function Folded(wr: nat, rd: nat, n: nat): nat
    requires wr < 2 * n && rd < 2 * n
  {
    var d := if wr >= rd then wr - rd else rd - wr;
    if d > n then 2 * n - d else d
  }

  /** Although it ignores which pointer is ahead, the folded distance is the occupancy, for every pointer
      pair with at most n slots in use. */
  lemma FoldedIsOccupancy(written: nat, freed: nat, n: nat)
    requires n > 0 && freed <= written <= freed + n
    ensures Folded(Wrapped(written, n), Wrapped(freed, n), n) == written - freed
  {
    PointersSuffice(written, freed, n);
  }
}
