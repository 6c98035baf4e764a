/** Comparing stretches of bits of two IDs by masked bytes (ids/bits.go), against the one-bit
    definition (ids/id.go). Bit 0 is the lowest bit of byte 0. */
module IdBits {

  const NUM_BITS := 256

  type ID = s: seq<bv8> | |s| == 32 witness seq(32, _ => 0)

  /** Whether the `b`th bit of a byte is set, lowest first. */
  predicate BitOf(x: bv8, b: nat)
    requires b < 8
  {
    (x >> b) & 1 == 1
  }

  /** `ID.Bit`. */
  predicate Bit(id: ID, i: nat)
    requires i < NUM_BITS
  {
    BitOf(id[i / 8], i % 8)
  }

  // The masks of a stretch's first and last byte. An int mask meets a byte in its low eight bits.

  function StartMask(s: nat): bv8
    requires s < 8
  {
    0xFF << s
  }

  function StopMask(s: nat): bv8
    requires s < 8
  {
    (1 << (s + 1)) - 1
  }

  // ---------------------------------------------------------------------------
  // Bit by bit

  /** The byte with only this bit. */
  function Unit(b: nat): bv8
    requires b < 8
  {
    if b == 0 then 1 else if b == 1 then 2 else if b == 2 then 4 else if b == 3 then 8
    else if b == 4 then 16 else if b == 5 then 32 else if b == 6 then 64 else 128
  }

  lemma BitIsUnit(x: bv8, b: nat)
    requires b < 8
    ensures BitOf(x, b) <==> x & Unit(b) != 0
  {
    if b == 0 {} else if b == 1 {} else if b == 2 {} else if b == 3 {}
    else if b == 4 {} else if b == 5 {} else if b == 6 {} else {}
  }

  lemma AndBit(x: bv8, y: bv8, b: nat)
    requires b < 8
    ensures BitOf(x & y, b) <==> BitOf(x, b) && BitOf(y, b)
  {
    BitIsUnit(x, b);
    BitIsUnit(y, b);
    BitIsUnit(x & y, b);
  }

  lemma XorBit(x: bv8, y: bv8, b: nat)
    requires b < 8
    ensures BitOf(x ^ y, b) <==> BitOf(x, b) != BitOf(y, b)
  {
    BitIsUnit(x, b);
    BitIsUnit(y, b);
    BitIsUnit(x ^ y, b);
  }

  lemma StartMaskTable(s: nat)
    requires s < 8
    ensures StartMask(s) == if s == 0 then 0xFF else if s == 1 then 0xFE else if s == 2 then 0xFC else if s == 3 then 0xF8
                            else if s == 4 then 0xF0 else if s == 5 then 0xE0 else if s == 6 then 0xC0 else 0x80
  {}

  lemma StopMaskTable(s: nat)
    requires s < 8
    ensures StopMask(s) == if s == 0 then 0x01 else if s == 1 then 0x03 else if s == 2 then 0x07 else if s == 3 then 0x0F
                           else if s == 4 then 0x1F else if s == 5 then 0x3F else if s == 6 then 0x7F else 0xFF
  {}

  /** The masks hold the bits from `s` up and the bits up to `s`. */
  lemma MaskBits(s: nat, b: nat)
    requires s < 8 && b < 8
    ensures BitOf(StartMask(s), b) <==> s <= b
    ensures BitOf(StopMask(s), b) <==> b <= s
  {
    StartMaskTable(s);
    StopMaskTable(s);
    BitIsUnit(StartMask(s), b);
    BitIsUnit(StopMask(s), b);
  }

  /** Bytes with the same bits are the same. */
  lemma ByteIsItsBits(x: bv8, y: bv8)
    requires forall b :: 0 <= b < 8 ==> BitOf(x, b) == BitOf(y, b)
    ensures x == y
  {
    forall b | 0 <= b < 8 ensures (x & Unit(b) != 0) == (y & Unit(b) != 0) {
      BitIsUnit(x, b);
      BitIsUnit(y, b);
    }
    assert (x & Unit(0) != 0) == (y & Unit(0) != 0) && (x & Unit(1) != 0) == (y & Unit(1) != 0);
    assert (x & Unit(2) != 0) == (y & Unit(2) != 0) && (x & Unit(3) != 0) == (y & Unit(3) != 0);
    assert (x & Unit(4) != 0) == (y & Unit(4) != 0) && (x & Unit(5) != 0) == (y & Unit(5) != 0);
    assert (x & Unit(6) != 0) == (y & Unit(6) != 0) && (x & Unit(7) != 0) == (y & Unit(7) != 0);
  }

  // ---------------------------------------------------------------------------
  // Masked bytes

  /** The two bytes agree on the bits of the mask. */
  ghost predicate MaskAgrees(m: bv8, x: bv8, y: bv8) {
    forall b :: 0 <= b < 8 && BitOf(m, b) ==> BitOf(x, b) == BitOf(y, b)
  }

  /** The masked bytes are the same. */
  predicate Masked(m: bv8, x: bv8, y: bv8) { m & x == m & y }

  lemma AndBits(m: bv8, x: bv8)
    ensures forall b :: 0 <= b < 8 ==> BitOf(m & x, b) == (BitOf(m, b) && BitOf(x, b))
  {
    forall b | 0 <= b < 8 ensures BitOf(m & x, b) == (BitOf(m, b) && BitOf(x, b)) { AndBit(m, x, b); }
  }

  lemma SameWhenMasked(m: bv8, x: bv8, y: bv8, mx: bv8, my: bv8)
    requires forall b :: 0 <= b < 8 ==> BitOf(mx, b) == (BitOf(m, b) && BitOf(x, b))
    requires forall b :: 0 <= b < 8 ==> BitOf(my, b) == (BitOf(m, b) && BitOf(y, b))
    ensures mx == my <==> MaskAgrees(m, x, y)
  {
    if MaskAgrees(m, x, y) { ByteIsItsBits(mx, my); }
  }

  lemma MaskedIsAgreement(m: bv8, x: bv8, y: bv8)
    ensures Masked(m, x, y) <==> MaskAgrees(m, x, y)
  {
    AndBits(m, x);
    AndBits(m, y);
    SameWhenMasked(m, x, y, m & x, m & y);
  }

  /** `bits.TrailingZeros8`, from bit `b` on. */
  function TrailingZeros(d: bv8, b: nat): (r: nat)
    requires b <= 8
    ensures b <= r <= 8 && (r < 8 ==> BitOf(d, r)) && forall k :: b <= k < r ==> !BitOf(d, k)
    decreases 8 - b
  {
    if b == 8 || BitOf(d, b) then b else TrailingZeros(d, b + 1)
  }

  /** The position of the lowest bit of the mask on which the bytes differ. */
  function LowestDifference(m: bv8, x: bv8, y: bv8): (r: nat) { TrailingZeros((m & x) ^ (m & y), 0) }

  lemma DifferenceBit(m: bv8, x: bv8, y: bv8, b: nat)
    requires b < 8
    ensures BitOf((m & x) ^ (m & y), b) <==> BitOf(m, b) && BitOf(x, b) != BitOf(y, b)
  {
    XorBit(m & x, m & y, b);
    AndBit(m, x, b);
    AndBit(m, y, b);
  }

  /** The bit is in the mask, the bytes differ in it, and below it they agree on the mask. */
  ghost predicate IsLowest(m: bv8, x: bv8, y: bv8, r: nat) {
    && r < 8 && BitOf(m, r) && BitOf(x, r) != BitOf(y, r)
    && forall b :: 0 <= b < r && BitOf(m, b) ==> BitOf(x, b) == BitOf(y, b)
  }

  lemma LowestOf(m: bv8, x: bv8, y: bv8, d: bv8)
    requires forall b :: 0 <= b < 8 ==> (BitOf(d, b) <==> BitOf(m, b) && BitOf(x, b) != BitOf(y, b))
    requires !MaskAgrees(m, x, y)
    ensures IsLowest(m, x, y, TrailingZeros(d, 0))
  {}

  lemma LowestDifferenceIs(m: bv8, x: bv8, y: bv8)
    requires !Masked(m, x, y)
    ensures IsLowest(m, x, y, LowestDifference(m, x, y))
  {
    MaskedIsAgreement(m, x, y);
    forall b | 0 <= b < 8
      ensures BitOf((m & x) ^ (m & y), b) <==> BitOf(m, b) && BitOf(x, b) != BitOf(y, b)
    {
      DifferenceBit(m, x, y, b);
    }
    LowestOf(m, x, y, (m & x) ^ (m & y));
  }

  // ---------------------------------------------------------------------------
  // Stretches of an ID

  /** Every bit from `start` up to `stop` is the same in both. */
  ghost predicate Agree(start: nat, stop: nat, id1: ID, id2: ID)
    requires stop <= NUM_BITS
  {
    forall i :: start <= i < stop ==> Bit(id1, i) == Bit(id2, i)
  }

  /** The bits of the stretch that lie in byte `k`. */
  function MaskAt(start: nat, last: nat, k: nat): bv8 {
    var m := if k == start / 8 then StartMask(start % 8) else 0xFF;
    if k == last / 8 then m & StopMask(last % 8) else m
  }

  lemma FullMask(b: nat)
    requires b < 8
    ensures BitOf(0xFF, b)
  {
    MaskBits(0, b);
    StartMaskTable(0);
  }

  lemma MaskAtBits(start: nat, last: nat, k: nat, b: nat)
    requires start / 8 <= k <= last / 8 && b < 8
    ensures BitOf(MaskAt(start, last, k), b) <==> start <= 8 * k + b <= last
  {
    MaskBits(start % 8, b);
    MaskBits(last % 8, b);
    FullMask(b);
    AndBit(0xFF, StopMask(last % 8), b);
    AndBit(StartMask(start % 8), StopMask(last % 8), b);
  }

  ghost predicate ByteAgrees(start: nat, last: nat, id1: ID, id2: ID, k: nat)
    requires k < 32
  {
    MaskAgrees(MaskAt(start, last, k), id1[k], id2[k])
  }

  /** The stretch agrees if all its bytes, masked, do. */
  lemma AgreeByBytes(start: nat, last: nat, id1: ID, id2: ID)
    requires start <= last < NUM_BITS
    ensures Agree(start, last + 1, id1, id2) <==> forall k :: start / 8 <= k <= last / 8 ==> ByteAgrees(start, last, id1, id2, k)
  {
    if Agree(start, last + 1, id1, id2) {
      forall k | start / 8 <= k <= last / 8 ensures ByteAgrees(start, last, id1, id2, k) {
        forall b | 0 <= b < 8 && BitOf(MaskAt(start, last, k), b) ensures BitOf(id1[k], b) == BitOf(id2[k], b) {
          MaskAtBits(start, last, k, b);
          assert Bit(id1, 8 * k + b) == Bit(id2, 8 * k + b);
        }
      }
    }
    if forall k :: start / 8 <= k <= last / 8 ==> ByteAgrees(start, last, id1, id2, k) {
      forall i | start <= i < last + 1 ensures Bit(id1, i) == Bit(id2, i) {
        MaskAtBits(start, last, i / 8, i % 8);
        assert ByteAgrees(start, last, id1, id2, i / 8);
      }
    }
  }

  /** `EqualSubset`. A stretch past the end is never equal, an empty one always. */
  function EqualSubset(start: nat, end: int, id1: ID, id2: ID): bool {
    var stop := end - 1;
    if start > stop || stop < 0 then true
    else if stop >= NUM_BITS then false
    else
      var (startIndex, stopIndex) := (start / 8, stop / 8);
      if startIndex + 1 < stopIndex && id1[startIndex + 1..stopIndex] != id2[startIndex + 1..stopIndex] then false
      else
        var (startMask, stopMask) := (StartMask(start % 8), StopMask(stop % 8));
        if startIndex == stopIndex then Masked(startMask & stopMask, id1[startIndex], id2[startIndex])
        else Masked(startMask, id1[startIndex], id2[startIndex]) && Masked(stopMask, id1[stopIndex], id2[stopIndex])
  }

  lemma FullAgrees(x: bv8, y: bv8)
    ensures MaskAgrees(0xFF, x, y) <==> x == y
  {
    MaskedIsAgreement(0xFF, x, y);
  }

  /** The masks of the first, last and other bytes. */
  lemma MaskAtEnds(start: nat, last: nat, k: nat)
    requires start / 8 <= k <= last / 8
    ensures k == start / 8 == last / 8 ==> MaskAt(start, last, k) == StartMask(start % 8) & StopMask(last % 8)
    ensures k == start / 8 < last / 8 ==> MaskAt(start, last, k) == StartMask(start % 8)
    ensures start / 8 < k == last / 8 ==> MaskAt(start, last, k) == StopMask(last % 8)
    ensures start / 8 < k < last / 8 ==> MaskAt(start, last, k) == 0xFF
  {}

  lemma SlicesEqual(id1: ID, id2: ID, i: nat, j: nat)
    requires i <= j <= 32
    ensures id1[i..j] == id2[i..j] <==> forall k :: i <= k < j ==> id1[k] == id2[k]
  {
    if id1[i..j] == id2[i..j] {
      forall k | i <= k < j ensures id1[k] == id2[k] { assert id1[i..j][k - i] == id2[i..j][k - i]; }
    }
  }

  /** What `EqualSubset` compares in byte `k`. */
  lemma ByteCompared(start: nat, last: nat, id1: ID, id2: ID, k: nat)
    requires start / 8 <= k <= last / 8 < 32
    ensures ByteAgrees(start, last, id1, id2, k) <==>
              if start / 8 < k < last / 8 then id1[k] == id2[k] else Masked(MaskAt(start, last, k), id1[k], id2[k])
  {
    MaskAtEnds(start, last, k);
    MaskedIsAgreement(MaskAt(start, last, k), id1[k], id2[k]);
    FullAgrees(id1[k], id2[k]);
  }

  /** `EqualSubset` compares every masked byte of the stretch. */
  lemma EqualByBytes(start: nat, last: nat, id1: ID, id2: ID)
    requires start <= last < NUM_BITS
    ensures EqualSubset(start, last + 1, id1, id2) <==>
              forall k :: start / 8 <= k <= last / 8 ==> ByteAgrees(start, last, id1, id2, k)
  {
    var (i, j) := (start / 8, last / 8);
    MaskAtEnds(start, last, i);
    MaskAtEnds(start, last, j);
    ByteCompared(start, last, id1, id2, i);
    ByteCompared(start, last, id1, id2, j);
    if i + 1 < j { SlicesEqual(id1, id2, i + 1, j); }
    forall k | i < k < j ensures ByteAgrees(start, last, id1, id2, k) <==> id1[k] == id2[k] {
      ByteCompared(start, last, id1, id2, k);
    }
  }

  /** Within the ID, `EqualSubset` holds exactly if every bit of the stretch agrees. */
  lemma EqualSubsetIsAgreement(start: nat, end: int, id1: ID, id2: ID)
    requires end <= NUM_BITS
    ensures EqualSubset(start, end, id1, id2) <==> (end <= 0 || Agree(start, end, id1, id2))
  {
    if start < end {
      EqualByBytes(start, end - 1, id1, id2);
      AgreeByBytes(start, end - 1, id1, id2);
    }
  }

  // ---------------------------------------------------------------------------
  // The first difference

  /** The IDs differ in bit `i` of the stretch and agree on the bits before it. */
  ghost predicate IsFirst(start: nat, stop: nat, id1: ID, id2: ID, i: int)
    requires stop <= NUM_BITS
  {
    start <= i < stop && Bit(id1, i) != Bit(id2, i) && Agree(start, i, id1, id2)
  }

  /** No byte of the stretch before `k` differs under its mask. */
  ghost predicate AgreeBefore(start: nat, last: nat, id1: ID, id2: ID, k: nat)
    requires last / 8 < 32
  {
    forall j :: start / 8 <= j < k && j <= last / 8 ==> ByteAgrees(start, last, id1, id2, j)
  }

  lemma BitAt(id: ID, k: nat, r: nat)
    requires k < 32 && r < 8
    ensures r + k * 8 < NUM_BITS && Bit(id, r + k * 8) == BitOf(id[k], r)
  {
    assert (r + k * 8) / 8 == k && (r + k * 8) % 8 == r;
  }

  /** Before the lowest difference of byte `k`, nothing differs. */
  lemma SameBefore(start: nat, last: nat, id1: ID, id2: ID, k: nat, r: nat, i: nat)
    requires start <= i < r + k * 8 && last < NUM_BITS && start / 8 <= k <= last / 8 && r + k * 8 <= last
    requires AgreeBefore(start, last, id1, id2, k) && IsLowest(MaskAt(start, last, k), id1[k], id2[k], r)
    ensures Bit(id1, i) == Bit(id2, i)
  {
    MaskAtBits(start, last, i / 8, i % 8);
    if i / 8 < k { assert ByteAgrees(start, last, id1, id2, i / 8); }
  }

  lemma FirstInByte(start: nat, last: nat, id1: ID, id2: ID, k: nat)
    requires start <= last < NUM_BITS && start / 8 <= k <= last / 8 && AgreeBefore(start, last, id1, id2, k)
    requires !Masked(MaskAt(start, last, k), id1[k], id2[k])
    ensures IsFirst(start, last + 1, id1, id2, LowestDifference(MaskAt(start, last, k), id1[k], id2[k]) + k * 8)
  {
    var r := LowestDifference(MaskAt(start, last, k), id1[k], id2[k]);
    LowestDifferenceIs(MaskAt(start, last, k), id1[k], id2[k]);
    MaskAtBits(start, last, k, r);
    BitAt(id1, k, r);
    BitAt(id2, k, r);
    forall i | start <= i < r + k * 8 ensures Bit(id1, i) == Bit(id2, i) {
      SameBefore(start, last, id1, id2, k, r, i);
    }
  }

  lemma FullDifference(x: bv8, y: bv8)
    ensures Masked(0xFF, x, y) <==> x == y
    ensures LowestDifference(0xFF, x, y) == TrailingZeros(x ^ y, 0)
  {
    assert 0xFF & x == x && 0xFF & y == y;
  }

  lemma NoneDiffers(start: nat, last: nat, id1: ID, id2: ID)
    requires start <= last < NUM_BITS && AgreeBefore(start, last, id1, id2, last / 8 + 1)
    ensures Agree(start, last + 1, id1, id2)
  {
    AgreeByBytes(start, last, id1, id2);
  }

  /** `FirstDifferenceSubset`: the least bit of the stretch in which the IDs differ, exactly if
      there is one. */
  method FirstDifferenceSubset(start: nat, end: int, id1: ID, id2: ID) returns (i: int, found: bool)
    ensures !(start < end <= NUM_BITS) ==> i == 0 && !found
    ensures start < end <= NUM_BITS ==> (found <==> !Agree(start, end, id1, id2))
    ensures found ==> IsFirst(start, end, id1, id2, i)
  {
    var stop := end - 1;
    if start > stop || stop < 0 || stop >= NUM_BITS { return 0, false; }
    var startIndex, stopIndex := start / 8, stop / 8;
    var startMask, stopMask := StartMask(start % 8), StopMask(stop % 8);
    MaskAtEnds(start, stop, startIndex);
    MaskAtEnds(start, stop, stopIndex);
    if startIndex == stopIndex {
      i, found := FirstMasked(start, stop, id1, id2, startIndex, startMask & stopMask);
      if !found { NoneDiffers(start, stop, id1, id2); }
      return;
    }
    i, found := FirstMasked(start, stop, id1, id2, startIndex, startMask);
    if found { return; }
    i, found := FirstInterior(start, stop, id1, id2);
    if found { return; }
    i, found := FirstMasked(start, stop, id1, id2, stopIndex, stopMask);
    if !found { NoneDiffers(start, stop, id1, id2); }
  }

  /** A byte whose bits may be masked. */
  method FirstMasked(start: nat, last: nat, id1: ID, id2: ID, k: nat, mask: bv8) returns (i: int, found: bool)
    requires start <= last < NUM_BITS && start / 8 <= k <= last / 8
    requires AgreeBefore(start, last, id1, id2, k) && mask == MaskAt(start, last, k)
    ensures found ==> IsFirst(start, last + 1, id1, id2, i)
    ensures !found ==> i == 0 && AgreeBefore(start, last, id1, id2, k + 1)
  {
    MaskedIsAgreement(mask, id1[k], id2[k]);
    if Masked(mask, id1[k], id2[k]) { return 0, false; }
    FirstInByte(start, last, id1, id2, k);
    return LowestDifference(mask, id1[k], id2[k]) + k * 8, true;
  }

  /** The loop over the bytes in between. */
  method FirstInterior(start: nat, last: nat, id1: ID, id2: ID) returns (i: int, found: bool)
    requires start <= last < NUM_BITS && start / 8 < last / 8 && AgreeBefore(start, last, id1, id2, start / 8 + 1)
    ensures found ==> IsFirst(start, last + 1, id1, id2, i)
    ensures !found ==> AgreeBefore(start, last, id1, id2, last / 8)
  {
    for k := start / 8 + 1 to last / 8
      invariant AgreeBefore(start, last, id1, id2, k)
    {
      FullDifference(id1[k], id2[k]);
      MaskAtEnds(start, last, k);
      MaskedIsAgreement(0xFF, id1[k], id2[k]);
      if id1[k] != id2[k] {
        FirstInByte(start, last, id1, id2, k);
        return TrailingZeros(id1[k] ^ id2[k], 0) + k * 8, true;
      }
    }
    return 0, false;
  }

  /** One function finds a difference exactly when the other denies equality, unless the stretch
      reaches past the end: there both say no. */
  method Complementary(start: nat, end: int, id1: ID, id2: ID) returns (found: bool)
    ensures end <= NUM_BITS || start >= end ==> (found <==> !EqualSubset(start, end, id1, id2))
    ensures start < end && NUM_BITS < end ==> !found && !EqualSubset(start, end, id1, id2)
  {
    var _, different := FirstDifferenceSubset(start, end, id1, id2);
    if end <= NUM_BITS { EqualSubsetIsAgreement(start, end, id1, id2); }
    return different;
  }
}
