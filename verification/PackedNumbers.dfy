/** 64-bit numbers as eight bytes, most significant first (database/helpers.go). */
module PackedNumbers {
  import opened Common

  function Power256(k: nat): (r: nat)
    ensures r > 0
  {
    if k == 0 then 1 else 256 * Power256(k - 1)
  }

  /** The `k` lowest bytes of a number. */
  function PackBytes(k: nat, x: nat): (b: Bytes)
    ensures |b| == k
  {
    if k == 0 then [] else PackBytes(k - 1, x / 256) + [x % 256]
  }

  function ParseBytes(b: Bytes): nat {
    if b == [] then 0 else 256 * ParseBytes(b[..|b| - 1]) + b[|b| - 1]
  }

  function PackUInt64(x: nat): Bytes { PackBytes(8, x) }

  function ParseUInt64(b: Bytes): Option<nat> {
    if |b| != 8 then None else Some(ParseBytes(b))
  }

  lemma {:induction false} ParsePackBytes(k: nat, x: nat)
    requires x < Power256(k)
    ensures ParseBytes(PackBytes(k, x)) == x
  {
    if k > 0 {
      ParsePackBytes(k - 1, x / 256);
      assert PackBytes(k, x)[..k - 1] == PackBytes(k - 1, x / 256);
    }
  }

  lemma {:induction false} PackParseBytes(b: Bytes)
    ensures ParseBytes(b) < Power256(|b|) && PackBytes(|b|, ParseBytes(b)) == b
  {
    if b != [] {
      var (init, last) := (b[..|b| - 1], b[|b| - 1]);
      PackParseBytes(init);
      assert (256 * ParseBytes(init) + last) / 256 == ParseBytes(init);
      assert b == init + [last];
    }
  }

  lemma EightBytes()
    ensures Power256(8) == TWO_64
  {
    assert Power256(4) == 0x1_0000_0000;
    assert Power256(6) == 256 * Power256(5) == 256 * (256 * Power256(4));
    assert Power256(8) == 256 * Power256(7) == 256 * (256 * Power256(6));
  }

  /** Packing then parsing gives the number back, and parsing then packing the bytes. */
  lemma RoundTrip(x: nat)
    requires x < TWO_64
    ensures ParseUInt64(PackUInt64(x)) == Some(x)
  {
    EightBytes();
    ParsePackBytes(8, x);
  }

  lemma RoundTripBytes(b: Bytes)
    requires ParseUInt64(b).Some?
    ensures ParseUInt64(b).value < TWO_64 && PackUInt64(ParseUInt64(b).value) == b
  {
    EightBytes();
    PackParseBytes(b);
  }

  lemma PackIsInjective(x: nat, y: nat)
    requires x < TWO_64 && y < TWO_64 && PackUInt64(x) == PackUInt64(y)
    ensures x == y
  {
    RoundTrip(x);
    RoundTrip(y);
  }

  lemma {:induction false} LessAtTheEnd(a: Bytes, b: Bytes, x: byte, y: byte)
    requires |a| == |b|
    ensures BytesLess(a + [x], b + [y]) <==> BytesLess(a, b) || (a == b && x < y)
  {
    if a != [] {
      LessAtTheEnd(a[1..], b[1..], x, y);
      assert (a + [x])[1..] == a[1..] + [x] && (b + [y])[1..] == b[1..] + [y];
      assert a == [a[0]] + a[1..] && b == [b[0]] + b[1..];
    }
  }

  lemma HighBytesDecide(x: nat, y: nat)
    ensures x < y <==> x / 256 < y / 256 || (x / 256 == y / 256 && x % 256 < y % 256)
  {}

  lemma HighBytesFit(x: nat, bound: nat)
    requires x < 256 * bound
    ensures x / 256 < bound
  {}

  lemma {:induction false} PackBytesInOrder(k: nat, x: nat, y: nat)
    requires x < Power256(k) && y < Power256(k)
    ensures BytesLess(PackBytes(k, x), PackBytes(k, y)) <==> x < y
  {
    if k > 0 {
      HighBytesFit(x, Power256(k - 1));
      HighBytesFit(y, Power256(k - 1));
      PackBytesInOrder(k - 1, x / 256, y / 256);
      ParsePackBytes(k - 1, x / 256);
      ParsePackBytes(k - 1, y / 256);
      LessByHighBytes(k - 1, x, y);
    }
  }

  lemma LessByHighBytes(k: nat, x: nat, y: nat)
    requires BytesLess(PackBytes(k, x / 256), PackBytes(k, y / 256)) <==> x / 256 < y / 256
    requires PackBytes(k, x / 256) == PackBytes(k, y / 256) ==> x / 256 == y / 256
    ensures BytesLess(PackBytes(k + 1, x), PackBytes(k + 1, y)) <==> x < y
  {
    HighBytesDecide(x, y);
    LessAtTheEnd(PackBytes(k, x / 256), PackBytes(k, y / 256), x % 256, y % 256);
  }

  /** The bytes are ordered as the numbers are: the most significant one comes first. */
  lemma PackedInOrder(x: nat, y: nat)
    requires x < TWO_64 && y < TWO_64
    ensures BytesLess(PackUInt64(x), PackUInt64(y)) <==> x < y
  {
    EightBytes();
    PackBytesInOrder(8, x, y);
  }
}
