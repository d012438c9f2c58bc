/** Branch-free removal of CBC padding, and the plain statement it refines
    (section 6.2.3.2 of RFC 5246). */
module CbcPadding {
  import opened Bytes

  const UINT64: nat := 0x1_0000_0000_0000_0000
  const UINT32: nat := 0x1_0000_0000
  const BIT31: nat := 0x8000_0000
  const MAX_INT: nat := 0x7FFF_FFFF_FFFF_FFFF

  /** The last byte says how many more bytes, all equal to it, precede it. */
  predicate WellPadded(payload: seq<byte>)
    requires payload != []
  {
    var pad := payload[|payload| - 1];
    && pad + 1 <= |payload|
    && forall j :: |payload| - 1 - pad <= j < |payload| ==> payload[j] == pad
  }

  /** Subtraction of `uint` values. */
  function USub(a: nat, b: nat): (t: nat)
    requires a < UINT64 && b < UINT64
    ensures t < UINT64
  {
    if a >= b then a - b else UINT64 + a - b
  }

  /** `byte(int32(^t) >> 31)`: the complement of bit 31, broadcast. */
  function NotSignMask(t: nat): (m: bv8)
    requires t < UINT64
  {
    if (UINT64 - 1 - t) % UINT32 >= BIT31 then 0xff else 0x00
  }

  lemma NotSignMaskOfDifference(a: nat, b: nat)
    requires a <= MAX_INT && b <= 255
    ensures NotSignMask(USub(a, b)) == 0xff <==> b <= a && (a - b) / BIT31 % 2 == 0
  {
    var t := USub(a, b);
    Complement32(t);
    if b > a {
      assert t == UINT64 - (b - a) && t % UINT32 == UINT32 - (b - a);
    }
  }

  lemma Complement32(t: nat)
    requires t < UINT64
    ensures (UINT64 - 1 - t) % UINT32 == UINT32 - 1 - t % UINT32
    ensures t % UINT32 < BIT31 <==> t / BIT31 % 2 == 0
  {
    var q, r := t / UINT32, t % UINT32;
    assert UINT64 - 1 - t == (UINT32 - 1 - q) * UINT32 + (UINT32 - 1 - r);
    assert t / BIT31 == 2 * q + r / BIT31;
  }

  /** `good &^ (mask&pad ^ mask&b)`. */
  function ClearDifference(good: bv8, mask: bv8, pad: bv8, b: bv8): (r: bv8)
  {
    good & !((mask & pad) ^ (mask & b))
  }

  lemma ClearDifferenceKeepsAllOnes(good: bv8, mask: bv8, pad: bv8, b: bv8)
    requires mask == 0 || mask == 0xff
    ensures ClearDifference(good, mask, pad, b) == 0xff <==> good == 0xff && (mask == 0 || pad == b)
  {
  }

  /** The three folding steps and the final arithmetic shift. */
  function FoldBits(good: bv8): (r: bv8)
  {
    var g4 := good & (good << 4);
    var g2 := g4 & (g4 << 2);
    var g1 := g2 & (g2 << 1);
    if g1 & 0x80 != 0 then 0xff else 0x00
  }

  /** Folding keeps all-ones and turns everything else into zero. */
  lemma FoldBitsIsAllOnes(good: bv8)
    ensures FoldBits(good) == if good == 0xff then 0xff else 0x00
  {
  }

  /** The part of `r` below the bit of weight `w`. */
  function Below(r: int, w: int): (low: int)
  {
    if r >= w then r - w else r
  }

  /** The bits of a byte, from the most significant down. */
  function Bits(b: byte): (r: bv8)
  {
    var r6 := Below(b, 128);
    var r5 := Below(r6, 64);
    var r4 := Below(r5, 32);
    var r3 := Below(r4, 16);
    var r2 := Below(r3, 8);
    var r1 := Below(r2, 4);
    var r0 := Below(r1, 2);
    PackBits(b >= 128, r6 >= 64, r5 >= 32, r4 >= 16, r3 >= 8, r2 >= 4, r1 >= 2, r0 >= 1)
  }

  function PackBits(b7: bool, b6: bool, b5: bool, b4: bool, b3: bool, b2: bool, b1: bool, b0: bool): (r: bv8)
  {
    (if b7 then 0x80 else 0) | (if b6 then 0x40 else 0) | (if b5 then 0x20 else 0) | (if b4 then 0x10 else 0)
    | (if b3 then 0x08 else 0) | (if b2 then 0x04 else 0) | (if b1 then 0x02 else 0) | (if b0 then 0x01 else 0)
  }

  lemma PackBitsInjective(a7: bool, a6: bool, a5: bool, a4: bool, a3: bool, a2: bool, a1: bool, a0: bool,
                          b7: bool, b6: bool, b5: bool, b4: bool, b3: bool, b2: bool, b1: bool, b0: bool)
    requires PackBits(a7, a6, a5, a4, a3, a2, a1, a0) == PackBits(b7, b6, b5, b4, b3, b2, b1, b0)
    ensures a7 == b7 && a6 == b6 && a5 == b5 && a4 == b4 && a3 == b3 && a2 == b2 && a1 == b1 && a0 == b0
  {
  }

  lemma SameBit(x: int, y: int, w: int)
    requires Below(x, w) == Below(y, w) && (x >= w <==> y >= w)
    ensures x == y
  {
  }

  lemma BitsInjective(a: byte, b: byte)
    ensures Bits(a) == Bits(b) <==> a == b
  {
    hide PackBits;
    if Bits(a) == Bits(b) {
      var a6 := Below(a, 128);  var b6 := Below(b, 128);
      var a5 := Below(a6, 64);  var b5 := Below(b6, 64);
      var a4 := Below(a5, 32);  var b4 := Below(b5, 32);
      var a3 := Below(a4, 16);  var b3 := Below(b4, 16);
      var a2 := Below(a3, 8);   var b2 := Below(b3, 8);
      var a1 := Below(a2, 4);   var b1 := Below(b2, 4);
      var a0 := Below(a1, 2);   var b0 := Below(b1, 2);
      PackBitsInjective(a >= 128, a6 >= 64, a5 >= 32, a4 >= 16, a3 >= 8, a2 >= 4, a1 >= 2, a0 >= 1,
                        b >= 128, b6 >= 64, b5 >= 32, b4 >= 16, b3 >= 8, b2 >= 4, b1 >= 2, b0 >= 1);
      hide Below;
      SameBit(a1, b1, 2);
      SameBit(a2, b2, 4);
      SameBit(a3, b3, 8);
      SameBit(a4, b4, 16);
      SameBit(a5, b5, 32);
      SameBit(a6, b6, 64);
      SameBit(a, b, 128);
    }
  }

  /** The `k` bytes before the last that lie in the padding all equal `pad`. */
  predicate TailEquals(payload: seq<byte>, pad: byte, k: nat)
    requires k <= |payload|
  {
    forall j :: |payload| - k <= j < |payload| && |payload| - 1 - pad <= j ==> payload[j] == pad
  }

  /** The mask is all ones exactly for well-formed padding, up to the bit-31
      test on the distance: that bit is clear in every payload of at most 2^31
      bytes, and a longer one is wrongly rejected when it is set. */
  method ExtractCBCPadding(payload: seq<byte>) returns (toRemove: nat, good: bv8)
    requires |payload| <= MAX_INT
    ensures payload == [] ==> toRemove == 0 && good == 0
    ensures payload != [] ==> toRemove - 1 == payload[|payload| - 1] && (good == 0xff || good == 0)
    ensures payload != [] ==>
              (good == 0xff <==> WellPadded(payload) && (|payload| - toRemove) / BIT31 % 2 == 0)
    ensures payload != [] && |payload| <= BIT31 ==> (good == 0xff <==> WellPadded(payload))
  {
    if |payload| < 1 {
      return 0, 0;
    }
    hide NotSignMask, ClearDifference, FoldBits, Bits;
    var last := |payload| - 1;
    var pad := payload[last];
    good := NotSignMask(USub(last, pad));
    NotSignMaskOfDifference(last, pad);
    ghost var inRange := good == 0xff;
    var toCheck := if 256 < |payload| then 256 else |payload|;
    for i := 0 to toCheck
      invariant good == 0xff <==> inRange && TailEquals(payload, pad, i)
    {
      good := CheckByte(good, pad, i, payload[last - i]);
    }
    FoldBitsIsAllOnes(good);
    good := FoldBits(good);
    toRemove := pad as nat + 1;
  }

  /** Beyond 2^31 bytes well-formed padding can be refused: 2^31 + 1 zeros. */
  method WideRefused() returns (ghost payload: seq<byte>, toRemove: nat, good: bv8)
    ensures |payload| == BIT31 + 1 && WellPadded(payload) && toRemove == 1 && good == 0
  {
    var zeros: seq<byte> := seq(BIT31 + 1, _ => 0);
    payload := zeros;
    toRemove, good := ExtractCBCPadding(zeros);
  }

  /** One round of the scan: clears a bit of `good` iff byte `i` from the end
      belongs to the padding and differs from `pad`. */
  method CheckByte(good: bv8, pad: byte, i: nat, b: byte) returns (r: bv8)
    requires i < 256
    ensures r == 0xff <==> good == 0xff && (i <= pad ==> b == pad)
  {
    hide NotSignMask, ClearDifference, Bits;
    var mask := NotSignMask(USub(pad, i));
    NotSignMaskOfDifference(pad, i);
    MaskIsBinary(USub(pad, i));
    ClearDifferenceKeepsAllOnes(good, mask, Bits(pad), Bits(b));
    BitsInjective(pad, b);
    r := ClearDifference(good, mask, Bits(pad), Bits(b));
  }

  lemma MaskIsBinary(t: nat)
    requires t < UINT64
    ensures NotSignMask(t) == 0 || NotSignMask(t) == 0xff
  {
  }
}
