/** Bytes, exclusive or, big-endian numbers and concatenation: the vocabulary
    shared by the record layer and the handshake codec. */
module Bytes {

  type byte = x: int | 0 <= x < 256

  /** `Some` or `None`. */
  datatype Option<+T> = None | Some(value: T) {
    predicate IsFailure() { None? }

    function PropagateFailure<U>(): Option<U>
      requires None?
    {
      None
    }

    function Extract(): T
      requires Some?
    {
      value
    }
  }

  /** A check inside a parser. */
  datatype Guard = Pass | Reject {
    predicate IsFailure() { Reject? }

    function PropagateFailure<U>(): Option<U>
      requires Reject?
    {
      None
    }
  }

  function Need(condition: bool): (g: Guard)
  {
    if condition then Pass else Reject
  }

  // ---- Exclusive or -------------------------------------------------------

  function Pow2(k: nat): (r: nat)
    ensures r >= 1
  {
    if k == 0 then 1 else 2 * Pow2(k - 1)
  }

  /** Bitwise exclusive or of the low `k` bits. */
  function XorBits(a: nat, b: nat, k: nat): (r: nat)
    ensures r < Pow2(k)
    decreases k
  {
    if k == 0 then 0
    else 2 * XorBits(a / 2, b / 2, k - 1) + (a % 2 + b % 2) % 2
  }

  lemma XorLowBit(q: nat, a: nat, b: nat)
    ensures var r := 2 * q + (a % 2 + b % 2) % 2;
            r / 2 == q && (r % 2 + b % 2) % 2 == a % 2
  {
  }

  lemma {:induction false} XorBitsInverse(a: nat, b: nat, k: nat)
    requires a < Pow2(k)
    ensures XorBits(XorBits(a, b, k), b, k) == a
  {
    if k > 0 {
      assert a / 2 < Pow2(k - 1);
      XorBitsInverse(a / 2, b / 2, k - 1);
      XorLowBit(XorBits(a / 2, b / 2, k - 1), a, b);
    }
  }

  lemma Pow2Of8()
    ensures Pow2(8) == 256
  {
    assert Pow2(4) == 16;
  }

  function XorByte(a: byte, b: byte): (r: byte)
  {
    Pow2Of8();
    XorBits(a, b, 8)
  }

  lemma XorByteInverse(a: byte, b: byte)
    ensures XorByte(XorByte(a, b), b) == a
  {
    Pow2Of8();
    XorBitsInverse(a, b, 8);
  }

  /** Bit `i` of the binary notation of `n`, counted from the lowest. */
  function Bit(n: nat, i: nat): (r: nat)
  {
    if i == 0 then n % 2 else Bit(n / 2, i - 1)
  }

  lemma {:induction false} XorBitsAt(a: nat, b: nat, k: nat, i: nat)
    requires i < k
    ensures Bit(XorBits(a, b, k), i) == (Bit(a, i) + Bit(b, i)) % 2
  {
    var q := XorBits(a / 2, b / 2, k - 1);
    assert XorBits(a, b, k) == 2 * q + (a % 2 + b % 2) % 2;
    if i > 0 {
      XorBitsAt(a / 2, b / 2, k - 1, i - 1);
      assert XorBits(a, b, k) / 2 == q;
    }
  }

  /** A bit of the result is set exactly if one of the two bits is. */
  lemma XorByteBits(a: byte, b: byte, i: nat)
    requires i < 8
    ensures Bit(XorByte(a, b), i) == (Bit(a, i) + Bit(b, i)) % 2
  {
    XorBitsAt(a, b, 8, i);
  }

  lemma XorZero(a: byte)
    ensures XorByte(a, 0) == a && XorByte(0, a) == a
  {
    Pow2Of8();
    XorBitsZero(a, 8);
  }

  lemma {:induction false} XorBitsZero(a: nat, k: nat)
    requires a < Pow2(k)
    ensures XorBits(a, 0, k) == a && XorBits(0, a, k) == a
  {
    if k > 0 {
      XorBitsZero(a / 2, k - 1);
    }
  }

  /** Position-wise exclusive or of two equally long strings. */
  function XorSeq(a: seq<byte>, b: seq<byte>): (r: seq<byte>)
    requires |a| == |b|
    ensures |r| == |a|
  {
    seq(|a|, i requires 0 <= i < |a| => XorByte(a[i], b[i]))
  }

  lemma XorSeqInverse(a: seq<byte>, b: seq<byte>)
    requires |a| == |b|
    ensures XorSeq(XorSeq(a, b), b) == a
  {
    forall i | 0 <= i < |a| ensures XorSeq(XorSeq(a, b), b)[i] == a[i] {
      XorByteInverse(a[i], b[i]);
    }
  }

  /** `data` combined with the keystream `ks` from position `pos` on. */
  function XorStream(ks: nat -> byte, pos: nat, data: seq<byte>): (r: seq<byte>)
    ensures |r| == |data|
  {
    seq(|data|, i requires 0 <= i < |data| => XorByte(data[i], ks(pos + i)))
  }

  /** Chunking does not matter. */
  lemma XorStreamSplit(ks: nat -> byte, pos: nat, a: seq<byte>, b: seq<byte>)
    ensures XorStream(ks, pos, a + b) == XorStream(ks, pos, a) + XorStream(ks, pos + |a|, b)
  {
    hide XorByte;
    forall i | |a| <= i < |a + b|
      ensures XorStream(ks, pos, a + b)[i] == XorStream(ks, pos + |a|, b)[i - |a|]
    {
      assert pos + |a| + (i - |a|) == pos + i;
    }
  }

  /** Applying a keystream twice at one position gives the data back. */
  lemma XorStreamInverse(ks: nat -> byte, pos: nat, data: seq<byte>)
    ensures XorStream(ks, pos, XorStream(ks, pos, data)) == data
  {
    hide XorByte;
    forall i | 0 <= i < |data| ensures XorStream(ks, pos, XorStream(ks, pos, data))[i] == data[i] {
      XorByteInverse(data[i], ks(pos + i));
    }
  }

  // ---- Big-endian numbers -------------------------------------------------

  function Pow256(k: nat): (r: nat)
    ensures r >= 1
  {
    if k == 0 then 1 else 256 * Pow256(k - 1)
  }

  /** The `k` low bytes of `n`, most significant first. */
  function BigEndian(n: nat, k: nat): (r: seq<byte>)
    ensures |r| == k
    decreases k
  {
    if k == 0 then [] else BigEndian(n / 256, k - 1) + [n % 256]
  }

  function FromBigEndian(s: seq<byte>): (n: nat)
    ensures n < Pow256(|s|)
    ensures s == [] ==> n == 0
  {
    if s == [] then 0 else FromBigEndian(s[..|s| - 1]) * 256 + s[|s| - 1]
  }

  lemma DigitSplit(high: nat, low: byte)
    ensures (high * 256 + low) / 256 == high && (high * 256 + low) % 256 == low
  {
  }

  lemma DivBelow(n: nat, p: nat)
    requires n < 256 * p
    ensures n / 256 < p && n / 256 * 256 + n % 256 == n
  {
  }

  lemma {:induction false} BigEndianDecodes(n: nat, k: nat)
    requires n < Pow256(k)
    ensures FromBigEndian(BigEndian(n, k)) == n
  {
    if k > 0 {
      var high := BigEndian(n / 256, k - 1);
      assert BigEndian(n, k)[..k - 1] == high;
      DivBelow(n, Pow256(k - 1));
      BigEndianDecodes(n / 256, k - 1);
    }
  }

  lemma {:induction false} BigEndianEncodes(s: seq<byte>)
    ensures BigEndian(FromBigEndian(s), |s|) == s
  {
    if s != [] {
      var high, low := FromBigEndian(s[..|s| - 1]), s[|s| - 1];
      DigitSplit(high, low);
      BigEndianEncodes(s[..|s| - 1]);
      assert s == s[..|s| - 1] + [low];
    }
  }

  /** A fixed-width big-endian encoding determines the number. */
  lemma BigEndianInjective(m: nat, n: nat, k: nat)
    requires m < Pow256(k) && n < Pow256(k)
    requires BigEndian(m, k) == BigEndian(n, k)
    ensures m == n
  {
    BigEndianDecodes(m, k);
    BigEndianDecodes(n, k);
  }

  lemma Scale(x: nat, p: nat)
    ensures x * p * 256 == x * (256 * p)
  {
  }

  lemma Horner(x: nat, p: nat, y: nat, low: byte)
    ensures (x * p + y) * 256 + low == x * (256 * p) + (y * 256 + low)
  {
    Scale(x, p);
  }

  lemma {:induction false} FromBigEndianConcat(a: seq<byte>, b: seq<byte>)
    ensures FromBigEndian(a + b) == FromBigEndian(a) * Pow256(|b|) + FromBigEndian(b)
  {
    if b == [] {
      assert a + b == a;
    } else {
      var front := b[..|b| - 1];
      assert (a + b)[..|a + b| - 1] == a + front;
      FromBigEndianConcat(a, front);
      Horner(FromBigEndian(a), Pow256(|front|), FromBigEndian(front), b[|b| - 1]);
    }
  }

  /** Quotient and remainder are the only ones. */
  lemma DivModUnique(x: int, q: int, r: int, m: int)
    requires m > 0 && 0 <= r < m && x == q * m + r
    ensures x / m == q && x % m == r
  {
    var e := x / m - q;
    assert e * m == r - x % m;
    if e >= 1 {
    } else if e <= -1 {
    }
  }

  lemma Pow256Of8()
    ensures Pow256(4) == 0x1_0000_0000
    ensures Pow256(8) == 0x1_0000_0000_0000_0000
  {
    assert Pow256(2) == 0x1_0000;
    assert Pow256(4) == 0x1_0000_0000;
    assert Pow256(6) == 0x1_0000_0000_0000;
  }

  // ---- Concatenation ------------------------------------------------------

  lemma Assoc<T>(a: seq<T>, b: seq<T>, c: seq<T>)
    ensures a + b + c == a + (b + c)
  {
  }

  function Flatten<T>(ss: seq<seq<T>>): (r: seq<T>)
  {
    if ss == [] then [] else ss[0] + Flatten(ss[1..])
  }

  lemma {:induction false} FlattenConcat<T>(a: seq<seq<T>>, b: seq<seq<T>>)
    ensures Flatten(a + b) == Flatten(a) + Flatten(b)
  {
    if a == [] {
      assert a + b == b;
    } else {
      assert (a + b)[1..] == a[1..] + b;
      FlattenConcat(a[1..], b);
    }
  }

  lemma FlattenSnoc<T>(a: seq<seq<T>>, x: seq<T>)
    ensures Flatten(a + [x]) == Flatten(a) + x
  {
    FlattenConcat(a, [x]);
    assert Flatten([x]) == x + Flatten<T>([]);
  }
}
