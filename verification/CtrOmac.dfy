/** The Kuznyechik and Magma CTR-OMAC protectors of RFC 9367. */
module CtrOmac {
  import opened Bytes
  import opened MacData

  /** One direction. `omac(seq, message)` and `keystream(seq, counter)` stand for
      the primitives under the keys that TLSTREE derives for record `seq`. */
  datatype Suite = Suite(
    blockSize: nat,
    tagSize: nat,
    origIV: seq<byte>,
    omac: (nat, seq<byte>) -> seq<byte>,
    keystream: (nat, seq<byte>) -> (nat -> byte))
  {
    /** Magma has a 4-byte and Kuznyechik an 8-byte initial value, half a block. */
    ghost predicate Sound()
    {
      && |origIV| <= 8 && |origIV| <= blockSize
      && (forall n, m :: |omac(n, m)| == tagSize)
    }
  }

  // ---- The counter of a record --------------------------------------------

  function CounterValue(s: Suite, seqNum: Seq): (v: nat)
    ensures v < Pow256(|s.origIV|)
  {
    ModBound(FromBigEndian(s.origIV) + seqNum, Pow256(|s.origIV|));
    (FromBigEndian(s.origIV) + seqNum) % Pow256(|s.origIV|)
  }

  lemma ModBound(x: nat, m: nat)
    requires m > 0
    ensures 0 <= x % m < m
  {
  }

  /** The initial value plus the sequence number, then zeros. */
  function Counter(s: Suite, seqNum: Seq): (r: seq<byte>)
    requires |s.origIV| <= s.blockSize
  {
    BigEndian(CounterValue(s, seqNum), |s.origIV|) + seq(s.blockSize - |s.origIV|, _ => 0)
  }

  lemma FromBigEndianCons(x: byte, s: seq<byte>)
    ensures FromBigEndian([x] + s) == x * Pow256(|s|) + FromBigEndian(s)
  {
    assert FromBigEndian([x]) == x by { assert [x][..0] == []; }
    FromBigEndianConcat([x], s);
  }

  lemma {:induction false} BigEndianSuffix(n: nat, m: nat, k: nat)
    requires k <= m
    ensures BigEndian(n, m)[m - k..] == BigEndian(n, k)
  {
    if k > 0 {
      BigEndianSuffix(n / 256, m - 1, k - 1);
      assert BigEndian(n, m)[m - k..] == BigEndian(n / 256, m - 1)[m - k..] + [n % 256];
    }
  }

  /** Decoding the low `k` bytes leaves out a multiple of 256^k. */
  lemma {:induction false} LowBytes(n: nat, k: nat) returns (q: nat)
    ensures n == FromBigEndian(BigEndian(n, k)) + q * Pow256(k)
  {
    if k == 0 {
      q := n;
    } else {
      q := LowBytes(n / 256, k - 1);
      var high := BigEndian(n / 256, k - 1);
      assert BigEndian(n, k)[..k - 1] == high;
      Scale(q, Pow256(k - 1));
    }
  }

  /** The carry loop, from the last byte of the initial value to the first. */
  method AdjustIV(s: Suite, seqNum: Seq) returns (r: seq<byte>)
    requires |s.origIV| <= 8 && |s.origIV| <= s.blockSize
    ensures r == Counter(s, seqNum)
  {
    hide FromBigEndian, BigEndian, Pow256, CarryInv;
    var k := |s.origIV|;
    var out: seq<byte> := s.origIV + seq(s.blockSize - k, _ => 0);
    var seqBytes := BigEndian(seqNum, 8);
    BigEndianSuffix(seqNum, 8, k);
    var carry := 0;
    var j := k;
    CarryStart(s, seqNum);
    while j > 0
      invariant 0 <= j <= k && |out| == s.blockSize && CarryInv(s, seqNum, out, j, carry)
    {
      j := j - 1;
      assert seqBytes[8 - k + j] == BigEndian(seqNum, k)[j];
      CarryByte(s, seqNum, out, j, carry);
      var v := out[j] as int + seqBytes[8 - k + j] as int + carry;
      carry := v / 256;
      out := out[j := v % 256];
    }
    CarryEnd(s, seqNum, out, carry);
    r := out;
  }

  /** The bytes from `j` on hold the sum of their low parts, up to the carry. */
  ghost predicate CarryInv(s: Suite, seqNum: Seq, out: seq<byte>, j: nat, carry: int)
  {
    var k, low := |s.origIV|, BigEndian(seqNum, |s.origIV|);
    && j <= k <= s.blockSize == |out| && 0 <= carry <= 1
    && out[..j] == s.origIV[..j] && out[k..] == seq(s.blockSize - k, _ => 0)
    && FromBigEndian(out[j..k]) + carry * Pow256(k - j) == FromBigEndian(s.origIV[j..]) + FromBigEndian(low[j..])
  }

  lemma CarryStart(s: Suite, seqNum: Seq)
    requires |s.origIV| <= s.blockSize
    ensures CarryInv(s, seqNum, s.origIV + seq(s.blockSize - |s.origIV|, _ => 0), |s.origIV|, 0)
  {
    hide BigEndian, Pow256;
    var k, low := |s.origIV|, BigEndian(seqNum, |s.origIV|);
    var out := s.origIV + seq(s.blockSize - k, _ => 0);
    assert out[..k] == s.origIV[..k] && out[k..k] == s.origIV[k..] == low[k..] == [];
  }

  lemma CarryByte(s: Suite, seqNum: Seq, out: seq<byte>, j: nat, carry: int)
    requires j < |s.origIV| && CarryInv(s, seqNum, out, j + 1, carry)
    ensures |out| == s.blockSize >= |s.origIV| && 0 <= carry <= 1
    ensures var v := out[j] as int + BigEndian(seqNum, |s.origIV|)[j] as int + carry;
            CarryInv(s, seqNum, out[j := v % 256], j, v / 256)
  {
    hide FromBigEndian, BigEndian, Pow256;
    var k, low := |s.origIV|, BigEndian(seqNum, |s.origIV|);
    assert out[j] == out[..j + 1][j] == s.origIV[j];
    var v := out[j] as int + low[j] as int + carry;
    var out' := out[j := v % 256];
    assert out'[j..k] == [v % 256] + out[j + 1..k];
    CarryStep(s.origIV[j], low[j], s.origIV[j + 1..], low[j + 1..], out[j + 1..k], carry, v % 256, v / 256);
    assert s.origIV[j..] == [s.origIV[j]] + s.origIV[j + 1..];
    assert low[j..] == [low[j]] + low[j + 1..];
    assert out'[..j] == out[..j + 1][..j] == s.origIV[..j];
  }

  lemma CarryEnd(s: Suite, seqNum: Seq, out: seq<byte>, carry: int)
    requires CarryInv(s, seqNum, out, 0, carry)
    ensures |s.origIV| <= s.blockSize && out == Counter(s, seqNum)
  {
    hide FromBigEndian, BigEndian, Pow256, CounterValue;
    var k := |s.origIV|;
    assert out[0..k] == out[..k] && s.origIV[0..] == s.origIV && BigEndian(seqNum, k)[0..] == BigEndian(seqNum, k);
    CarryResult(s, seqNum, out[..k], carry);
    assert out == out[..k] + out[k..];
  }

  lemma CarryStep(a: byte, b: byte, as': seq<byte>, bs: seq<byte>, sum: seq<byte>, carry: nat, r: byte, q: nat)
    requires |as'| == |bs| == |sum| && r + 256 * q == a + b + carry
    requires FromBigEndian(sum) + carry * Pow256(|sum|) == FromBigEndian(as') + FromBigEndian(bs)
    ensures FromBigEndian([r] + sum) + q * Pow256(|sum| + 1) == FromBigEndian([a] + as') + FromBigEndian([b] + bs)
  {
    hide FromBigEndian;
    FromBigEndianCons(r, sum);
    FromBigEndianCons(a, as');
    FromBigEndianCons(b, bs);
    CarryArithmetic(a, b, carry, r, q, Pow256(|sum|));
  }

  lemma CarryArithmetic(a: nat, b: nat, c: nat, r: nat, q: nat, p: nat)
    requires r + 256 * q == a + b + c
    ensures r * p + q * (256 * p) == a * p + b * p + c * p
  {
    SplitProduct(r, q, p);
    SplitSum(a, b, c, p);
  }

  lemma SplitProduct(r: nat, q: nat, p: nat)
    ensures r * p + q * (256 * p) == (r + q * 256) * p
  {
  }

  lemma SplitSum(a: nat, b: nat, c: nat, p: nat)
    ensures (a + b + c) * p == a * p + b * p + c * p
  {
  }

  lemma CarryResult(s: Suite, seqNum: Seq, out: seq<byte>, carry: nat)
    requires |out| == |s.origIV|
    requires FromBigEndian(out) + carry * Pow256(|out|)
          == FromBigEndian(s.origIV) + FromBigEndian(BigEndian(seqNum, |out|))
    ensures out == BigEndian(CounterValue(s, seqNum), |out|)
  {
    hide FromBigEndian, BigEndian;
    var q := LowBytes(seqNum, |out|);
    var m := Pow256(|out|);
    assert (q + carry) * m == q * m + carry * m;
    DivModUnique(FromBigEndian(s.origIV) + seqNum, q + carry, FromBigEndian(out), m);
    BigEndianEncodes(out);
  }

  /** Two records share a counter exactly when their numbers are congruent
      modulo 256^k, so no two within a window of that size do. */
  lemma CounterRepeats(s: Suite, s1: Seq, s2: Seq)
    requires |s.origIV| <= s.blockSize
    ensures Counter(s, s1) == Counter(s, s2) <==> s1 % Pow256(|s.origIV|) == s2 % Pow256(|s.origIV|)
  {
    var k, m, iv := |s.origIV|, Pow256(|s.origIV|), FromBigEndian(s.origIV);
    if Counter(s, s1) == Counter(s, s2) {
      assert Counter(s, s1)[..k] == BigEndian(CounterValue(s, s1), k);
      assert Counter(s, s2)[..k] == BigEndian(CounterValue(s, s2), k);
      BigEndianInjective(CounterValue(s, s1), CounterValue(s, s2), k);
    }
    CongruentShift(iv, s1, s2, m);
  }

  lemma CounterUniqueInWindow(s: Suite, s1: Seq, s2: Seq)
    requires |s.origIV| <= s.blockSize
    requires s1 < s2 < s1 + Pow256(|s.origIV|)
    ensures Counter(s, s1) != Counter(s, s2)
  {
    CounterRepeats(s, s1, s2);
    DistinctRemainders(s1, s2, Pow256(|s.origIV|));
  }

  lemma DistinctRemainders(x: nat, y: nat, m: nat)
    requires x < y < x + m
    ensures x % m != y % m
  {
    var e := y / m - x / m;
    assert y - x == e * m + (y % m - x % m);
    if e >= 1 {
    } else {
    }
  }

  lemma CongruentShift(c: nat, x: nat, y: nat, m: nat)
    requires m > 0
    ensures (c + x) % m == (c + y) % m <==> x % m == y % m
  {
    if x % m == y % m {
      SameRemainder(x, y, c, m);
    }
    if (c + x) % m == (c + y) % m {
      // undo the shift by adding what completes c to a multiple of m
      var d := Complement(c, m);
      SameRemainder(c + x, c + y, d, m);
      UndoShift(c, d, x, m);
      UndoShift(c, d, y, m);
    }
  }

  lemma UndoShift(c: nat, d: nat, x: nat, m: nat)
    requires m > 0 && c + d == c * m
    ensures (c + x + d) % m == x % m
  {
    DropMultiple(x, c, m);
  }

  lemma Complement(c: nat, m: nat) returns (d: nat)
    requires m > 0
    ensures c + d == c * m
  {
    assert c * m >= c;
    d := c * m - c;
  }

  lemma SameRemainder(x: nat, y: nat, c: nat, m: nat)
    requires m > 0 && x % m == y % m
    ensures (x + c) % m == (y + c) % m
  {
    var r := x % m + c;
    assert x == x / m * m + x % m && y == y / m * m + y % m;
    DropMultiple(r, x / m, m);
    DropMultiple(r, y / m, m);
  }

  lemma DropMultiple(x: nat, q: nat, m: nat)
    requires m > 0
    ensures (x + q * m) % m == x % m
  {
    assert x == x / m * m + x % m;
    assert x + q * m == x % m + (x / m + q) * m;
    DivModUnique(x + q * m, x / m + q, x % m, m);
  }

  // ---- Seal and open ------------------------------------------------------

  /** The MAC header is rebuilt with the plaintext length. */
  function MacInput(seqNum: Seq, hdr: Header, plain: seq<byte>): (r: seq<byte>)
  {
    AdditionalData(seqNum, hdr, |plain|) + plain
  }

  function Seal(s: Suite, seqNum: Seq, hdr: Header, plain: seq<byte>): (r: seq<byte>)
    requires |s.origIV| <= s.blockSize
  {
    XorStream(s.keystream(seqNum, Counter(s, seqNum)), 0, plain + s.omac(seqNum, MacInput(seqNum, hdr, plain)))
  }

  function Open(s: Suite, seqNum: Seq, hdr: Header, fragment: seq<byte>): (r: Option<seq<byte>>)
    requires |s.origIV| <= s.blockSize
  {
    if |fragment| < s.tagSize then None
    else
      var body := XorStream(s.keystream(seqNum, Counter(s, seqNum)), 0, fragment);
      var plain, tag := body[..|body| - s.tagSize], body[|body| - s.tagSize..];
      if tag == s.omac(seqNum, MacInput(seqNum, hdr, plain)) then Some(plain) else None
  }

  /** Under the record's keystream stand the plaintext and the OMAC of header and
      plaintext; the keystream's counter is the initial value plus the number. */
  lemma SealedParts(s: Suite, seqNum: Seq, hdr: Header, plain: seq<byte>)
    returns (ad: seq<byte>, counter: seq<byte>)
    requires s.Sound()
    ensures IsHeader(ad, seqNum, hdr, |plain|)
    ensures var k := |s.origIV|;
            && |counter| == s.blockSize && (forall j :: k <= j < |counter| ==> counter[j] == 0)
            && FromBigEndian(counter[..k]) == (FromBigEndian(s.origIV) + seqNum) % Pow256(k)
    ensures XorStream(s.keystream(seqNum, counter), 0, Seal(s, seqNum, hdr, plain))
         == plain + s.omac(seqNum, ad + plain)
  {
    hide AdditionalData, IsHeader, XorStream, BigEndian, FromBigEndian, Pow256, CounterValue;
    ad, counter := AdditionalData(seqNum, hdr, |plain|), Counter(s, seqNum);
    HeaderIff(ad, seqNum, hdr, |plain|);
    assert counter[..|s.origIV|] == BigEndian(CounterValue(s, seqNum), |s.origIV|);
    BigEndianDecodes(CounterValue(s, seqNum), |s.origIV|);
    CounterIs(s, seqNum);
    XorStreamInverse(s.keystream(seqNum, counter), 0, plain + s.omac(seqNum, ad + plain));
  }

  lemma CounterIs(s: Suite, seqNum: Seq)
    ensures CounterValue(s, seqNum) == (FromBigEndian(s.origIV) + seqNum) % Pow256(|s.origIV|)
  {
  }

  lemma OpenSealed(s: Suite, seqNum: Seq, hdr: Header, hdr': Header, plain: seq<byte>)
    requires s.Sound() && hdr[..3] == hdr'[..3]
    ensures Open(s, seqNum, hdr', Seal(s, seqNum, hdr, plain)) == Some(plain)
  {
    hide Counter, XorStream;
    var tag := s.omac(seqNum, MacInput(seqNum, hdr, plain));
    XorStreamInverse(s.keystream(seqNum, Counter(s, seqNum)), 0, plain + tag);
    assert (plain + tag)[..|plain|] == plain && (plain + tag)[|plain|..] == tag;
  }

  /** A fragment that opens is the sealed form of what it opens to. */
  lemma OpenedIsSealed(s: Suite, seqNum: Seq, hdr: Header, fragment: seq<byte>)
    requires s.Sound() && Open(s, seqNum, hdr, fragment).Some?
    ensures Seal(s, seqNum, hdr, Open(s, seqNum, hdr, fragment).value) == fragment
  {
    hide Counter, XorStream;
    var ks := s.keystream(seqNum, Counter(s, seqNum));
    var body := XorStream(ks, 0, fragment);
    XorStreamInverse(ks, 0, fragment);
    assert body == body[..|body| - s.tagSize] + body[|body| - s.tagSize..];
  }
}
