/** The 13 bytes that every protector authenticates in front of a fragment
    (section 6.2.3.1 of RFC 5246). */
module MacData {
  import opened Bytes

  const MAX_SEQ: nat := 0xFFFF_FFFF_FFFF_FFFF

  type Seq = n: nat | n <= MAX_SEQ
  type Header = h: seq<byte> | |h| == 5 witness [0, 0, 0, 0, 0]

  /** Sequence number, type, version and the low 16 bits of the length. */
  function AdditionalData(seqNum: Seq, hdr: Header, plainLen: nat): (ad: seq<byte>)
    ensures |ad| == 13
  {
    BigEndian(seqNum, 8) + hdr[..3] + BigEndian(plainLen, 2)
  }

  /** Number, type, version and length stand in this order. */
  predicate IsHeader(ad: seq<byte>, seqNum: Seq, hdr: Header, plainLen: nat)
  {
    && |ad| == 13
    && FromBigEndian(ad[0..8]) == seqNum
    && ad[8] == hdr[0]
    && ad[9] == hdr[1] && ad[10] == hdr[2]
    && FromBigEndian(ad[11..13]) == plainLen % 0x1_0000
  }

  /** The 13 bytes decode, field by field, to what they were built from, and no
      others do. */
  lemma HeaderIff(ad: seq<byte>, seqNum: Seq, hdr: Header, plainLen: nat)
    ensures ad == AdditionalData(seqNum, hdr, plainLen) <==> IsHeader(ad, seqNum, hdr, plainLen)
  {
    hide BigEndian, FromBigEndian, Pow256;
    LowTwoBytes(plainLen);
    NumberDecodes(seqNum);
    if ad == AdditionalData(seqNum, hdr, plainLen) {
      assert ad[0..8] == BigEndian(seqNum, 8) && ad[11..13] == BigEndian(plainLen, 2);
    }
    if IsHeader(ad, seqNum, hdr, plainLen) {
      BigEndianEncodes(ad[0..8]);
      BigEndianEncodes(ad[11..13]);
      assert ad == ad[0..8] + ad[8..11] + ad[11..13];
      assert ad[8..11] == hdr[..3];
    }
  }

  lemma NumberDecodes(seqNum: Seq)
    ensures FromBigEndian(BigEndian(seqNum, 8)) == seqNum
  {
    Pow256Of8();
    BigEndianDecodes(seqNum, 8);
  }

  /** Two bytes hold a length modulo 2^16. */
  lemma LowTwoBytes(n: nat)
    ensures BigEndian(n, 2) == BigEndian(n % 0x1_0000, 2)
    ensures FromBigEndian(BigEndian(n, 2)) == n % 0x1_0000
  {
    var m := n % 0x1_0000;
    assert n == 0x1_0000 * (n / 0x1_0000) + m;
    assert n / 256 == 256 * (n / 0x1_0000) + m / 256;
    assert n % 256 == m % 256 && n / 256 % 256 == m / 256 % 256;
    TwoDigits(n);
    TwoDigits(m);
    assert Pow256(2) == 0x1_0000;
    BigEndianDecodes(m, 2);
  }

  lemma TwoDigits(n: nat)
    ensures BigEndian(n, 2) == [n / 256 % 256, n % 256]
  {
    assert BigEndian(n / 256, 1) == BigEndian(n / 256 / 256, 0) + [n / 256 % 256];
  }

  /** The header determines the sequence number, the type, the version and,
      for a legal length, the length. */
  lemma AdditionalDataInjective(s1: Seq, h1: Header, n1: nat, s2: Seq, h2: Header, n2: nat)
    requires AdditionalData(s1, h1, n1) == AdditionalData(s2, h2, n2)
    requires n1 < 0x1_0000 && n2 < 0x1_0000
    ensures s1 == s2 && h1[..3] == h2[..3] && n1 == n2
  {
    var a, b := AdditionalData(s1, h1, n1), AdditionalData(s2, h2, n2);
    Pow256Of8();
    assert a[..8] == BigEndian(s1, 8) && b[..8] == BigEndian(s2, 8);
    BigEndianInjective(s1, s2, 8);
    assert a[8..11] == h1[..3] && b[8..11] == h2[..3];
    assert a[11..] == BigEndian(n1, 2) && b[11..] == BigEndian(n2, 2);
    BigEndianInjective(n1, n2, 2);
  }
}
