/** AEAD protection: AES-GCM with an explicit nonce (RFC 5288) and
    ChaCha20-Poly1305 with an implicit one (RFC 7905). */
module Aead {
  import opened Bytes
  import opened MacData

  /** An AEAD with its key fixed: `seal(nonce, plain, ad)`, `open(nonce, ciphertext, ad)`. */
  datatype Cipher = Cipher(
    overhead: nat,
    seal: (seq<byte>, seq<byte>, seq<byte>) -> seq<byte>,
    open: (seq<byte>, seq<byte>, seq<byte>) -> Option<seq<byte>>)
  {
    ghost predicate Sound()
    {
      && (forall n, p, ad :: |seal(n, p, ad)| == |p| + overhead)
      && (forall n, p, ad :: open(n, seal(n, p, ad), ad) == Some(p))
    }
  }

  const EXPLICIT_NONCE: nat := 8

  // ---- AES-GCM ------------------------------------------------------------

  type Salt = s: seq<byte> | |s| == 4 witness [0, 0, 0, 0]

  function GcmSeal(c: Cipher, salt: Salt, seqNum: Seq, hdr: Header, plain: seq<byte>): (r: seq<byte>)
  {
    var explicit := BigEndian(seqNum, 8);
    explicit + c.seal(salt + explicit, plain, AdditionalData(seqNum, hdr, |plain|))
  }

  /** The nonce is the one on the wire; the sequence number enters through the
      additional data. */
  function GcmOpen(c: Cipher, salt: Salt, seqNum: Seq, hdr: Header, fragment: seq<byte>): (r: Option<seq<byte>>)
  {
    if |fragment| < EXPLICIT_NONCE + c.overhead then None
    else
      var ciphertext := fragment[EXPLICIT_NONCE..];
      c.open(salt + fragment[..EXPLICIT_NONCE], ciphertext,
             AdditionalData(seqNum, hdr, |ciphertext| - c.overhead))
  }

  lemma GcmOpenSealed(c: Cipher, salt: Salt, seqNum: Seq, hdr: Header, hdr': Header, plain: seq<byte>)
    requires c.Sound() && hdr[..3] == hdr'[..3]
    ensures GcmOpen(c, salt, seqNum, hdr', GcmSeal(c, salt, seqNum, hdr, plain)) == Some(plain)
  {
    var explicit := BigEndian(seqNum, 8);
    var ct := c.seal(salt + explicit, plain, AdditionalData(seqNum, hdr, |plain|));
    assert (explicit + ct)[..8] == explicit && (explicit + ct)[8..] == ct;
  }

  /** On the wire stands the number, and then the plaintext sealed under the salt
      and the number, with the header alone as additional data. */
  lemma GcmParts(c: Cipher, salt: Salt, seqNum: Seq, hdr: Header, plain: seq<byte>) returns (ad: seq<byte>)
    ensures IsHeader(ad, seqNum, hdr, |plain|)
    ensures var f := GcmSeal(c, salt, seqNum, hdr, plain);
            |f| >= 8 && FromBigEndian(f[..8]) == seqNum && f[8..] == c.seal(salt + f[..8], plain, ad)
  {
    hide AdditionalData, IsHeader, BigEndian, FromBigEndian;
    ad := AdditionalData(seqNum, hdr, |plain|);
    HeaderIff(ad, seqNum, hdr, |plain|);
    NumberDecodes(seqNum);
    assert GcmSeal(c, salt, seqNum, hdr, plain)[..8] == BigEndian(seqNum, 8);
  }

  /** A fragment opens exactly if its ciphertext does, under the salt and its
      first 8 bytes, with the header of what is expected. */
  lemma GcmOpensIff(c: Cipher, salt: Salt, seqNum: Seq, hdr: Header, fragment: seq<byte>, plain: seq<byte>)
    ensures GcmOpen(c, salt, seqNum, hdr, fragment) == Some(plain) <==>
            && |fragment| >= 8 + c.overhead
            && exists ad :: IsHeader(ad, seqNum, hdr, |fragment| - 8 - c.overhead)
                            && c.open(salt + fragment[..8], fragment[8..], ad) == Some(plain)
  {
    hide AdditionalData, IsHeader;
    if |fragment| >= 8 + c.overhead {
      forall ad {
        HeaderIff(ad, seqNum, hdr, |fragment| - 8 - c.overhead);
      }
    }
  }

  /** The nonce determines the number. */
  lemma GcmNonceInjective(salt: Salt, s1: Seq, s2: Seq)
    requires salt + BigEndian(s1, 8) == salt + BigEndian(s2, 8)
    ensures s1 == s2
  {
    assert (salt + BigEndian(s1, 8))[4..] == BigEndian(s1, 8);
    assert (salt + BigEndian(s2, 8))[4..] == BigEndian(s2, 8);
    Pow256Of8();
    BigEndianInjective(s1, s2, 8);
  }

  // ---- ChaCha20-Poly1305 --------------------------------------------------

  type WriteIv = s: seq<byte> | |s| == 12 witness [0, 0, 0, 0, 0, 0, 0, 0, 0, 0, 0, 0]

  function ChaChaNonce(iv: WriteIv, seqNum: Seq): (r: seq<byte>)
    ensures |r| == 12
  {
    XorSeq([0, 0, 0, 0] + BigEndian(seqNum, 8), iv)
  }

  method BuildChaChaNonce(iv: WriteIv, seqNum: Seq) returns (r: seq<byte>)
    ensures r == ChaChaNonce(iv, seqNum)
  {
    hide XorByte;
    var padded := [0, 0, 0, 0] + BigEndian(seqNum, 8);
    var nonce := new byte[12](i requires 0 <= i < 12 => padded[i]);
    for i := 0 to 12
      invariant forall k :: 0 <= k < i ==> nonce[k] == XorByte(padded[k], iv[k])
      invariant forall k :: i <= k < 12 ==> nonce[k] == padded[k]
    {
      nonce[i] := XorByte(nonce[i], iv[i]);
    }
    r := nonce[..];
  }

  /** The nonce determines the number. */
  lemma ChaChaNonceInjective(iv: WriteIv, s1: Seq, s2: Seq)
    requires ChaChaNonce(iv, s1) == ChaChaNonce(iv, s2)
    ensures s1 == s2
  {
    hide XorSeq;
    var a, b := [0, 0, 0, 0] + BigEndian(s1, 8), [0, 0, 0, 0] + BigEndian(s2, 8);
    XorSeqInverse(a, iv);
    XorSeqInverse(b, iv);
    assert a[4..] == BigEndian(s1, 8) && b[4..] == BigEndian(s2, 8);
    Pow256Of8();
    BigEndianInjective(s1, s2, 8);
  }

  function ChaChaSeal(c: Cipher, iv: WriteIv, seqNum: Seq, hdr: Header, plain: seq<byte>): (r: seq<byte>)
  {
    c.seal(ChaChaNonce(iv, seqNum), plain, AdditionalData(seqNum, hdr, |plain|))
  }

  function ChaChaOpen(c: Cipher, iv: WriteIv, seqNum: Seq, hdr: Header, fragment: seq<byte>): (r: Option<seq<byte>>)
  {
    if |fragment| < c.overhead then None
    else c.open(ChaChaNonce(iv, seqNum), fragment, AdditionalData(seqNum, hdr, |fragment| - c.overhead))
  }

  lemma ChaChaOpenSealed(c: Cipher, iv: WriteIv, seqNum: Seq, hdr: Header, hdr': Header, plain: seq<byte>)
    requires c.Sound() && hdr[..3] == hdr'[..3]
    ensures ChaChaOpen(c, iv, seqNum, hdr', ChaChaSeal(c, iv, seqNum, hdr, plain)) == Some(plain)
  {
    hide ChaChaNonce;
    var n, ad := ChaChaNonce(iv, seqNum), AdditionalData(seqNum, hdr, |plain|);
    assert c.open(n, c.seal(n, plain, ad), ad) == Some(plain);
  }

  /** The plaintext sealed under a nonce that, combined with the IV, is four
      zeros and the number, with the header alone as additional data. */
  lemma ChaChaParts(c: Cipher, iv: WriteIv, seqNum: Seq, hdr: Header, plain: seq<byte>)
    returns (ad: seq<byte>, nonce: seq<byte>)
    ensures IsHeader(ad, seqNum, hdr, |plain|)
    ensures |nonce| == 12 && XorSeq(nonce, iv)[..4] == [0, 0, 0, 0] && FromBigEndian(XorSeq(nonce, iv)[4..]) == seqNum
    ensures ChaChaSeal(c, iv, seqNum, hdr, plain) == c.seal(nonce, plain, ad)
  {
    hide AdditionalData, IsHeader, BigEndian, FromBigEndian, XorSeq;
    ad, nonce := AdditionalData(seqNum, hdr, |plain|), ChaChaNonce(iv, seqNum);
    HeaderIff(ad, seqNum, hdr, |plain|);
    NumberDecodes(seqNum);
    var padded := [0, 0, 0, 0] + BigEndian(seqNum, 8);
    XorSeqInverse(padded, iv);
    assert padded[..4] == [0, 0, 0, 0] && padded[4..] == BigEndian(seqNum, 8);
  }

  lemma ChaChaOpensIff(c: Cipher, iv: WriteIv, seqNum: Seq, hdr: Header, fragment: seq<byte>, plain: seq<byte>)
    ensures ChaChaOpen(c, iv, seqNum, hdr, fragment) == Some(plain) <==>
            && |fragment| >= c.overhead
            && exists ad :: IsHeader(ad, seqNum, hdr, |fragment| - c.overhead)
                            && c.open(ChaChaNonce(iv, seqNum), fragment, ad) == Some(plain)
  {
    hide AdditionalData, IsHeader, ChaChaNonce;
    if |fragment| >= c.overhead {
      forall ad {
        HeaderIff(ad, seqNum, hdr, |fragment| - c.overhead);
      }
    }
  }
}
