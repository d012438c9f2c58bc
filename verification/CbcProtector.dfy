/** MAC-then-encrypt CBC protection (section 6.2.3.2 of RFC 5246). */
module CbcProtector {
  import opened Bytes
  import opened MacData
  import opened CbcPadding

  /** A block cipher and an HMAC with their keys fixed. */
  datatype Suite = Suite(
    blockSize: nat,
    macSize: nat,
    encrypt: seq<byte> -> seq<byte>,
    decrypt: seq<byte> -> seq<byte>,
    hmac: seq<byte> -> seq<byte>)
  {
    /** All that is assumed of the primitives: sizes, and that decryption of a
        block undoes its encryption. A padding length must fit in a byte. */
    ghost predicate Sound()
    {
      && 1 <= blockSize <= 255
      && (forall b :: |b| == blockSize ==> |encrypt(b)| == blockSize && |decrypt(b)| == blockSize)
      && (forall b :: |b| == blockSize ==> decrypt(encrypt(b)) == b)
      && (forall m :: |hmac(m)| == macSize)
    }
  }

  // ---- CBC mode -----------------------------------------------------------

  /** A number of whole blocks. */
  predicate Whole(s: Suite, data: seq<byte>)
    requires s.blockSize > 0
  {
    |data| % s.blockSize == 0
  }

  function CbcEncrypt(s: Suite, iv: seq<byte>, data: seq<byte>): (r: seq<byte>)
    requires s.Sound() && |iv| == s.blockSize && Whole(s, data)
    ensures |r| == |data|
    decreases |data|
  {
    if data == [] then []
    else
      FirstBlock(|data|, s.blockSize);
      var block := s.encrypt(XorSeq(iv, data[..s.blockSize]));
      block + CbcEncrypt(s, block, data[s.blockSize..])
  }

  function CbcDecrypt(s: Suite, iv: seq<byte>, data: seq<byte>): (r: seq<byte>)
    requires s.Sound() && |iv| == s.blockSize && Whole(s, data)
    ensures |r| == |data|
    decreases |data|
  {
    if data == [] then []
    else
      FirstBlock(|data|, s.blockSize);
      var block := data[..s.blockSize];
      XorSeq(s.decrypt(block), iv) + CbcDecrypt(s, block, data[s.blockSize..])
  }

  /** A positive multiple of `b` minus `b` is a multiple again. */
  lemma FirstBlock(n: nat, b: nat)
    requires b > 0 && n > 0 && n % b == 0
    ensures n >= b && (n - b) % b == 0
  {
    var q := n / b;
    assert n == q * b;
    if q >= 1 {
      assert n - b == (q - 1) * b;
      MultipleMod(q - 1, b);
    }
  }

  lemma MultipleMod(q: nat, b: nat)
    requires b > 0
    ensures (q * b) % b == 0
  {
    DivModUnique(q * b, q, 0, b);
  }

  lemma XorSeqSymmetric(a: seq<byte>, b: seq<byte>)
    requires |a| == |b|
    ensures XorSeq(a, b) == XorSeq(b, a)
  {
    forall i | 0 <= i < |a| ensures XorByte(a[i], b[i]) == XorByte(b[i], a[i]) {
      XorBitsSymmetric(a[i], b[i], 8);
    }
  }

  lemma {:induction false} XorBitsSymmetric(a: nat, b: nat, k: nat)
    ensures XorBits(a, b, k) == XorBits(b, a, k)
  {
    if k > 0 {
      XorBitsSymmetric(a / 2, b / 2, k - 1);
    }
  }

  lemma {:induction false} CbcInverse(s: Suite, iv: seq<byte>, data: seq<byte>)
    requires s.Sound() && |iv| == s.blockSize && Whole(s, data)
    ensures Whole(s, CbcEncrypt(s, iv, data)) && CbcDecrypt(s, iv, CbcEncrypt(s, iv, data)) == data
    decreases |data|
  {
    Sizes(s);
    hide XorSeq, CbcEncrypt, CbcDecrypt, Whole, Suite.Sound;
    if data == [] {
      CbcEmpty(s, iv);
    } else {
      WholeParts(s, data);
      var first, rest := data[..s.blockSize], data[s.blockSize..];
      assert first + rest == data;
      CbcFirst(s, iv, first, rest);
      BlockSize(s, XorSeq(iv, first));
      var block := s.encrypt(XorSeq(iv, first));
      CbcInverse(s, block, rest);
      var c := CbcEncrypt(s, block, rest);
      StillWhole(s, rest, c);
      WholeJoins(s, block, c);
      CbcFirst(s, iv, block, c);
      Undone(s, iv, first);
    }
  }

  lemma Undone(s: Suite, iv: seq<byte>, first: seq<byte>)
    requires s.Sound() && |iv| == |first| == s.blockSize
    ensures |s.decrypt(s.encrypt(XorSeq(iv, first)))| == |iv|
    ensures XorSeq(s.decrypt(s.encrypt(XorSeq(iv, first))), iv) == first
  {
    hide XorSeq;
    XorSeqSymmetric(iv, first);
    XorSeqInverse(first, iv);
  }

  lemma CbcEmpty(s: Suite, iv: seq<byte>)
    requires s.Sound() && |iv| == s.blockSize
    ensures Whole(s, []) && CbcEncrypt(s, iv, []) == [] && CbcDecrypt(s, iv, []) == []
  {
  }

  lemma StillWhole(s: Suite, a: seq<byte>, b: seq<byte>)
    requires s.blockSize > 0 && Whole(s, a) && |a| == |b|
    ensures Whole(s, b)
  {
  }

  lemma WholeParts(s: Suite, data: seq<byte>)
    requires s.blockSize > 0 && Whole(s, data) && data != []
    ensures |data| >= s.blockSize && Whole(s, data[s.blockSize..])
  {
    FirstBlock(|data|, s.blockSize);
  }

  lemma WholeJoins(s: Suite, first: seq<byte>, rest: seq<byte>)
    requires s.blockSize == |first| > 0 && Whole(s, rest)
    ensures Whole(s, first + rest) && Whole(s, rest + first)
  {
    WholeAfterIv(|rest|, s.blockSize);
  }

  lemma CbcFirst(s: Suite, iv: seq<byte>, first: seq<byte>, rest: seq<byte>)
    requires s.Sound() && |iv| == |first| == s.blockSize && Whole(s, rest) && Whole(s, first + rest)
    ensures CbcEncrypt(s, iv, first + rest)
         == s.encrypt(XorSeq(iv, first)) + CbcEncrypt(s, s.encrypt(XorSeq(iv, first)), rest)
    ensures CbcDecrypt(s, iv, first + rest) == XorSeq(s.decrypt(first), iv) + CbcDecrypt(s, first, rest)
  {
    hide XorSeq;
    assert (first + rest)[..s.blockSize] == first && (first + rest)[s.blockSize..] == rest;
  }

  lemma CbcOne(s: Suite, iv: seq<byte>, p: seq<byte>)
    requires s.Sound() && |iv| == |p| == s.blockSize && Whole(s, p)
    ensures Whole(s, []) && CbcEncrypt(s, iv, []) == [] && CbcDecrypt(s, iv, []) == []
    ensures CbcEncrypt(s, iv, p) == s.encrypt(XorSeq(iv, p))
    ensures CbcDecrypt(s, iv, p) == XorSeq(s.decrypt(p), iv)
  {
    hide XorSeq;
    assert p + [] == p;
    CbcFirst(s, iv, p, []);
  }

  /** One more block `p`: it is combined with the ciphertext block in front of
      it, or with the IV, and then encrypted. */
  lemma {:induction false} CbcNext(s: Suite, iv: seq<byte>, data: seq<byte>, p: seq<byte>)
    requires s.Sound() && |iv| == |p| == s.blockSize && Whole(s, data)
    ensures Whole(s, data + p)
    ensures CbcEncrypt(s, iv, data + p)
         == CbcEncrypt(s, iv, data) + s.encrypt(XorSeq((iv + CbcEncrypt(s, iv, data))[|data|..], p))
    decreases |data|
  {
    Sizes(s);
    hide XorSeq, CbcEncrypt, CbcDecrypt, Whole, Suite.Sound;
    WholeJoins(s, p, data);
    if data == [] {
      assert data + p == p && (iv + [])[0..] == iv;
      CbcOne(s, iv, p);
    } else {
      WholeParts(s, data);
      var first, rest := data[..s.blockSize], data[s.blockSize..];
      assert first + rest == data;
      BlockSize(s, XorSeq(iv, first));
      CbcNext(s, s.encrypt(XorSeq(iv, first)), rest, p);
      CbcNextStep(s, iv, first, rest, p);
    }
  }

  lemma CbcNextStep(s: Suite, iv: seq<byte>, first: seq<byte>, rest: seq<byte>, p: seq<byte>)
    requires s.Sound() && |iv| == |p| == |first| == s.blockSize
    requires Whole(s, rest) && Whole(s, rest + p) && Whole(s, first + rest) && Whole(s, first + rest + p)
    requires var block := s.encrypt(XorSeq(iv, first));
             var c := CbcEncrypt(s, block, rest);
             CbcEncrypt(s, block, rest + p) == c + s.encrypt(XorSeq((block + c)[|rest|..], p))
    ensures var c := CbcEncrypt(s, iv, first + rest);
            CbcEncrypt(s, iv, first + rest + p) == c + s.encrypt(XorSeq((iv + c)[|first + rest|..], p))
  {
    hide XorSeq, CbcEncrypt, CbcDecrypt, Whole, Suite.Sound;
    Assoc(first, rest, p);
    CbcFirst(s, iv, first, rest);
    CbcFirst(s, iv, first, rest + p);
    BlockSize(s, XorSeq(iv, first));
    var block := s.encrypt(XorSeq(iv, first));
    var c := CbcEncrypt(s, block, rest);
    LastBlocks(iv, block, c, |rest|);
    Assoc(block, c, s.encrypt(XorSeq((block + c)[|rest|..], p)));
  }

  /** Decryption combines with the block in front of it afterwards. */
  lemma {:induction false} CbcNextDecrypted(s: Suite, iv: seq<byte>, data: seq<byte>, p: seq<byte>)
    requires s.Sound() && |iv| == |p| == s.blockSize && Whole(s, data)
    ensures Whole(s, data + p)
    ensures |s.decrypt(p)| == |(iv + data)[|data|..]|
    ensures CbcDecrypt(s, iv, data + p) == CbcDecrypt(s, iv, data) + XorSeq(s.decrypt(p), (iv + data)[|data|..])
    decreases |data|
  {
    Sizes(s);
    BlockSize(s, p);
    hide XorSeq, CbcEncrypt, CbcDecrypt, Whole, Suite.Sound;
    WholeJoins(s, p, data);
    if data == [] {
      assert data + p == p && (iv + [])[0..] == iv;
      CbcOne(s, iv, p);
    } else {
      WholeParts(s, data);
      var first, rest := data[..s.blockSize], data[s.blockSize..];
      assert first + rest == data;
      CbcNextDecrypted(s, first, rest, p);
      CbcNextDecryptedStep(s, iv, first, rest, p);
    }
  }

  lemma CbcNextDecryptedStep(s: Suite, iv: seq<byte>, first: seq<byte>, rest: seq<byte>, p: seq<byte>)
    requires s.Sound() && |iv| == |p| == |first| == s.blockSize && |s.decrypt(p)| == s.blockSize
    requires Whole(s, rest) && Whole(s, rest + p) && Whole(s, first + rest) && Whole(s, first + rest + p)
    requires CbcDecrypt(s, first, rest + p)
          == CbcDecrypt(s, first, rest) + XorSeq(s.decrypt(p), (first + rest)[|rest|..])
    ensures CbcDecrypt(s, iv, first + rest + p)
         == CbcDecrypt(s, iv, first + rest) + XorSeq(s.decrypt(p), (iv + (first + rest))[|first + rest|..])
  {
    hide XorSeq, CbcEncrypt, CbcDecrypt, Whole, Suite.Sound;
    Assoc(first, rest, p);
    CbcFirst(s, iv, first, rest);
    CbcFirst(s, iv, first, rest + p);
    BlockSize(s, first);
    LastBlocks(iv, first, rest, |rest|);
    var a, d := XorSeq(s.decrypt(first), iv), CbcDecrypt(s, first, rest);
    Assoc(a, d, XorSeq(s.decrypt(p), (first + rest)[|rest|..]));
  }

  lemma Sizes(s: Suite)
    requires s.Sound()
    ensures s.blockSize > 0
  {
  }

  lemma BlockSize(s: Suite, b: seq<byte>)
    requires s.Sound() && |b| == s.blockSize
    ensures |s.encrypt(b)| == |s.decrypt(b)| == s.blockSize
  {
  }

  lemma LastBlocks(iv: seq<byte>, block: seq<byte>, c: seq<byte>, n: nat)
    requires |iv| == |block| && |c| == n
    ensures (iv + (block + c))[|block| + n..] == (block + c)[n..] && |(block + c)[n..]| == |iv|
  {
  }

  // ---- Reference ----------------------------------------------------------

  function Mac(s: Suite, seqNum: Seq, hdr: Header, content: seq<byte>): (r: seq<byte>)
  {
    s.hmac(AdditionalData(seqNum, hdr, |content|) + content)
  }

  /** Number of padding bytes before the length byte: 1 to `blockSize`. */
  function PadLength(s: Suite, contentLen: nat): (p: nat)
    requires s.blockSize > 0
  {
    s.blockSize - (contentLen + 1) % s.blockSize
  }

  function PaddedBody(s: Suite, content: seq<byte>): (r: seq<byte>)
    requires 0 < s.blockSize <= 255
  {
    var p := PadLength(s, |content|);
    content + seq(p + 1, _ => p)
  }

  lemma PaddedBodyShape(s: Suite, content: seq<byte>)
    requires 0 < s.blockSize <= 255
    ensures 1 <= PadLength(s, |content|) <= s.blockSize
    ensures |PaddedBody(s, content)| % s.blockSize == 0
    ensures WellPadded(PaddedBody(s, content))
    ensures var body := PaddedBody(s, content);
            |body| == |content| + PadLength(s, |content|) + 1 && body[|body| - 1] == PadLength(s, |content|)
  {
    var b := s.blockSize;
    var n := |content| + 1;
    var q := n / b;
    assert n == q * b + n % b;
    assert |PaddedBody(s, content)| == n + (b - n % b) == (q + 1) * b;
    MultipleMod(q + 1, b);
  }

  function Seal(s: Suite, seqNum: Seq, hdr: Header, plain: seq<byte>, iv: seq<byte>): (r: seq<byte>)
    requires s.Sound() && |iv| == s.blockSize
  {
    var content := plain + Mac(s, seqNum, hdr, plain);
    PaddedBodyShape(s, content);
    iv + CbcEncrypt(s, iv, PaddedBody(s, content))
  }

  /** What is left of a decrypted fragment: the content length is clamped at 0. */
  function ContentLength(s: Suite, plain: seq<byte>): (n: nat)
    requires |plain| > s.macSize
    ensures n + s.macSize <= |plain|
  {
    var raw := |plain| - s.macSize - plain[|plain| - 1] - 1;
    if raw < 0 then 0 else raw
  }

  predicate WholeFragment(s: Suite, fragment: seq<byte>)
    requires s.blockSize > 0
  {
    |fragment| >= s.blockSize + s.macSize + 1 && |fragment| % s.blockSize == 0
  }

  function Decrypted(s: Suite, fragment: seq<byte>): (r: seq<byte>)
    requires s.Sound() && WholeFragment(s, fragment)
    ensures |r| == |fragment| - s.blockSize
  {
    FirstBlock(|fragment|, s.blockSize);
    CbcDecrypt(s, fragment[..s.blockSize], fragment[s.blockSize..])
  }

  /** The plain statement of decryption, with branches. */
  function Open(s: Suite, seqNum: Seq, hdr: Header, fragment: seq<byte>): (r: Option<seq<byte>>)
    requires s.Sound()
  {
    if !WholeFragment(s, fragment) then None
    else
      var plain := Decrypted(s, fragment);
      var n := ContentLength(s, plain);
      if WellPadded(plain) && plain[n..n + s.macSize] == Mac(s, seqNum, hdr, plain[..n])
      then Some(plain[..n]) else None
  }

  /** Opening what was sealed under the same number, type and version gives the
      plaintext, for every plaintext and every explicit IV. */
  lemma OpenSealed(s: Suite, seqNum: Seq, hdr: Header, hdr': Header, plain: seq<byte>, iv: seq<byte>)
    requires s.Sound() && |iv| == s.blockSize && hdr[..3] == hdr'[..3]
    ensures Open(s, seqNum, hdr', Seal(s, seqNum, hdr, plain, iv)) == Some(plain)
  {
    hide WellPadded, CbcEncrypt, CbcDecrypt, AdditionalData, PadLength;
    var mac := Mac(s, seqNum, hdr, plain);
    assert Mac(s, seqNum, hdr', plain) == mac by { SameAdditionalData(seqNum, hdr, hdr', |plain|); }
    var content := plain + mac;
    var body := PaddedBody(s, content);
    PaddedBodyShape(s, content);
    var fragment := Seal(s, seqNum, hdr, plain, iv);
    assert fragment[..s.blockSize] == iv && fragment[s.blockSize..] == CbcEncrypt(s, iv, body);
    WholeAfterIv(|body|, s.blockSize);
    CbcInverse(s, iv, body);
    assert Decrypted(s, fragment) == body;
    var n := ContentLength(s, body);
    assert n == |plain| && body[..n] == plain && body[n..n + s.macSize] == mac;
  }

  /** The plaintext, its MAC, and at least two equal bytes that count the others
      of them. */
  predicate InParts(s: Suite, d: seq<byte>, plain: seq<byte>, mac: seq<byte>)
  {
    var pad := |d| - |plain| - |mac| - 1;
    && 1 <= pad <= s.blockSize
    && d[..|plain|] == plain && d[|plain|..|plain| + |mac|] == mac
    && forall k :: |plain| + |mac| <= k < |d| ==> d[k] == pad
  }

  /** What a sealed fragment consists of: the IV, and encrypted behind it the
      plaintext, the HMAC of header and plaintext, and the padding. */
  lemma SealedParts(s: Suite, seqNum: Seq, hdr: Header, plain: seq<byte>, iv: seq<byte>)
    returns (ad: seq<byte>, d: seq<byte>)
    requires s.Sound() && |iv| == s.blockSize
    ensures IsHeader(ad, seqNum, hdr, |plain|)
    ensures Whole(s, d) && Seal(s, seqNum, hdr, plain, iv) == iv + CbcEncrypt(s, iv, d)
    ensures InParts(s, d, plain, s.hmac(ad + plain))
  {
    hide WellPadded, CbcEncrypt, CbcDecrypt, AdditionalData, PadLength, IsHeader;
    ad := AdditionalData(seqNum, hdr, |plain|);
    HeaderIff(ad, seqNum, hdr, |plain|);
    var mac := Mac(s, seqNum, hdr, plain);
    PaddedBodyShape(s, plain + mac);
    d := PaddedBody(s, plain + mac);
    assert d[..|plain|] == plain && d[|plain|..|plain| + |mac|] == mac;
  }

  lemma WholeAfterIv(n: nat, b: nat)
    requires b > 0 && n % b == 0
    ensures (b + n) % b == 0
  {
    assert n == n / b * b;
    MultipleMod(n / b + 1, b);
  }

  lemma SameAdditionalData(seqNum: Seq, h: Header, h': Header, n: nat)
    requires h[..3] == h'[..3]
    ensures AdditionalData(seqNum, h, n) == AdditionalData(seqNum, h', n)
  {
  }

  /** Padding that leaves no room for the MAC should be refused; the clamped
      length compares the MAC with bytes that overlap the padding instead. */
  predicate Overlapping(s: Suite, fragment: seq<byte>)
    requires s.Sound() && WholeFragment(s, fragment)
  {
    var plain := Decrypted(s, fragment);
    plain[|plain| - 1] + 1 + s.macSize > |plain|
  }

  function StrictOpen(s: Suite, seqNum: Seq, hdr: Header, fragment: seq<byte>): (r: Option<seq<byte>>)
    requires s.Sound()
  {
    if !WholeFragment(s, fragment) || Overlapping(s, fragment) then None else Open(s, seqNum, hdr, fragment)
  }

  /** The two agree except on a fragment whose overlong but well-formed padding
      happens to contain the MAC of the empty content; such a fragment is
      accepted as an empty record. */
  lemma ClampAgreesWithStrict(s: Suite, seqNum: Seq, hdr: Header, fragment: seq<byte>)
    requires s.Sound()
    ensures Open(s, seqNum, hdr, fragment) == StrictOpen(s, seqNum, hdr, fragment)
       <==> !(WholeFragment(s, fragment) && Overlapping(s, fragment)
              && WellPadded(Decrypted(s, fragment))
              && Decrypted(s, fragment)[..s.macSize] == Mac(s, seqNum, hdr, []))
  {
    if WholeFragment(s, fragment) && Overlapping(s, fragment) {
      var plain := Decrypted(s, fragment);
      assert ContentLength(s, plain) == 0 && plain[..0] == [] && plain[0..s.macSize] == plain[..s.macSize];
    }
  }

  /** The two do differ: with a MAC that is always 1, the padding 1, 1 is taken
      for the MAC of an empty record. */
  lemma ClampDiffers(seqNum: Seq, hdr: Header)
    ensures var s := Suite(1, 1, b => b, b => b, _ => [1]);
            s.Sound() && Open(s, seqNum, hdr, [0, 1, 0]) == Some([]) && StrictOpen(s, seqNum, hdr, [0, 1, 0]) == None
  {
    hide AdditionalData, CbcDecrypt;
    var s := Suite(1, 1, b => b, b => b, _ => [1]);
    var fragment: seq<byte> := [0, 1, 0];
    assert fragment[..1] == [0] && fragment[1..] == [1, 0];
    DemoDecrypts(s);
    assert Decrypted(s, fragment) == [1, 1];
  }

  lemma DemoDecrypts(s: Suite)
    requires s.Sound() && s.blockSize == 1 && forall b :: s.decrypt(b) == b
    ensures CbcDecrypt(s, [0], [1, 0]) == [1, 1]
  {
    OneXorZero();
    hide XorSeq;
    assert [0][..1] == [0] && [0][1..] == [];
    assert CbcDecrypt(s, [1], [0]) == [1] + CbcDecrypt(s, [0], []);
    assert [1, 0][..1] == [1] && [1, 0][1..] == [0];
  }

  lemma OneXorZero()
    ensures XorSeq([0], [1]) == [1] && XorSeq([1], [0]) == [1]
  {
    assert XorByte(0, 1) == 1 && XorByte(1, 0) == 1 by {
      assert XorBits(0, 0, 7) == 0;
    }
  }

  /** A fragment accepted without overlap decrypts to the plaintext, its MAC and
      a run of equal padding bytes, and nothing else. */
  lemma OpenedShape(s: Suite, seqNum: Seq, hdr: Header, fragment: seq<byte>)
    requires s.Sound() && Open(s, seqNum, hdr, fragment).Some? && !Overlapping(s, fragment)
    ensures var plain := Open(s, seqNum, hdr, fragment).value;
            var pad := Decrypted(s, fragment)[|Decrypted(s, fragment)| - 1];
            Decrypted(s, fragment) == plain + Mac(s, seqNum, hdr, plain) + seq(pad as int + 1, _ => pad)
  {
    hide AdditionalData, CbcDecrypt;
    var d := Decrypted(s, fragment);
    var n, pad := ContentLength(s, d), d[|d| - 1];
    assert d[n + s.macSize..] == seq(pad as int + 1, _ => pad);
    assert d == d[..n] + d[n..n + s.macSize] + d[n + s.macSize..];
  }

  // ---- The protector ------------------------------------------------------

  /** `ConstantTimeSelect(int(uint32(raw) >> 31), 0, raw)`. */
  function ClampByBit31(raw: int): (n: int)
  {
    if raw % UINT32 / BIT31 == 1 then 0 else raw
  }

  /** The bytes fed to the HMAC after its sum was taken do not reach the sum. */
  method ComputeMac(s: Suite, seqNum: Seq, hdr: Header, content: seq<byte>, extra: seq<byte>) returns (mac: seq<byte>)
    ensures mac == Mac(s, seqNum, hdr, content)
  {
    var written := AdditionalData(seqNum, hdr, |content|);
    written := written + content;
    mac := s.hmac(written);
    written := written + extra;
  }

  /** Content and padding go into one buffer. */
  method BuildBody(s: Suite, content: seq<byte>) returns (body: seq<byte>)
    requires 0 < s.blockSize <= 255
    ensures body == PaddedBody(s, content)
  {
    var contentLen := |content|;
    var padLen := s.blockSize - (contentLen + 1) % s.blockSize;
    if padLen < 0 {
      assert false; // a remainder is below the divisor
    }
    var buf := new byte[contentLen + padLen + 1](i => if 0 <= i < |content| then content[i] else 0);
    for i := contentLen to buf.Length
      invariant forall k :: 0 <= k < contentLen ==> buf[k] == content[k]
      invariant forall k :: contentLen <= k < i ==> buf[k] == padLen
    {
      buf[i] := padLen;
    }
    body := buf[..];
  }

  /** The buffer is encrypted behind a block of randomness drawn for the record,
      unless the random source fails. */
  method SealRecord(s: Suite, seqNum: Seq, hdr: Header, plain: seq<byte>, random: Option<seq<byte>>)
    returns (fragment: Option<seq<byte>>)
    requires s.Sound() && (random.Some? ==> |random.value| == s.blockSize)
    ensures fragment == if random.None? then None else Some(Seal(s, seqNum, hdr, plain, random.value))
  {
    hide AdditionalData, CbcEncrypt, WellPadded, PaddedBody;
    var mac := ComputeMac(s, seqNum, hdr, plain, []);
    var body := BuildBody(s, plain + mac);
    PaddedBodyShape(s, plain + mac);
    var iv :- random;
    fragment := Some(iv + CbcEncrypt(s, iv, body));
  }

  /** The content length as the code selects it: a distance with bit 31 set
      counts as negative. */
  function SelectedLength(s: Suite, plain: seq<byte>): (n: nat)
    requires s.macSize < |plain|
    ensures n + s.macSize <= |plain|
  {
    var raw := |plain| - s.macSize - (plain[|plain| - 1] as int + 1);
    if raw < 0 || raw / BIT31 % 2 == 1 then 0 else raw
  }

  /** What the code decides for a decrypted fragment of any length. */
  function Checked(s: Suite, seqNum: Seq, hdr: Header, plain: seq<byte>): (r: Option<seq<byte>>)
    requires s.macSize < |plain|
  {
    var n := SelectedLength(s, plain);
    var distance := |plain| - (plain[|plain| - 1] as int + 1);
    if WellPadded(plain) && distance / BIT31 % 2 == 0 && plain[n..n + s.macSize] == Mac(s, seqNum, hdr, plain[..n])
    then Some(plain[..n]) else None
  }

  function WideOpen(s: Suite, seqNum: Seq, hdr: Header, fragment: seq<byte>): (r: Option<seq<byte>>)
    requires s.Sound()
  {
    if !WholeFragment(s, fragment) then None else Checked(s, seqNum, hdr, Decrypted(s, fragment))
  }

  /** Below 2^31 bytes bit 31 plays no part. */
  lemma NarrowIsPlain(s: Suite, seqNum: Seq, hdr: Header, fragment: seq<byte>)
    requires s.Sound() && |fragment| <= BIT31
    ensures WideOpen(s, seqNum, hdr, fragment) == Open(s, seqNum, hdr, fragment)
  {
    hide AdditionalData, Decrypted, WellPadded;
    if WholeFragment(s, fragment) {
      var plain := Decrypted(s, fragment);
      SameLength(s, plain);
      PaddingFits(plain);
    }
  }

  lemma SameLength(s: Suite, plain: seq<byte>)
    requires s.macSize < |plain| < BIT31
    ensures SelectedLength(s, plain) == ContentLength(s, plain)
  {
  }

  lemma PaddingFits(plain: seq<byte>)
    requires 0 < |plain| < BIT31
    ensures WellPadded(plain) ==> (|plain| - (plain[|plain| - 1] as int + 1)) / BIT31 % 2 == 0
  {
  }

  /** The branch-free decryption, for every fragment a Go slice can hold; it
      computes the plain statement up to 2^31 bytes. */
  method OpenRecord(s: Suite, seqNum: Seq, hdr: Header, fragment: seq<byte>) returns (r: Option<seq<byte>>)
    requires s.Sound() && |fragment| <= MAX_INT
    ensures r == WideOpen(s, seqNum, hdr, fragment)
    ensures |fragment| <= BIT31 ==> r == Open(s, seqNum, hdr, fragment)
  {
    if |fragment| <= BIT31 {
      NarrowIsPlain(s, seqNum, hdr, fragment);
    }
    if |fragment| < s.blockSize + s.macSize + 1 {
      return None;
    }
    if |fragment| % s.blockSize != 0 {
      return None;
    }
    hide Checked, Open, AdditionalData, CbcDecrypt;
    FirstBlock(|fragment|, s.blockSize);
    var plain := CbcDecrypt(s, fragment[..s.blockSize], fragment[s.blockSize..]);
    r := CheckDecrypted(s, seqNum, hdr, plain);
    assert plain == Decrypted(s, fragment);
  }

  method CheckDecrypted(s: Suite, seqNum: Seq, hdr: Header, plain: seq<byte>) returns (r: Option<seq<byte>>)
    requires s.macSize < |plain| <= MAX_INT
    ensures r == Checked(s, seqNum, hdr, plain)
  {
    hide WellPadded, AdditionalData;
    var toRemove, good := ExtractCBCPadding(plain);
    var raw := |plain| - s.macSize - toRemove;
    var n := ClampByBit31(raw);
    ClampInBounds(raw);
    assert n == SelectedLength(s, plain);
    var got := plain[n..n + s.macSize];
    var expected := ComputeMac(s, seqNum, hdr, plain[..n], plain[n + s.macSize..]);
    LowBit(good);
    if !(got == expected && good & 1 == 1) {
      return None;
    }
    r := Some(plain[..n]);
  }

  lemma LowBit(good: bv8)
    requires good == 0 || good == 0xff
    ensures good & 1 == 1 <==> good == 0xff
  {
  }

  lemma ClampInBounds(raw: int)
    requires -256 <= raw
    ensures raw < 0 ==> ClampByBit31(raw) == 0
    ensures ClampByBit31(raw) == 0 || ClampByBit31(raw) == raw >= 0
    ensures 0 <= raw ==> ClampByBit31(raw) == if raw / BIT31 % 2 == 1 then 0 else raw
  {
  }
}
