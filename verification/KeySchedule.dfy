/** The TLS 1.2 pseudo-random function and key schedule (sections 5, 6.3, 7.4.9
    and 8.1 of RFC 5246). */
module KeySchedule {
  import opened Bytes
  import opened Wire

  datatype KexKind = KexRSA | KexDHE | KexECDHE | KexGOST2001 | KexGOST2012_256 | KexGOST2018_256
  datatype AuthKind = AuthRSA | AuthECDSA | AuthAnonymous | AuthGOST2001 | AuthGOST2012_256

  datatype CipherSpec = CipherSpec(name: string, keyLen: nat, fixedIvLen: nat, aead: bool)

  /** A hash and the HMAC built from it, both unseen. */
  datatype Hash = Hash(size: nat, digest: seq<byte> -> seq<byte>, hmac: (seq<byte>, seq<byte>) -> seq<byte>) {
    ghost predicate Sound()
    {
      size > 0 && forall k, m :: |hmac(k, m)| == size
    }
  }

  datatype Suite = Suite(id: uint16, kx: KexKind, auth: AuthKind, cipher: CipherSpec, macKeyLen: nat, prf: Hash)

  // ---- P_hash -------------------------------------------------------------

  /** A(0) = seed, A(i) = HMAC(secret, A(i-1)). */
  function A(h: Hash, secret: seq<byte>, seed: seq<byte>, i: nat): (r: seq<byte>)
  {
    if i == 0 then seed else h.hmac(secret, A(h, secret, seed, i - 1))
  }

  function StreamBlock(h: Hash, secret: seq<byte>, seed: seq<byte>, i: nat): (r: seq<byte>)
  {
    h.hmac(secret, A(h, secret, seed, i + 1) + seed)
  }

  /** Byte `k` of the unbounded stream of section 5 of RFC 5246. */
  function StreamByte(h: Hash, secret: seq<byte>, seed: seq<byte>, k: nat): (r: byte)
    requires h.Sound()
  {
    StreamBlock(h, secret, seed, k / h.size)[k % h.size]
  }

  function StreamPrefix(h: Hash, secret: seq<byte>, seed: seq<byte>, n: nat): (r: seq<byte>)
    requires h.Sound()
    ensures |r| == n
  {
    seq(n, k requires 0 <= k < n => StreamByte(h, secret, seed, k))
  }

  /** The first two blocks written out. */
  lemma FirstBlocks(h: Hash, secret: seq<byte>, seed: seq<byte>, k: nat)
    requires h.Sound() && k < h.size
    ensures StreamByte(h, secret, seed, k) == h.hmac(secret, h.hmac(secret, seed) + seed)[k]
    ensures StreamByte(h, secret, seed, h.size + k)
         == h.hmac(secret, h.hmac(secret, h.hmac(secret, seed)) + seed)[k]
  {
    DivModUnique(k, 0, k, h.size);
    DivModUnique(h.size + k, 1, k, h.size);
    assert A(h, secret, seed, 1) == h.hmac(secret, seed);
    assert A(h, secret, seed, 2) == h.hmac(secret, h.hmac(secret, seed));
  }

  /** The loop ends with exactly the first `outLen` bytes of the stream. */
  method PHash(h: Hash, secret: seq<byte>, seed: seq<byte>, outLen: nat) returns (r: seq<byte>)
    requires h.Sound()
    ensures r == StreamPrefix(h, secret, seed, outLen)
  {
    hide A;
    var out: seq<byte> := [];
    var a := seed;
    ghost var i := 0;
    assert a == A(h, secret, seed, 0) by { AZero(h, secret, seed); }
    while |out| < outLen
      invariant a == A(h, secret, seed, i) && |out| == i * h.size
      invariant out == StreamPrefix(h, secret, seed, |out|)
      decreases outLen - |out|
    {
      AStep(h, secret, seed, i);
      a := h.hmac(secret, a);
      var block := h.hmac(secret, a + seed);
      AppendBlock(h, secret, seed, i, out);
      out := out + block;
      i := i + 1;
    }
    r := out[..outLen];
  }

  lemma AZero(h: Hash, secret: seq<byte>, seed: seq<byte>)
    ensures A(h, secret, seed, 0) == seed
  {
  }

  lemma AStep(h: Hash, secret: seq<byte>, seed: seq<byte>, i: nat)
    ensures A(h, secret, seed, i + 1) == h.hmac(secret, A(h, secret, seed, i))
  {
  }

  lemma AppendBlock(h: Hash, secret: seq<byte>, seed: seq<byte>, i: nat, out: seq<byte>)
    requires h.Sound() && |out| == i * h.size && out == StreamPrefix(h, secret, seed, |out|)
    ensures (i + 1) * h.size == |out| + h.size
    ensures out + StreamBlock(h, secret, seed, i) == StreamPrefix(h, secret, seed, |out| + h.size)
  {
    hide StreamBlock;
    var block := StreamBlock(h, secret, seed, i);
    assert |block| == h.size by { BlockSize(h, secret, seed, i); }
    assert (i + 1) * h.size == |out| + h.size;
    forall k | |out| <= k < |out| + h.size
      ensures (out + block)[k] == StreamByte(h, secret, seed, k)
    {
      DivModUnique(k, i, k - i * h.size, h.size);
    }
  }

  lemma BlockSize(h: Hash, secret: seq<byte>, seed: seq<byte>, i: nat)
    requires h.Sound()
    ensures |StreamBlock(h, secret, seed, i)| == h.size
  {
  }

  /** Asking for less gives a prefix of asking for more. */
  lemma ShorterIsPrefix(h: Hash, secret: seq<byte>, seed: seq<byte>, m: nat, n: nat)
    requires h.Sound() && m <= n
    ensures StreamPrefix(h, secret, seed, m) <= StreamPrefix(h, secret, seed, n)
  {
    hide StreamByte;
  }

  // ---- PRF and its uses ---------------------------------------------------

  /** Fails on an empty label and on a request for no bytes. */
  function PRF(h: Hash, secret: seq<byte>, tlsLabel: seq<byte>, seed: seq<byte>, outLen: int): (r: Option<seq<byte>>)
    requires h.Sound()
    ensures r.Some? <==> tlsLabel != [] && outLen > 0
    ensures r.Some? ==> |r.value| == outLen
  {
    if tlsLabel == [] || outLen <= 0 then None
    else Some(StreamPrefix(h, secret, tlsLabel + seed, outLen))
  }

  /** The seed is the label followed by the caller's seed. */
  method ComputePRF(h: Hash, secret: seq<byte>, tlsLabel: seq<byte>, seed: seq<byte>, outLen: int)
    returns (r: Option<seq<byte>>)
    requires h.Sound()
    ensures r == PRF(h, secret, tlsLabel, seed, outLen)
    ensures r.Some? ==> |r.value| == outLen
    ensures r.Some? ==>
              forall k :: 0 <= k < |r.value| ==> r.value[k] == StreamByte(h, secret, tlsLabel + seed, k)
  {
    hide StreamByte;
    if |tlsLabel| == 0 {
      return None;
    }
    if outLen <= 0 {
      return None;
    }
    var fullSeed := new byte[|tlsLabel| + |seed|](_ => 0);
    CopyAt(fullSeed, 0, tlsLabel);
    CopyAt(fullSeed, |tlsLabel|, seed);
    assert fullSeed[..] == tlsLabel + seed;
    var out := PHash(h, secret, fullSeed[..], outLen);
    r := Some(out);
  }

  /** Copies `data` to the bytes from `at` on. */
  method CopyAt(dst: array<byte>, at: nat, data: seq<byte>)
    requires at + |data| <= dst.Length
    modifies dst
    ensures dst[..] == old(dst[..at]) + data + old(dst[at + |data|..])
  {
    for i := 0 to |data|
      invariant dst[..] == old(dst[..at]) + data[..i] + old(dst[at + i..])
    {
      dst[at + i] := data[i];
    }
  }

  const MASTER_SECRET_LABEL: seq<byte> :=
    [0x6D, 0x61, 0x73, 0x74, 0x65, 0x72, 0x20, 0x73, 0x65, 0x63, 0x72, 0x65, 0x74]
  const KEY_EXPANSION_LABEL: seq<byte> :=
    [0x6B, 0x65, 0x79, 0x20, 0x65, 0x78, 0x70, 0x61, 0x6E, 0x73, 0x69, 0x6F, 0x6E]
  const CLIENT_FINISHED_LABEL: seq<byte> :=
    [0x63, 0x6C, 0x69, 0x65, 0x6E, 0x74, 0x20, 0x66, 0x69, 0x6E, 0x69, 0x73, 0x68, 0x65, 0x64]
  const SERVER_FINISHED_LABEL: seq<byte> :=
    [0x73, 0x65, 0x72, 0x76, 0x65, 0x72, 0x20, 0x66, 0x69, 0x6E, 0x69, 0x73, 0x68, 0x65, 0x64]

  function Ascii(s: string): (r: seq<byte>)
  {
    seq(|s|, i requires 0 <= i < |s| => s[i] as int % 256)
  }

  /** The labels of RFC 5246. */
  lemma Labels()
    ensures MASTER_SECRET_LABEL == Ascii("master secret") && KEY_EXPANSION_LABEL == Ascii("key expansion")
    ensures CLIENT_FINISHED_LABEL == Ascii("client finished") && SERVER_FINISHED_LABEL == Ascii("server finished")
  {
  }

  function MasterSecret(s: Suite, preMaster: seq<byte>, clientRandom: seq<byte>,
                        serverRandom: seq<byte>): (r: Option<seq<byte>>)
    requires s.prf.Sound()
    ensures r.Some? <==> |clientRandom| == 32 && |serverRandom| == 32
    ensures r.Some? ==> |r.value| == 48
  {
    if |clientRandom| != 32 || |serverRandom| != 32 then None
    else PRF(s.prf, preMaster, MASTER_SECRET_LABEL, clientRandom + serverRandom, 48)
  }

  /** The client's random comes first. */
  method DeriveMasterSecret(s: Suite, preMaster: seq<byte>, clientRandom: seq<byte>, serverRandom: seq<byte>)
    returns (r: Option<seq<byte>>)
    requires s.prf.Sound()
    ensures r == MasterSecret(s, preMaster, clientRandom, serverRandom)
    ensures r.Some? <==> |clientRandom| == 32 && |serverRandom| == 32
    ensures r.Some? ==> |r.value| == 48 && forall k :: 0 <= k < 48 ==>
              r.value[k] == StreamByte(s.prf, preMaster, MASTER_SECRET_LABEL + (clientRandom + serverRandom), k)
  {
    hide StreamByte;
    if |clientRandom| != 32 || |serverRandom| != 32 {
      return None;
    }
    var seed := new byte[64](_ => 0);
    CopyAt(seed, 0, clientRandom);
    CopyAt(seed, 32, serverRandom);
    assert seed[..] == clientRandom + serverRandom;
    r := ComputePRF(s.prf, preMaster, MASTER_SECRET_LABEL, seed[..], 48);
  }

  /** Uses of the function with different labels never share a seed. */
  lemma LabelsSeparate(a: seq<byte>, b: seq<byte>)
    ensures MASTER_SECRET_LABEL + a != KEY_EXPANSION_LABEL + b
    ensures MASTER_SECRET_LABEL + a != CLIENT_FINISHED_LABEL + b && MASTER_SECRET_LABEL + a != SERVER_FINISHED_LABEL + b
    ensures KEY_EXPANSION_LABEL + a != CLIENT_FINISHED_LABEL + b && KEY_EXPANSION_LABEL + a != SERVER_FINISHED_LABEL + b
    ensures CLIENT_FINISHED_LABEL + a != SERVER_FINISHED_LABEL + b
  {
    var m, k, c, v := MASTER_SECRET_LABEL, KEY_EXPANSION_LABEL, CLIENT_FINISHED_LABEL, SERVER_FINISHED_LABEL;
    assert (m + a)[0] == 0x6D && (k + a)[0] == (k + b)[0] == 0x6B;
    assert (c + a)[0] == (c + b)[0] == 0x63 && (v + b)[0] == 0x73;
  }

  function VerifyDataLen(s: Suite): (n: nat)
    ensures n == 12 || n == 32
  {
    if s.kx == KexGOST2018_256 then 32 else 12
  }

  function FinishedVerifyData(s: Suite, master: seq<byte>, tlsLabel: seq<byte>,
                              digest: seq<byte>): (r: Option<seq<byte>>)
    requires s.prf.Sound()
    ensures r.Some? <==> tlsLabel != []
    ensures r.Some? ==> |r.value| == VerifyDataLen(s)
  {
    PRF(s.prf, master, tlsLabel, digest, VerifyDataLen(s))
  }

  method DeriveVerifyData(s: Suite, master: seq<byte>, tlsLabel: seq<byte>, digest: seq<byte>)
    returns (r: Option<seq<byte>>)
    requires s.prf.Sound()
    ensures r == FinishedVerifyData(s, master, tlsLabel, digest)
    ensures r.Some? <==> tlsLabel != []
    ensures r.Some? ==> |r.value| == if s.kx == KexGOST2018_256 then 32 else 12
    ensures r.Some? ==> forall k :: 0 <= k < |r.value| ==> r.value[k] == StreamByte(s.prf, master, tlsLabel + digest, k)
  {
    hide StreamByte;
    var vdLen := 12;
    if s.kx == KexGOST2018_256 {
      vdLen := 32;
    }
    r := ComputePRF(s.prf, master, tlsLabel, digest, vdLen);
  }

  // ---- Key expansion ------------------------------------------------------

  datatype KeyMaterial = KeyMaterial(
    clientMac: seq<byte>, serverMac: seq<byte>,
    clientKey: seq<byte>, serverKey: seq<byte>,
    clientIv: seq<byte>, serverIv: seq<byte>)
  {
    function Concat(): seq<byte>
    {
      clientMac + serverMac + clientKey + serverKey + clientIv + serverIv
    }
  }

  /** CBC suites draw no IV from the key block, whatever their declared size. */
  function KeyBlockIvLen(s: Suite): (n: nat)
  {
    var isCbc := !s.cipher.aead && s.cipher.name != "GOST28147-CNT"
                 && s.cipher.name != "KUZNYECHIK-CTR-OMAC" && s.cipher.name != "MAGMA-CTR-OMAC";
    if isCbc then 0 else s.cipher.fixedIvLen
  }

  function KeyBlockLen(s: Suite): (n: nat)
  {
    2 * s.macKeyLen + 2 * s.cipher.keyLen + 2 * KeyBlockIvLen(s)
  }

  /** What either expansion must produce: six consecutive pieces of the key
      block, with the sizes of the suite, and nothing left over. */
  predicate IsPartition(km: KeyMaterial, s: Suite, block: seq<byte>)
  {
    Splits(km, s.macKeyLen, s.cipher.keyLen, KeyBlockIvLen(s), block)
  }

  predicate Splits(km: KeyMaterial, macLen: nat, keyLen: nat, ivLen: nat, block: seq<byte>)
  {
    && km.Concat() == block
    && |km.clientMac| == |km.serverMac| == macLen
    && |km.clientKey| == |km.serverKey| == keyLen
    && |km.clientIv| == |km.serverIv| == ivLen
  }

  /** Only AEAD suites and the three GOST stream modes draw IVs. */
  lemma PartitionSizes(km: KeyMaterial, s: Suite, block: seq<byte>)
    requires IsPartition(km, s, block)
    ensures |km.clientMac| == |km.serverMac| == s.macKeyLen && |km.clientKey| == |km.serverKey| == s.cipher.keyLen
    ensures s.cipher.aead || s.cipher.name in ["GOST28147-CNT", "KUZNYECHIK-CTR-OMAC", "MAGMA-CTR-OMAC"] ==>
              |km.clientIv| == |km.serverIv| == s.cipher.fixedIvLen
    ensures !(s.cipher.aead || s.cipher.name in ["GOST28147-CNT", "KUZNYECHIK-CTR-OMAC", "MAGMA-CTR-OMAC"]) ==>
              km.clientIv == km.serverIv == []
  {
  }

  /** The sizes and the concatenation leave no choice. */
  lemma PartitionUnique(a: KeyMaterial, b: KeyMaterial, s: Suite, block: seq<byte>)
    requires IsPartition(a, s, block) && IsPartition(b, s, block)
    ensures a == b
  {
    SplitUnique(a.clientMac + a.serverMac + a.clientKey + a.serverKey + a.clientIv, a.serverIv,
                b.clientMac + b.serverMac + b.clientKey + b.serverKey + b.clientIv, b.serverIv);
    SplitUnique(a.clientMac + a.serverMac + a.clientKey + a.serverKey, a.clientIv,
                b.clientMac + b.serverMac + b.clientKey + b.serverKey, b.clientIv);
    SplitUnique(a.clientMac + a.serverMac + a.clientKey, a.serverKey,
                b.clientMac + b.serverMac + b.clientKey, b.serverKey);
    SplitUnique(a.clientMac + a.serverMac, a.clientKey, b.clientMac + b.serverMac, b.clientKey);
    SplitUnique(a.clientMac, a.serverMac, b.clientMac, b.serverMac);
  }

  lemma SplitUnique(a: seq<byte>, x: seq<byte>, b: seq<byte>, y: seq<byte>)
    requires a + x == b + y && |x| == |y|
    ensures a == b && x == y
  {
    assert a == (a + x)[..|a|] && x == (a + x)[|a|..];
    assert b == (b + y)[..|b|] && y == (b + y)[|b|..];
  }

  /** The client's and the server's piece of `n` bytes each; no bytes are taken
      if `n` is 0. */
  method TakePair(block: seq<byte>, off: nat, n: nat) returns (pair: (seq<byte>, seq<byte>), off': nat)
    requires off + 2 * n <= |block|
    ensures off' == off + 2 * n && pair == (block[off..off + n], block[off + n..off'])
  {
    pair, off' := ([], []), off;
    assert block[off..off] == [];
    if n > 0 {
      var client := block[off'..off' + n];
      off' := off' + n;
      var server := block[off'..off' + n];
      off' := off' + n;
      pair := (client, server);
    }
  }

  ghost function Slices(block: seq<byte>, m: nat, k: nat, v: nat): (km: KeyMaterial)
    requires |block| == 2 * m + 2 * k + 2 * v
  {
    KeyMaterial(block[0..m], block[m..2 * m], block[2 * m..2 * m + k], block[2 * m + k..2 * m + 2 * k],
                block[2 * m + 2 * k..2 * m + 2 * k + v], block[2 * m + 2 * k + v..])
  }

  lemma SlicesPartition(block: seq<byte>, m: nat, k: nat, v: nat)
    requires |block| == 2 * m + 2 * k + 2 * v
    ensures Splits(Slices(block, m, k, v), m, k, v, block)
  {
    assert block[0..m] + block[m..2 * m] == block[..2 * m];
    assert block[..2 * m] + block[2 * m..2 * m + k] == block[..2 * m + k];
    assert block[..2 * m + k] + block[2 * m + k..2 * m + 2 * k] == block[..2 * m + 2 * k];
    assert block[..2 * m + 2 * k] + block[2 * m + 2 * k..2 * m + 2 * k + v] == block[..2 * m + 2 * k + v];
    assert block[..2 * m + 2 * k + v] + block[2 * m + 2 * k + v..] == block;
  }

  /** The key block of section 6.3 of RFC 5246: the server's random comes first. */
  function KeyBlock(s: Suite, master: seq<byte>, clientRandom: seq<byte>,
                    serverRandom: seq<byte>): (r: Option<seq<byte>>)
    requires s.prf.Sound()
  {
    PRF(s.prf, master, KEY_EXPANSION_LABEL, serverRandom + clientRandom, KeyBlockLen(s))
  }

  ghost predicate StreamAt(h: Hash, secret: seq<byte>, seed: seq<byte>, at: nat, piece: seq<byte>)
    requires h.Sound()
  {
    forall k :: 0 <= k < |piece| ==> piece[k] == StreamByte(h, secret, seed, at + k)
  }

  /** The stream for the label "key expansion" and this seed yields both MAC keys,
      both encryption keys and both IVs, the client's before the server's. */
  ghost predicate FromStream(km: KeyMaterial, s: Suite, master: seq<byte>, seed: seq<byte>)
    requires s.prf.Sound()
  {
    var m, n, v := |km.clientMac|, |km.clientKey|, |km.clientIv|;
    var all := KEY_EXPANSION_LABEL + seed;
    && StreamAt(s.prf, master, all, 0, km.Concat())
    && StreamAt(s.prf, master, all, 0, km.clientMac)
    && StreamAt(s.prf, master, all, m, km.serverMac)
    && StreamAt(s.prf, master, all, 2 * m, km.clientKey)
    && StreamAt(s.prf, master, all, 2 * m + n, km.serverKey)
    && StreamAt(s.prf, master, all, 2 * m + 2 * n, km.clientIv)
    && StreamAt(s.prf, master, all, 2 * m + 2 * n + v, km.serverIv)
  }

  lemma BlockFromStream(km: KeyMaterial, s: Suite, master: seq<byte>, seed: seq<byte>, total: nat, m: nat, k: nat,
                        v: nat)
    requires s.prf.Sound() && total > 0
    requires Splits(km, m, k, v, PRF(s.prf, master, KEY_EXPANSION_LABEL, seed, total).value)
    ensures FromStream(km, s, master, seed)
  {
    hide StreamByte, StreamAt;
    var h, all := s.prf, KEY_EXPANSION_LABEL + seed;
    var a, b, c, d, e := km.clientMac, km.serverMac, km.clientKey, km.serverKey, km.clientIv;
    PrefixFromStream(h, master, all, total);
    StreamSplit(h, master, all, a + b + c + d + e, km.serverIv);
    StreamSplit(h, master, all, a + b + c + d, e);
    StreamSplit(h, master, all, a + b + c, d);
    StreamSplit(h, master, all, a + b, c);
    StreamSplit(h, master, all, a, b);
  }

  lemma PrefixFromStream(h: Hash, secret: seq<byte>, seed: seq<byte>, n: nat)
    requires h.Sound()
    ensures StreamAt(h, secret, seed, 0, StreamPrefix(h, secret, seed, n))
  {
    hide StreamByte;
  }

  lemma StreamSplit(h: Hash, secret: seq<byte>, seed: seq<byte>, a: seq<byte>, b: seq<byte>)
    requires h.Sound() && StreamAt(h, secret, seed, 0, a + b)
    ensures StreamAt(h, secret, seed, 0, a) && StreamAt(h, secret, seed, |a|, b)
  {
    hide StreamByte;
    forall k | 0 <= k < |a| ensures a[k] == StreamByte(h, secret, seed, 0 + k) {
      assert (a + b)[k] == a[k];
    }
    forall k | 0 <= k < |b| ensures b[k] == StreamByte(h, secret, seed, |a| + k) {
      assert (a + b)[|a| + k] == b[k];
    }
  }

  /** The first copy, in the suites package. */
  method KeyExpansion(s: Suite, master: seq<byte>, clientRandom: seq<byte>, serverRandom: seq<byte>)
    returns (r: Option<KeyMaterial>)
    requires s.prf.Sound()
    ensures r.None? <==> |clientRandom| != 32 || |serverRandom| != 32 || KeyBlockLen(s) == 0
    ensures r.Some? ==> IsPartition(r.value, s, KeyBlock(s, master, clientRandom, serverRandom).value)
    ensures r.Some? ==> FromStream(r.value, s, master, serverRandom + clientRandom)
  {
    hide PRF, Splits, KeyBlockIvLen, FromStream;
    if |clientRandom| != 32 || |serverRandom| != 32 {
      return None;
    }
    var seed := serverRandom + clientRandom;
    var macLen, keyLen, ivLen := s.macKeyLen, s.cipher.keyLen, KeyBlockIvLen(s);
    var total := 2 * macLen + 2 * keyLen + 2 * ivLen;
    if total == 0 {
      return None;
    }
    var block := PRF(s.prf, master, KEY_EXPANSION_LABEL, seed, total).value;
    var km := KeyMaterial([], [], [], [], [], []);
    var pair, off := TakePair(block, 0, macLen);
    km := km.(clientMac := pair.0, serverMac := pair.1);
    pair, off := TakePair(block, off, keyLen);
    km := km.(clientKey := pair.0, serverKey := pair.1);
    pair, off := TakePair(block, off, ivLen);
    km := km.(clientIv := pair.0, serverIv := pair.1);
    assert block[off - ivLen..off] == block[off - ivLen..];
    SlicesPartition(block, macLen, keyLen, ivLen);
    BlockFromStream(km, s, master, seed, total, macLen, keyLen, ivLen);
    r := Some(km);
  }

  /** `copy` into a 32-byte half of the seed. */
  function Fit32(x: seq<byte>): (r: seq<byte>)
    ensures |r| == 32
    ensures |x| == 32 ==> r == x
  {
    if |x| >= 32 then x[..32] else x + seq(32 - |x|, _ => 0)
  }

  /** The second copy, in the handshake package, with its override of the IV
      length: it classifies the suite itself. */
  method ExpandKeys(s: Suite, master: seq<byte>, clientRandom: seq<byte>, serverRandom: seq<byte>)
    returns (r: Option<KeyMaterial>)
    requires s.prf.Sound()
    ensures |clientRandom| == 32 && |serverRandom| == 32 ==>
              (r.None? <==> KeyBlockLen(s) == 0)
    ensures |clientRandom| == 32 && |serverRandom| == 32 && r.Some? ==>
              IsPartition(r.value, s, KeyBlock(s, master, clientRandom, serverRandom).value)
              && FromStream(r.value, s, master, serverRandom + clientRandom)
  {
    hide FromStream;
    var ivLen := s.cipher.fixedIvLen;
    var isCbc := !s.cipher.aead && s.cipher.name != "GOST28147-CNT"
                 && s.cipher.name != "KUZNYECHIK-CTR-OMAC" && s.cipher.name != "MAGMA-CTR-OMAC";
    if isCbc {
      ivLen := 0;
    }
    var total := 2 * s.macKeyLen + 2 * s.cipher.keyLen + 2 * ivLen;
    if total == 0 {
      return None;
    }
    r := ExpandKeysManual(s, master, clientRandom, serverRandom, ivLen);
  }

  method ExpandKeysManual(s: Suite, master: seq<byte>, clientRandom: seq<byte>, serverRandom: seq<byte>, ivLen: nat)
    returns (r: Option<KeyMaterial>)
    requires s.prf.Sound()
    ensures r.None? <==> s.macKeyLen + s.cipher.keyLen + ivLen == 0
    ensures r.Some? ==>
              Splits(r.value, s.macKeyLen, s.cipher.keyLen, ivLen,
                     PRF(s.prf, master, KEY_EXPANSION_LABEL, Fit32(serverRandom) + Fit32(clientRandom),
                         2 * s.macKeyLen + 2 * s.cipher.keyLen + 2 * ivLen).value)
    ensures r.Some? ==> FromStream(r.value, s, master, Fit32(serverRandom) + Fit32(clientRandom))
  {
    hide PRF, Splits, KeyBlockIvLen, Fit32, FromStream;
    var seed := Fit32(serverRandom) + Fit32(clientRandom);
    var macLen, keyLen := s.macKeyLen, s.cipher.keyLen;
    var total := 2 * macLen + 2 * keyLen + 2 * ivLen;
    if total == 0 {
      return None;
    }
    var block := PRF(s.prf, master, KEY_EXPANSION_LABEL, seed, total).value;
    var km := KeyMaterial([], [], [], [], [], []);
    var pair, off := TakePair(block, 0, macLen);
    km := km.(clientMac := pair.0, serverMac := pair.1);
    pair, off := TakePair(block, off, keyLen);
    km := km.(clientKey := pair.0, serverKey := pair.1);
    pair, off := TakePair(block, off, ivLen);
    km := km.(clientIv := pair.0, serverIv := pair.1);
    assert block[off - ivLen..off] == block[off - ivLen..];
    SlicesPartition(block, macLen, keyLen, ivLen);
    BlockFromStream(km, s, master, seed, total, macLen, keyLen, ivLen);
    r := Some(km);
  }

  /** The two copies agree on every suite and every pair of 32-byte randoms. */
  method ExpansionsAgree(s: Suite, master: seq<byte>, clientRandom: seq<byte>, serverRandom: seq<byte>)
    returns (a: Option<KeyMaterial>, b: Option<KeyMaterial>)
    requires s.prf.Sound() && |clientRandom| == 32 && |serverRandom| == 32
    ensures a == b && (a.Some? <==> KeyBlockLen(s) > 0)
    ensures a.Some? ==> IsPartition(a.value, s, KeyBlock(s, master, clientRandom, serverRandom).value)
    ensures a.Some? ==> FromStream(a.value, s, master, serverRandom + clientRandom)
  {
    hide IsPartition, StreamPrefix, FromStream;
    a := KeyExpansion(s, master, clientRandom, serverRandom);
    b := ExpandKeys(s, master, clientRandom, serverRandom);
    if a.Some? {
      PartitionUnique(a.value, b.value, s, KeyBlock(s, master, clientRandom, serverRandom).value);
    }
  }
}
