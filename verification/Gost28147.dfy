/** The GOST 28147-89 primitives that the record protector is built on, and the
    CryptoPro key meshing of section 2.3.2 of RFC 4357. */
module Gost28147 {
  import opened Bytes

  type Block = b: seq<byte> | |b| == 8 witness [0, 0, 0, 0, 0, 0, 0, 0]
  type Key = k: seq<byte> | |k| == 32 witness seq(32, _ => 0)

  /** The block cipher, with its S-box fixed. `mac16` is the 16-round MAC step.
      Nothing is assumed of the three functions unless a lemma says so. */
  datatype Cipher = Cipher(
    encrypt: (Key, Block) -> Block,
    decrypt: (Key, Block) -> Block,
    mac16: (Key, Block) -> Block)

  const ZERO_BLOCK: Block := [0, 0, 0, 0, 0, 0, 0, 0]

  /** Bytes processed under one key, as bytes and as 8-byte blocks. */
  const MESH_THRESHOLD: nat := 1024
  const SECTION: nat := 128

  const MESHING_KEY: Key :=
    [0x69, 0x00, 0x72, 0x22, 0x64, 0xC9, 0x04, 0x23,
     0x8D, 0x3A, 0xDB, 0x96, 0x46, 0xE9, 0x2A, 0xC4,
     0x18, 0xFE, 0xAC, 0x94, 0x00, 0xED, 0x07, 0x12,
     0xC0, 0x86, 0xDC, 0xC2, 0xEF, 0x4C, 0xA9, 0x2B]

  /** The ECB decryption of the meshing constant under the current key. */
  function MeshedKey(c: Cipher, k: Key): (r: Key)
  {
    c.decrypt(k, MESHING_KEY[0..8]) + c.decrypt(k, MESHING_KEY[8..16])
    + c.decrypt(k, MESHING_KEY[16..24]) + c.decrypt(k, MESHING_KEY[24..32])
  }

  /** Encryption undoes decryption. */
  ghost predicate Encrypts(c: Cipher)
  {
    forall k: Key, b: Block :: c.encrypt(k, c.decrypt(k, b)) == b
  }

  /** Decryption undoes encryption. */
  ghost predicate Decrypts(c: Cipher)
  {
    forall k: Key, b: Block :: c.decrypt(k, c.encrypt(k, b)) == b
  }

  /** Encrypting the four blocks of `next` under `k` gives the constant of
      section 2.3.2 of RFC 4357. */
  predicate MeshesTo(c: Cipher, k: Key, next: Key)
  {
    && c.encrypt(k, next[0..8]) == [0x69, 0x00, 0x72, 0x22, 0x64, 0xC9, 0x04, 0x23]
    && c.encrypt(k, next[8..16]) == [0x8D, 0x3A, 0xDB, 0x96, 0x46, 0xE9, 0x2A, 0xC4]
    && c.encrypt(k, next[16..24]) == [0x18, 0xFE, 0xAC, 0x94, 0x00, 0xED, 0x07, 0x12]
    && c.encrypt(k, next[24..32]) == [0xC0, 0x86, 0xDC, 0xC2, 0xEF, 0x4C, 0xA9, 0x2B]
  }

  /** The meshed key encrypts to the constant, and under a permutation it is the
      only one that does. */
  lemma MeshedKeyIff(c: Cipher, k: Key, next: Key)
    requires Encrypts(c)
    ensures next == MeshedKey(c, k) ==> MeshesTo(c, k, next)
    ensures Decrypts(c) && MeshesTo(c, k, next) ==> next == MeshedKey(c, k)
  {
    var m := MeshedKey(c, k);
    ConstantBlocks();
    assert m[0..8] == c.decrypt(k, MESHING_KEY[0..8]) && m[8..16] == c.decrypt(k, MESHING_KEY[8..16]);
    assert m[16..24] == c.decrypt(k, MESHING_KEY[16..24]) && m[24..32] == c.decrypt(k, MESHING_KEY[24..32]);
    if Decrypts(c) && MeshesTo(c, k, next) {
      assert next == next[0..8] + next[8..16] + next[16..24] + next[24..32];
      assert c.decrypt(k, c.encrypt(k, next[0..8])) == next[0..8];
      assert c.decrypt(k, c.encrypt(k, next[8..16])) == next[8..16];
      assert c.decrypt(k, c.encrypt(k, next[16..24])) == next[16..24];
      assert c.decrypt(k, c.encrypt(k, next[24..32])) == next[24..32];
    }
  }

  lemma ConstantBlocks()
    ensures MESHING_KEY[0..8] == [0x69, 0x00, 0x72, 0x22, 0x64, 0xC9, 0x04, 0x23]
    ensures MESHING_KEY[8..16] == [0x8D, 0x3A, 0xDB, 0x96, 0x46, 0xE9, 0x2A, 0xC4]
    ensures MESHING_KEY[16..24] == [0x18, 0xFE, 0xAC, 0x94, 0x00, 0xED, 0x07, 0x12]
    ensures MESHING_KEY[24..32] == [0xC0, 0x86, 0xDC, 0xC2, 0xEF, 0x4C, 0xA9, 0x2B]
  {
    var k := MESHING_KEY;
    assert k[0..8] == [k[0], k[1], k[2], k[3], k[4], k[5], k[6], k[7]];
    assert k[8..16] == [k[8], k[9], k[10], k[11], k[12], k[13], k[14], k[15]];
    assert k[16..24] == [k[16], k[17], k[18], k[19], k[20], k[21], k[22], k[23]];
    assert k[24..32] == [k[24], k[25], k[26], k[27], k[28], k[29], k[30], k[31]];
  }

  /** The loop that fills the new key four blocks at a time. */
  method MeshKey(c: Cipher, key: Key) returns (newKey: Key)
    ensures newKey == MeshedKey(c, key)
    ensures Encrypts(c) ==> MeshesTo(c, key, newKey)
  {
    if Encrypts(c) {
      MeshedKeyIff(c, key, MeshedKey(c, key));
    }
    hide MeshesTo;
    var acc: seq<byte> := [];
    for j := 0 to 4
      invariant |acc| == 8 * j
      invariant acc == MeshedKey(c, key)[..8 * j]
    {
      acc := acc + c.decrypt(key, MESHING_KEY[j * 8..(j + 1) * 8]);
    }
    newKey := acc;
  }

  /** The key in force for block `n` of either stream: it has been meshed once
      for every completed section of 128 blocks. */
  function KeyAt(c: Cipher, key0: Key, n: nat): (r: Key)
  {
    if n < SECTION then key0 else MeshedKey(c, KeyAt(c, key0, n - SECTION))
  }

  /** Consecutive blocks share a key except at a section boundary. */
  lemma {:induction false} KeyAtStep(c: Cipher, key0: Key, n: nat)
    requires n > 0
    ensures KeyAt(c, key0, n) ==
            if n % SECTION == 0 then MeshedKey(c, KeyAt(c, key0, n - 1)) else KeyAt(c, key0, n - 1)
  {
    if n > SECTION {
      KeyAtStep(c, key0, n - SECTION);
    }
  }

  /** The key of every section encrypts, block by block, to the constant under
      the key of the section before. */
  lemma SectionKeys(c: Cipher, key0: Key, s: nat)
    requires Encrypts(c)
    ensures KeyAt(c, key0, 0) == key0
    ensures MeshesTo(c, KeyAt(c, key0, 128 * s), KeyAt(c, key0, 128 * (s + 1)))
  {
    hide MeshesTo, MeshedKey;
    MeshedKeyIff(c, KeyAt(c, key0, 128 * s), KeyAt(c, key0, 128 * (s + 1)));
  }

  /** The value of the source's `count` field once `n` blocks were processed. */
  function CountAfter(n: nat): (r: nat)
    ensures r == 0 <==> n == 0
    ensures n > 0 ==> (r == MESH_THRESHOLD <==> n % SECTION == 0) && 8 <= r <= MESH_THRESHOLD
  {
    if n == 0 then 0 else ((n - 1) % SECTION + 1) * 8
  }

  /** `count % 1024 + 8` moves from one value of `CountAfter` to the next. */
  lemma CountStep(n: nat)
    ensures CountAfter(n) % MESH_THRESHOLD + 8 == CountAfter(n + 1)
  {
    if n > 0 && n % SECTION == 0 {
      assert CountAfter(n) == MESH_THRESHOLD;
    }
  }
}
