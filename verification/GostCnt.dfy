/** GOST 28147-89 counter mode with key meshing: the stream cipher whose state
    survives from record to record. */
module GostCnt {
  import opened Bytes
  import opened Gost28147

  const WORD: nat := 0x1_0000_0000
  const C1: nat := 0x01010101
  const C2: nat := 0x01010104

  // ---- The counter --------------------------------------------------------

  function LeWord(b: Block, off: nat): (w: nat)
    requires off == 0 || off == 4
    ensures w < WORD
  {
    (b[off] as int) + 256 * (b[off + 1] as int) + 0x1_0000 * (b[off + 2] as int) + 0x100_0000 * (b[off + 3] as int)
  }

  function LeBytes(w: nat): (r: seq<byte>)
    ensures |r| == 4
  {
    [w % 256, w / 256 % 256, w / 0x1_0000 % 256, w / 0x100_0000 % 256]
  }

  lemma LeWordBytes(lo: nat, hi: nat)
    requires lo < WORD && hi < WORD
    ensures LeWord(LeBytes(lo) + LeBytes(hi), 0) == lo
    ensures LeWord(LeBytes(lo) + LeBytes(hi), 4) == hi
  {
    LeWordOfBytes(lo);
    LeWordOfBytes(hi);
  }

  lemma LeWordOfBytes(w: nat)
    requires w < WORD
    ensures var r := LeBytes(w);
            (r[0] as int) + 256 * (r[1] as int) + 0x1_0000 * (r[2] as int) + 0x100_0000 * (r[3] as int) == w
  {
    assert w / 256 / 256 == w / 0x1_0000 && w / 0x1_0000 / 256 == w / 0x100_0000;
  }

  /** Addition of the second constant: the carry out of the top is added back. */
  function EndAroundAdd(w: nat): (r: nat)
    requires w < WORD
    ensures r < WORD
  {
    var sum := (w + C2) % WORD;
    if w > sum then (sum + 1) % WORD else sum
  }

  function CounterStep(b: Block): (r: Block)
  {
    LeBytes((LeWord(b, 0) + C1) % WORD) + LeBytes(EndAroundAdd(LeWord(b, 4)))
  }

  function Steps(b: Block, i: nat): (r: Block)
  {
    if i == 0 then b else CounterStep(Steps(b, i - 1))
  }

  /** The representative of `v` modulo 2^32 - 1 in 1 .. 2^32 - 1. */
  function NonzeroResidue(v: nat): (r: nat)
    requires v > 0
    ensures 1 <= r < WORD
  {
    (v - 1) % (WORD - 1) + 1
  }

  lemma EndAroundAddIsResidue(w: nat)
    requires w < WORD
    ensures EndAroundAdd(w) == NonzeroResidue(w + C2)
  {
  }

  lemma ResidueAdds(v: nat)
    requires v > 0
    ensures NonzeroResidue(NonzeroResidue(v) + C2) == NonzeroResidue(v + C2)
  {
    var m := WORD - 1;
    assert (v - 1 + C2) % m == ((v - 1) % m + C2) % m;
  }

  /** One step, read off the two words of the counter. */
  lemma CounterStepWords(b: Block)
    ensures LeWord(CounterStep(b), 0) == (LeWord(b, 0) + C1) % WORD
    ensures LeWord(CounterStep(b), 4) == NonzeroResidue(LeWord(b, 4) + C2)
  {
    LeWordBytes((LeWord(b, 0) + C1) % WORD, EndAroundAdd(LeWord(b, 4)));
    EndAroundAddIsResidue(LeWord(b, 4));
  }

  lemma SumResidue(v: nat, d: nat)
    ensures (v % WORD + d) % WORD == (v + d) % WORD
  {
  }

  /** Closed form of the counter: the low word is a sum modulo 2^32, the high
      word a sum modulo 2^32 - 1 that never becomes zero. */
  lemma {:induction false} StepsClosedForm(b: Block, i: nat)
    requires i > 0
    ensures LeWord(Steps(b, i), 0) == (LeWord(b, 0) + i * C1) % WORD
    ensures LeWord(Steps(b, i), 4) == NonzeroResidue(LeWord(b, 4) + i * C2)
  {
    CounterStepWords(Steps(b, i - 1));
    if i > 1 {
      StepsClosedForm(b, i - 1);
      SumResidue(LeWord(b, 0) + (i - 1) * C1, C1);
      ResidueAdds(LeWord(b, 4) + (i - 1) * C2);
    }
  }

  /** Counter blocks that lie fewer than 128 steps apart differ. */
  lemma StepsDistinct(b: Block, i: nat, j: nat)
    requires 0 < i < j <= i + SECTION - 1
    ensures Steps(b, i) != Steps(b, j)
  {
    StepsClosedForm(b, i);
    StepsClosedForm(b, j);
    var w := LeWord(b, 0) + i * C1;
    assert j * C1 == i * C1 + (j - i) * C1;
    ShiftChangesResidue(w, (j - i) * C1);
  }

  lemma ShiftChangesResidue(w: nat, d: nat)
    requires 0 < d < WORD
    ensures w % WORD != (w + d) % WORD
  {
  }

  // ---- The keystream ------------------------------------------------------

  /** The counter block encrypted for gamma block `n`. At the start of a section,
      the very first one included, the previous block is encrypted first. */
  function CounterAt(c: Cipher, key0: Key, iv0: Block, n: nat): (r: Block)
  {
    CounterStep(CounterBefore(c, key0, iv0, n))
  }

  function CounterBefore(c: Cipher, key0: Key, iv0: Block, n: nat): (r: Block)
  {
    var previous := if n == 0 then iv0 else CounterStep(CounterBefore(c, key0, iv0, n - 1));
    if n % SECTION == 0 then c.encrypt(KeyAt(c, key0, n), previous) else previous
  }

  function Gamma(c: Cipher, key0: Key, iv0: Block, n: nat): (r: Block)
  {
    c.encrypt(KeyAt(c, key0, n), CounterAt(c, key0, iv0, n))
  }

  function KeystreamByte(c: Cipher, key0: Key, iv0: Block, k: nat): (r: byte)
  {
    Gamma(c, key0, iv0, k / 8)[k % 8]
  }

  function Keystream(c: Cipher, key0: Key, iv0: Block): (r: nat -> byte)
  {
    k => KeystreamByte(c, key0, iv0, k)
  }

  lemma {:induction false} SectionIsSteps(c: Cipher, key0: Key, iv0: Block, s: nat, i: nat)
    requires i < SECTION
    ensures CounterAt(c, key0, iv0, s * SECTION + i)
         == Steps(CounterBefore(c, key0, iv0, s * SECTION), i + 1)
  {
    hide CounterStep, KeyAt;
    var n := s * SECTION + i;
    DivModUnique(n, s, i, SECTION);
    if i == 0 {
      assert Steps(CounterBefore(c, key0, iv0, n), 0) == CounterBefore(c, key0, iv0, n);
    } else {
      SectionIsSteps(c, key0, iv0, s, i - 1);
      assert CounterBefore(c, key0, iv0, n) == CounterAt(c, key0, iv0, n - 1);
    }
  }

  /** Within a meshing section no counter block repeats, and since the block
      cipher is invertible no gamma block does. */
  lemma SectionBlocksDistinct(c: Cipher, key0: Key, iv0: Block, s: nat, i: nat, j: nat)
    requires i < j < SECTION
    requires Decrypts(c)
    ensures CounterAt(c, key0, iv0, s * SECTION + i) != CounterAt(c, key0, iv0, s * SECTION + j)
    ensures Gamma(c, key0, iv0, s * SECTION + i) != Gamma(c, key0, iv0, s * SECTION + j)
  {
    SectionIsSteps(c, key0, iv0, s, i);
    SectionIsSteps(c, key0, iv0, s, j);
    StepsDistinct(CounterBefore(c, key0, iv0, s * SECTION), i + 1, j + 1);
    SameKeyInSection(c, key0, s, i);
    SameKeyInSection(c, key0, s, j);
    var k := KeyAt(c, key0, s * SECTION);
    var x, y := CounterAt(c, key0, iv0, s * SECTION + i), CounterAt(c, key0, iv0, s * SECTION + j);
    assert c.decrypt(k, c.encrypt(k, x)) == x && c.decrypt(k, c.encrypt(k, y)) == y;
  }

  lemma {:induction false} SameKeyInSection(c: Cipher, key0: Key, s: nat, i: nat)
    requires i < SECTION
    ensures KeyAt(c, key0, s * SECTION + i) == KeyAt(c, key0, s * SECTION)
  {
    if i > 0 {
      assert (s * SECTION + i) % SECTION == i;
      KeyAtStep(c, key0, s * SECTION + i);
      SameKeyInSection(c, key0, s, i - 1);
    }
  }

  /** What eight zeros become at block `n`. */
  function OnZeros(c: Cipher, key0: Key, iv0: Block, n: nat): (r: Block)
  {
    XorStream(Keystream(c, key0, iv0), 8 * n, [0, 0, 0, 0, 0, 0, 0, 0])
  }

  lemma OnZerosIsGamma(c: Cipher, key0: Key, iv0: Block, n: nat)
    ensures OnZeros(c, key0, iv0, n) == Gamma(c, key0, iv0, n)
  {
    hide XorByte, Gamma;
    forall i | 0 <= i < 8 ensures OnZeros(c, key0, iv0, n)[i] == Gamma(c, key0, iv0, n)[i] {
      XorZero(KeystreamByte(c, key0, iv0, 8 * n + i));
      BlockIndex(n, i);
    }
  }

  /** Counter `g` is `i` steps behind `b`: of the two little-endian words the
      first grows by 0x01010101 modulo 2^32, the second by 0x01010104 modulo
      2^32 - 1 within 1 to 2^32 - 1. */
  predicate StepsAway(b: Block, g: Block, i: nat)
    requires i > 0
  {
    && FromBigEndian([g[3], g[2], g[1], g[0]])
       == (FromBigEndian([b[3], b[2], b[1], b[0]]) + i * 0x01010101) % 0x1_0000_0000
    && FromBigEndian([g[7], g[6], g[5], g[4]])
       == (FromBigEndian([b[7], b[6], b[5], b[4]]) + i * 0x01010104 - 1) % 0xFFFF_FFFF + 1
  }

  lemma StepsRead(b: Block, i: nat)
    requires i > 0
    ensures StepsAway(b, Steps(b, i), i)
  {
    hide FromBigEndian, LeWord, Steps;
    StepsClosedForm(b, i);
    WordsRead(b);
    WordsRead(Steps(b, i));
  }

  /** The words are little-endian. */
  lemma WordsRead(b: Block)
    ensures LeWord(b, 0) == FromBigEndian([b[3], b[2], b[1], b[0]])
    ensures LeWord(b, 4) == FromBigEndian([b[7], b[6], b[5], b[4]])
  {
    FourBytes(b[3], b[2], b[1], b[0]);
    FourBytes(b[7], b[6], b[5], b[4]);
  }

  lemma FourBytes(x: byte, y: byte, z: byte, w: byte)
    ensures FromBigEndian([x, y, z, w]) == ((x as int * 256 + y) * 256 + z) * 256 + w
  {
    assert [x, y, z, w][..3] == [x, y, z] && [x, y, z][..2] == [x, y] && [x, y][..1] == [x] && [x][..0] == [];
    assert FromBigEndian([x]) == x;
    assert FromBigEndian([x, y]) == x as int * 256 + y;
    assert FromBigEndian([x, y, z]) == (x as int * 256 + y) * 256 + z;
  }

  /** What the counters of section `s` start from, told by the keystream: the
      encryption, under the section's key, of the counter decrypted from the
      block before it, or of the initial value. */
  function SectionSeed(c: Cipher, key0: Key, iv0: Block, s: nat): (r: Block)
  {
    if s == 0 then c.encrypt(key0, iv0)
    else c.encrypt(KeyAt(c, key0, 128 * s),
                   c.decrypt(KeyAt(c, key0, 128 * (s - 1)), OnZeros(c, key0, iv0, 128 * s - 1)))
  }

  /** Block `i` of section `s`, decrypted under the section's key, is the
      counter `i + 1` steps behind the seed of the section. */
  lemma SectionKeystream(c: Cipher, key0: Key, iv0: Block, s: nat, i: nat)
    requires Decrypts(c) && i < 128
    ensures StepsAway(SectionSeed(c, key0, iv0, s),
                      c.decrypt(KeyAt(c, key0, 128 * s), OnZeros(c, key0, iv0, 128 * s + i)), i + 1)
  {
    hide OnZeros, KeyAt, CounterAt, CounterBefore, Steps, Decrypts, StepsAway, SectionSeed;
    ShownStart(c, key0, iv0, s);
    ShownCounter(c, key0, iv0, s, i);
    SectionIsSteps(c, key0, iv0, s, i);
    StepsRead(CounterBefore(c, key0, iv0, s * SECTION), i + 1);
  }

  lemma ShownStart(c: Cipher, key0: Key, iv0: Block, s: nat)
    requires Decrypts(c)
    ensures CounterBefore(c, key0, iv0, s * SECTION) == SectionSeed(c, key0, iv0, s)
  {
    hide OnZeros, CounterAt, CounterBefore, Decrypts;
    SectionStart(c, key0, iv0, s);
    if s > 0 {
      ShownCounter(c, key0, iv0, s - 1, 127);
    }
  }

  lemma ShownCounter(c: Cipher, key0: Key, iv0: Block, s: nat, i: nat)
    requires Decrypts(c) && i < SECTION
    ensures c.decrypt(KeyAt(c, key0, s * SECTION), OnZeros(c, key0, iv0, s * SECTION + i))
         == CounterAt(c, key0, iv0, s * SECTION + i)
  {
    hide KeyAt, CounterAt, OnZeros;
    OnZerosIsGamma(c, key0, iv0, s * SECTION + i);
    SameKeyInSection(c, key0, s, i);
  }

  lemma SectionStart(c: Cipher, key0: Key, iv0: Block, s: nat)
    ensures var previous := if s == 0 then iv0 else CounterAt(c, key0, iv0, s * SECTION - 1);
            CounterBefore(c, key0, iv0, s * SECTION) == c.encrypt(KeyAt(c, key0, s * SECTION), previous)
  {
    hide KeyAt, CounterStep;
    DivModUnique(s * SECTION, s, 0, SECTION);
  }

  // ---- The stateful cipher ------------------------------------------------

  datatype State = State(key: Key, iv: Block, buf: Block, num: nat, count: nat)

  /** Every field of the cipher after `pos` keystream bytes: gamma block
      `(pos - 1) / 8` is the last one generated. */
  function StateAt(c: Cipher, key0: Key, iv0: Block, pos: nat): (r: State)
  {
    if pos == 0 then State(key0, iv0, ZERO_BLOCK, 0, 0)
    else
      var n := (pos - 1) / 8;
      State(KeyAt(c, key0, n), CounterAt(c, key0, iv0, n), Gamma(c, key0, iv0, n),
            pos % 8, CountAfter(n + 1))
  }

  /** One call of `nextGamma` on the fields. */
  function NextState(c: Cipher, st: State): (r: State)
  {
    var mesh := st.count == MESH_THRESHOLD;
    var key := if mesh then MeshedKey(c, st.key) else st.key;
    var iv := if mesh then c.encrypt(key, st.iv) else st.iv;
    var counter := CounterStep(if st.count == 0 then c.encrypt(key, iv) else iv);
    State(key, counter, c.encrypt(key, counter), st.num, st.count % MESH_THRESHOLD + 8)
  }

  /** Gamma block `n` is generated from the state left by block `n - 1`: the
      initial encryption happens at block 0 only, meshing at every 128th. */
  lemma NextStateAt(c: Cipher, key0: Key, iv0: Block, n: nat)
    ensures NextState(c, StateAt(c, key0, iv0, 8 * n)) == StateAt(c, key0, iv0, 8 * n + 1).(num := 0)
  {
    hide CounterStep, CountAfter, MeshedKey;
    CountStep(n);
    BlockIndex(n, 1);
    BlockIndex(n, 0);
    if n > 0 {
      BlockIndex(n - 1, 8);
      KeyAtStep(c, key0, n);
      assert CounterBefore(c, key0, iv0, n) ==
             if n % SECTION == 0 then c.encrypt(KeyAt(c, key0, n), CounterAt(c, key0, iv0, n - 1))
             else CounterAt(c, key0, iv0, n - 1);
    }
  }

  lemma BlockIndex(n: nat, m: nat)
    requires m <= 8
    ensures (8 * n + m) % 8 == m % 8
    ensures m < 8 ==> (8 * n + m) / 8 == n
    ensures m > 0 ==> (8 * n + m - 1) / 8 == n
  {
  }

  /** While gamma block `n` lasts only `num` moves, and the keystream is read
      from the buffered block. */
  lemma WithinBlock(c: Cipher, key0: Key, iv0: Block, n: nat, m: nat)
    requires m <= 8
    ensures StateAt(c, key0, iv0, 8 * n + m).num == m % 8
    ensures m > 0 ==> StateAt(c, key0, iv0, 8 * n + m) == StateAt(c, key0, iv0, 8 * n + 1).(num := m % 8)
    ensures m < 8 ==> KeystreamByte(c, key0, iv0, 8 * n + m) == StateAt(c, key0, iv0, 8 * n + 1).buf[m]
  {
    hide Gamma, CounterAt, CountAfter;
    BlockIndex(n, m);
    BlockIndex(n, 1);
  }

  class Cnt {
    const c: Cipher
    var key: Key
    var iv: Block
    var buf: Block
    var num: nat
    var count: nat
    ghost const key0: Key
    ghost const iv0: Block
    ghost var pos: nat

    ghost function Fields(): State
      reads this
    {
      State(key, iv, buf, num, count)
    }

    ghost predicate Valid()
      reads this
    {
      Fields() == StateAt(c, key0, iv0, pos)
    }

    constructor (c: Cipher, key: Key, iv: Block)
      ensures Valid() && pos == 0
      ensures this.c == c && key0 == key && iv0 == iv
    {
      this.c, this.key, this.iv := c, key, iv;
      buf, num, count := ZERO_BLOCK, 0, 0;
      key0, iv0, pos := key, iv, 0;
    }

    /** Replaces the key and re-encrypts the counter under the new one. */
    method Mesh()
      modifies this`key, this`iv
      ensures key == MeshedKey(c, old(key))
      ensures iv == c.encrypt(key, old(iv))
      ensures Encrypts(c) ==> MeshesTo(c, old(key), key)
    {
      key := MeshKey(c, key);
      iv := c.encrypt(key, iv);
    }

    method NextGamma()
      modifies this`key, this`iv, this`buf, this`count
      ensures Fields() == NextState(c, old(Fields()))
    {
      hide CounterStep, MeshedKey;
      if count == MESH_THRESHOLD {
        Mesh();
      }
      var block := iv;
      if count == 0 {
        block := c.encrypt(key, iv);
      }
      iv := StepCounter(block);
      buf := c.encrypt(key, iv);
      count := count % MESH_THRESHOLD + 8;
    }

    static method StepCounter(block: Block) returns (r: Block)
      ensures r == CounterStep(block)
    {
      var g := (LeWord(block, 0) + C1) % WORD;
      var g2old := LeWord(block, 4);
      var g2 := (g2old + C2) % WORD;
      if g2old > g2 {
        g2 := (g2 + 1) % WORD;
      }
      r := LeBytes(g) + LeBytes(g2);
    }

    /** The inner loop: uses up gamma bytes from `num` on until the block or the
        input ends. */
    method Drain(dst: array<byte>, src: array<byte>, start: nat) returns (i: nat)
      requires num < 8 && start < src.Length <= dst.Length
      modifies this`num, dst
      ensures start < i <= src.Length && num == old(num) + (i - start)
      ensures num == 8 || (num < 8 && i == src.Length)
      ensures forall k :: start <= k < i ==> dst[k] == XorByte(old(src[k]), buf[old(num) + (k - start)])
      ensures forall k :: 0 <= k < dst.Length && !(start <= k < i) ==> dst[k] == old(dst[k])
      ensures forall k :: i <= k < src.Length ==> src[k] == old(src[k])
    {
      hide XorByte;
      i := start;
      while num < 8 && i < src.Length
        invariant start <= i <= src.Length && num == old(num) + (i - start) <= 8
        invariant forall k :: start <= k < i ==> dst[k] == XorByte(old(src[k]), buf[old(num) + (k - start)])
        invariant forall k :: 0 <= k < dst.Length && !(start <= k < i) ==> dst[k] == old(dst[k])
        invariant forall k :: i <= k < src.Length ==> src[k] == old(src[k])
      {
        dst[i] := XorByte(src[i], buf[num]);
        num := num + 1;
        i := i + 1;
      }
    }

    /** One round of the outer loop, on what is left of one gamma block. */
    method XORBlock(dst: array<byte>, src: array<byte>, start: nat) returns (i: nat)
      requires Valid() && start < src.Length <= dst.Length
      modifies this, dst
      ensures start < i <= src.Length && Valid() && pos == old(pos) + (i - start)
      ensures forall k :: start <= k < i ==>
                dst[k] == XorByte(old(src[k]), KeystreamByte(c, key0, iv0, old(pos) + (k - start)))
      ensures forall k :: 0 <= k < dst.Length && !(start <= k < i) ==> dst[k] == old(dst[k])
      ensures forall k :: i <= k < src.Length ==> src[k] == old(src[k])
    {
      hide StateAt, KeystreamByte, NextState, XorByte;
      ghost var n, m := pos / 8, pos % 8;
      WithinBlock(c, key0, iv0, n, m);
      NextStateAt(c, key0, iv0, n);
      if num == 0 {
        NextGamma();
      }
      ghost var block := StateAt(c, key0, iv0, 8 * n + 1);
      assert Fields() == block.(num := m);
      i := Drain(dst, src, start);
      ghost var used := i - start;
      forall k | start <= k < i
        ensures dst[k] == XorByte(old(src[k]), KeystreamByte(c, key0, iv0, old(pos) + (k - start)))
      {
        WithinBlock(c, key0, iv0, n, m + (k - start));
        assert 8 * n + (m + (k - start)) == old(pos) + (k - start);
      }
      WithinBlock(c, key0, iv0, n, m + used);
      pos := pos + used;
      if num == 8 {
        num := 0;
      }
    }

    /** `dst` and `src` may be the same array. */
    method XORKeyStream(dst: array<byte>, src: array<byte>)
      requires Valid()
      requires dst.Length >= src.Length
      modifies this, dst
      ensures Valid() && pos == old(pos) + src.Length
      ensures dst[..src.Length] == XorStream(Keystream(c, key0, iv0), old(pos), old(src[..]))
      ensures forall k :: src.Length <= k < dst.Length ==> dst[k] == old(dst[k])
    {
      hide StateAt, KeystreamByte, XorByte;
      var i := 0;
      ghost var input := src[..];
      while i < src.Length
        invariant 0 <= i <= src.Length
        invariant Valid() && pos == old(pos) + i
        invariant forall k :: 0 <= k < i ==>
                    dst[k] == XorByte(input[k], KeystreamByte(c, key0, iv0, old(pos) + k))
        invariant forall k :: i <= k < src.Length ==> src[k] == input[k]
        invariant forall k :: src.Length <= k < dst.Length ==> dst[k] == old(dst[k])
      {
        ghost var from, at := i, pos;
        i := XORBlock(dst, src, i);
        forall k | from <= k < i
          ensures dst[k] == XorByte(input[k], KeystreamByte(c, key0, iv0, old(pos) + k))
        {
          assert at + (k - from) == old(pos) + k;
        }
      }
    }
  }
}
