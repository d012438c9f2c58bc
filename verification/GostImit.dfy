/** The GOST 28147-89 IMIT message authentication code with key meshing, whose
    state is carried from record to record. */
module GostImit {
  import opened Bytes
  import opened Gost28147

  // ---- Reference ----------------------------------------------------------

  /** Chaining value after the first `n` blocks of `fed`, block `j` being
      processed under the key of section `j / 128`. */
  function Chain(c: Cipher, key0: Key, fed: seq<byte>, n: nat): (r: Block)
    requires 8 * n <= |fed|
  {
    if n == 0 then ZERO_BLOCK
    else c.mac16(KeyAt(c, key0, n - 1), XorSeq(Chain(c, key0, fed, n - 1), fed[8 * (n - 1)..8 * n]))
  }

  /** Zeros up to a whole number of blocks. */
  function Padded(fed: seq<byte>): (r: seq<byte>)
    ensures |r| % 8 == 0 && fed <= r && |r| < |fed| + 8
    ensures forall j :: |fed| <= j < |r| ==> r[j] == 0
  {
    fed + seq((8 - |fed| % 8) % 8, _ => 0)
  }

  /** The code of a whole message, computed in one pass over the padded input. */
  function OneShot(c: Cipher, key0: Key, fed: seq<byte>): (tag: seq<byte>)
    ensures |tag| == 4
  {
    Chain(c, key0, Padded(fed), |Padded(fed)| / 8)[..4]
  }

  /** The first blocks of a message, written out: each one is combined with the
      code so far before the MAC step. */
  lemma FirstBlocks(c: Cipher, key0: Key, b0: Block, b1: Block)
    ensures OneShot(c, key0, []) == [0, 0, 0, 0]
    ensures OneShot(c, key0, b0) == c.mac16(key0, b0)[..4]
    ensures OneShot(c, key0, b0 + b1) == c.mac16(key0, XorSeq(c.mac16(key0, b0), b1))[..4]
  {
    hide XorByte;
    var two := b0 + b1;
    assert Padded([]) == [] && Padded(b0) == b0 && Padded(two) == two;
    assert b0[8 * 0..8 * 1] == b0 && two[8 * 0..8 * 1] == b0 && two[8 * 1..8 * 2] == b1;
    assert XorSeq(ZERO_BLOCK, b0) == b0 by {
      forall i | 0 <= i < 8 ensures XorByte(0, b0[i]) == b0[i] { XorZero(b0[i]); }
    }
    hide XorSeq;
    assert Chain(c, key0, b0, 0) == Chain(c, key0, two, 0) == ZERO_BLOCK;
    assert Chain(c, key0, b0, 1) == c.mac16(key0, b0) && Chain(c, key0, two, 1) == c.mac16(key0, b0);
    assert Chain(c, key0, two, 2) == c.mac16(key0, XorSeq(c.mac16(key0, b0), b1));
  }

  lemma {:induction false} ChainPrefix(c: Cipher, key0: Key, a: seq<byte>, b: seq<byte>, n: nat)
    requires a <= b && 8 * n <= |a|
    ensures Chain(c, key0, a, n) == Chain(c, key0, b, n)
  {
    if n > 0 {
      ChainPrefix(c, key0, a, b, n - 1);
      assert a[8 * (n - 1)..8 * n] == b[8 * (n - 1)..8 * n];
    }
  }

  // ---- State --------------------------------------------------------------

  datatype State = State(key: Key, prev: Block, pending: seq<byte>, count: nat)

  /** Blocks absorbed once `len` bytes were written: the last 1 to 8 bytes wait. */
  function Absorbed(len: nat): (n: nat)
    ensures 8 * n <= len
    ensures len > 0 ==> 8 * n < len <= 8 * n + 8
  {
    if len == 0 then 0 else (len - 1) / 8
  }

  function LastKey(c: Cipher, key0: Key, n: nat): (k: Key)
  {
    if n == 0 then key0 else KeyAt(c, key0, n - 1)
  }

  /** The whole state as a function of the bytes written so far, however they
      were divided over calls of `Write`. */
  function StateAfter(c: Cipher, key0: Key, fed: seq<byte>): (r: State)
  {
    var n := Absorbed(|fed|);
    State(LastKey(c, key0, n), Chain(c, key0, fed, n), fed[8 * n..], CountAfter(n))
  }

  /** Meshing is due exactly when a section is complete. */
  lemma MeshDue(c: Cipher, key0: Key, n: nat)
    ensures KeyAt(c, key0, n) ==
            if CountAfter(n) == MESH_THRESHOLD then MeshedKey(c, LastKey(c, key0, n)) else LastKey(c, key0, n)
    ensures CountAfter(n) % MESH_THRESHOLD + 8 == CountAfter(n + 1)
  {
    CountStep(n);
    if n > 0 {
      KeyAtStep(c, key0, n);
    }
  }

  /** The final step on the pending bytes yields the one-shot code. */
  lemma FinalBlock(c: Cipher, key0: Key, fed: seq<byte>)
    requires fed != []
    ensures var n := Absorbed(|fed|);
            var last := fed[8 * n..] + seq(8 - |fed[8 * n..]|, _ => 0);
            OneShot(c, key0, fed) == c.mac16(KeyAt(c, key0, n), XorSeq(Chain(c, key0, fed, n), last))[..4]
  {
    hide MeshedKey, XorSeq;
    var n := Absorbed(|fed|);
    var p := Padded(fed);
    PaddedBlocks(fed);
    assert p[8 * n..8 * (n + 1)] == fed[8 * n..] + seq(8 - |fed[8 * n..]|, _ => 0);
    ChainPrefix(c, key0, fed, p, n);
  }

  lemma PaddedBlocks(fed: seq<byte>)
    requires fed != []
    ensures |Padded(fed)| == 8 * (Absorbed(|fed|) + 1)
  {
  }

  /** gost-engine MACs one more block, all zeros, after an input of at most 8
      bytes. */
  function EngineTag(c: Cipher, key0: Key, fed: seq<byte>): (tag: seq<byte>)
  {
    if 0 < |fed| <= 8
    then c.mac16(KeyAt(c, key0, 1), XorSeq(Chain(c, key0, Padded(fed), 1), ZERO_BLOCK))[..4]
    else OneShot(c, key0, fed)
  }

  lemma EngineSame(c: Cipher, key0: Key, fed: seq<byte>)
    requires !(0 < |fed| <= 8)
    ensures OneShot(c, key0, fed) == EngineTag(c, key0, fed)
  {
  }

  /** A cipher whose MAC step adds one to the first byte tells them apart. */
  function Bump(k: Key, b: Block): (r: Block)
  {
    [(b[0] as int + 1) % 256] + b[1..]
  }

  const BUMP_CIPHER: Cipher := Cipher((k, b) => b, (k, b) => b, Bump)

  lemma EngineDiffers(fed: seq<byte>)
    requires 0 < |fed| <= 8
    ensures OneShot(BUMP_CIPHER, MESHING_KEY, fed) != EngineTag(BUMP_CIPHER, MESHING_KEY, fed)
  {
    hide Chain, KeyAt, MESHING_KEY, Padded;
    var c, key0 := BUMP_CIPHER, MESHING_KEY;
    PaddedBlocks(fed);
    var first := Chain(c, key0, Padded(fed), 1);
    assert OneShot(c, key0, fed)[0] == first[0];
    XoredZero(first);
    assert EngineTag(c, key0, fed)[0] == (first[0] as int + 1) % 256;
  }

  lemma XoredZero(b: Block)
    ensures XorSeq(b, ZERO_BLOCK)[0] == b[0]
  {
    hide XorByte;
    XorZero(b[0]);
  }

  /** The code agrees with the engine, whatever the cipher, exactly on inputs
      other than 1 to 8 bytes long: the branch that should add the zero block
      tests a count that the data block has already raised. */
  lemma EngineAgreement(fed: seq<byte>)
    ensures (forall c: Cipher, key0: Key :: OneShot(c, key0, fed) == EngineTag(c, key0, fed))
       <==> !(0 < |fed| <= 8)
  {
    hide OneShot, EngineTag;
    if 0 < |fed| <= 8 {
      EngineDiffers(fed);
    } else {
      forall c: Cipher, key0: Key ensures OneShot(c, key0, fed) == EngineTag(c, key0, fed) {
        EngineSame(c, key0, fed);
      }
    }
  }

  // ---- The state a tag leaves ---------------------------------------------

  predicate SameRest(a: Block, b: Block, e: nat)
  {
    forall j :: 0 <= j < 8 && j != e ==> a[j] == b[j]
  }

  function Unit(e: nat, v: byte): (r: Block)
    requires e < 8
  {
    ZERO_BLOCK[e := v]
  }

  /** Keeps one byte of state, byte `e`. A block that is otherwise zero leaves
      it, and the blocks `x` and `y` set it to 1 and 2. */
  function HoldStep(e: nat, x: Block, y: Block, v: Block): (r: Block)
    requires e < 8
  {
    if SameRest(v, ZERO_BLOCK, e) then v
    else if SameRest(v, x, e) then Unit(e, 1)
    else if SameRest(v, y, e) then Unit(e, 2)
    else ZERO_BLOCK
  }

  function HoldCipher(e: nat, x: Block, y: Block): (c: Cipher)
    requires e < 8
  {
    Cipher((k, b) => b, (k, b) => b, (k, b) => HoldStep(e, x, y, b))
  }

  lemma XorRest(s: Block, b: Block, e: nat)
    requires e < 8 && SameRest(s, ZERO_BLOCK, e)
    ensures SameRest(XorSeq(s, b), b, e)
    ensures b == ZERO_BLOCK ==> XorSeq(s, b) == s
  {
    hide XorByte;
    forall j | 0 <= j < 8 ensures XorByte(0, b[j]) == b[j] && XorByte(s[j], 0) == s[j] {
      XorZero(b[j]);
      XorZero(s[j]);
    }
  }

  lemma {:induction false} HoldState(e: nat, x: Block, y: Block, key0: Key, data: seq<byte>, n: nat)
    requires e < 8 && 8 * n <= |data|
    ensures SameRest(Chain(HoldCipher(e, x, y), key0, data, n), ZERO_BLOCK, e)
  {
    hide KeyAt, XorSeq;
  }

  /** The state is that of the last block that is not zero. */
  lemma {:induction false} HoldEnd(e: nat, x: Block, y: Block, key0: Key, data: seq<byte>, i: nat, n: nat)
    requires e < 8 && i < n && 8 * n <= |data|
    requires forall j :: 8 * (i + 1) <= j < 8 * n ==> data[j] == 0
    requires !SameRest(data[8 * i..8 * (i + 1)], ZERO_BLOCK, e)
    ensures SameRest(data[8 * i..8 * (i + 1)], x, e) ==> Chain(HoldCipher(e, x, y), key0, data, n) == Unit(e, 1)
    ensures !SameRest(data[8 * i..8 * (i + 1)], x, e) && SameRest(data[8 * i..8 * (i + 1)], y, e) ==>
              Chain(HoldCipher(e, x, y), key0, data, n) == Unit(e, 2)
  {
    hide HoldCipher, HoldStep, SameRest, Chain;
    var b := data[8 * (n - 1)..8 * n];
    HoldState(e, x, y, key0, data, n - 1);
    HoldOne(e, x, y, key0, data, n);
    if i < n - 1 {
      assert b == ZERO_BLOCK;
      HoldEnd(e, x, y, key0, data, i, n - 1);
    }
  }

  lemma HoldOne(e: nat, x: Block, y: Block, key0: Key, data: seq<byte>, n: nat)
    requires e < 8 && 0 < n && 8 * n <= |data|
    requires SameRest(Chain(HoldCipher(e, x, y), key0, data, n - 1), ZERO_BLOCK, e)
    ensures var b := data[8 * (n - 1)..8 * n];
            var r := Chain(HoldCipher(e, x, y), key0, data, n);
            && (b == ZERO_BLOCK ==> r == Chain(HoldCipher(e, x, y), key0, data, n - 1))
            && (!SameRest(b, ZERO_BLOCK, e) && SameRest(b, x, e) ==> r == Unit(e, 1))
            && (!SameRest(b, ZERO_BLOCK, e) && !SameRest(b, x, e) && SameRest(b, y, e) ==> r == Unit(e, 2))
  {
    hide KeyAt, XorSeq;
    XorRest(Chain(HoldCipher(e, x, y), key0, data, n - 1), data[8 * (n - 1)..8 * n], e);
  }

  lemma {:induction false} LastNonzero(s: seq<byte>) returns (z: nat)
    requires exists i :: 0 <= i < |s| && s[i] != 0
    ensures z < |s| && s[z] != 0 && forall j :: z < j < |s| ==> s[j] == 0
  {
    z := |s| - 1;
    while s[z] == 0
      invariant z < |s| && forall j :: z < j < |s| ==> s[j] == 0
      decreases z
    {
      assert z > 0 by {
        var i :| 0 <= i < |s| && s[i] != 0;
      }
      z := z - 1;
    }
  }

  /** The tag under such a cipher shows the last block that is not zero. */
  lemma HoldTag(e: nat, x: Block, y: Block, key0: Key, fed: seq<byte>, z: nat)
    requires e < 4 && z < |fed| && z % 8 != e && fed[z] != 0 && forall j :: z < j < |fed| ==> fed[j] == 0
    requires x[z % 8] != 0 || y[z % 8] != 0
    ensures var b := Padded(fed)[8 * (z / 8)..8 * (z / 8 + 1)];
            && (SameRest(b, x, e) ==> OneShot(HoldCipher(e, x, y), key0, fed) == Unit(e, 1)[..4])
            && (!SameRest(b, x, e) && SameRest(b, y, e) ==> OneShot(HoldCipher(e, x, y), key0, fed) == Unit(e, 2)[..4])
  {
    hide Chain, HoldCipher;
    var p, i := Padded(fed), z / 8;
    assert p[z] == fed[z];
    assert p[8 * i..8 * (i + 1)][z % 8] == fed[z];
    assert forall j :: 8 * (i + 1) <= j < |p| ==> p[j] == 0;
    HoldEnd(e, x, y, key0, p, i, |p| / 8);
  }

  /** What the bytes around the last one that is not zero look like. */
  lemma BlockAround(fed: seq<byte>, z: nat)
    requires z < |fed| && fed[z] != 0 && forall j :: z < j < |fed| ==> fed[j] == 0
    ensures 8 * (z / 8 + 1) <= |Padded(fed)|
    ensures var b := Padded(fed)[8 * (z / 8)..8 * (z / 8 + 1)];
            b[z % 8] != 0 && forall j :: z % 8 < j < 8 ==> b[j] == 0
  {
    var p, i := Padded(fed), z / 8;
    var b := p[8 * i..8 * (i + 1)];
    assert b[z % 8] == p[z] == fed[z];
    forall j | z % 8 < j < 8 ensures b[j] == 0 {
      assert b[j] == p[8 * i + j];
    }
  }

  /** Position `z` holds the last byte that is not zero. */
  predicate EndsAt(s: seq<byte>, z: nat)
  {
    z < |s| && s[z] != 0 && forall j :: z < j < |s| ==> s[j] == 0
  }

  /** Inputs whose last byte other than zero stands at different places of a
      block get different tags from some cipher. */
  lemma PlacesShow(fx: seq<byte>, zx: nat, fy: seq<byte>, zy: nat) returns (c: Cipher)
    requires EndsAt(fx, zx) && EndsAt(fy, zy) && zx % 8 != zy % 8
    ensures OneShot(c, MESHING_KEY, fx) != OneShot(c, MESHING_KEY, fy)
  {
    hide Chain, OneShot, MESHING_KEY, HoldCipher, Padded;
    BlockAround(fx, zx);
    BlockAround(fy, zy);
    var x, y := Padded(fx)[8 * (zx / 8)..8 * (zx / 8 + 1)], Padded(fy)[8 * (zy / 8)..8 * (zy / 8 + 1)];
    var e := FreeByte(zx % 8, zy % 8);
    Separated(x, zx % 8, y, zy % 8, e);
    HoldTag(e, x, y, MESHING_KEY, fx, zx);
    HoldTag(e, x, y, MESHING_KEY, fy, zy);
    c := HoldCipher(e, x, y);
    assert Unit(e, 1)[..4][e] == 1 && Unit(e, 2)[..4][e] == 2;
  }

  function FreeByte(a: nat, b: nat): (e: nat)
    ensures e < 4 && e != a && e != b
  {
    if a != 0 && b != 0 then 0 else if a != 1 && b != 1 then 1 else 2
  }

  lemma Separated(x: Block, a: nat, y: Block, b: nat, e: nat)
    requires a < 8 && b < 8 && a != b && e != a && e != b
    requires x[a] != 0 && (forall j :: a < j < 8 ==> x[j] == 0) && y[b] != 0 && (forall j :: b < j < 8 ==> y[j] == 0)
    ensures SameRest(x, x, e) && SameRest(y, y, e) && !SameRest(y, x, e)
  {
    if a > b {
      assert x[a] != y[a];
    } else {
      assert x[b] != y[b];
    }
  }

  /** Were the padding of each tag kept in the state, the next input would be
      authenticated behind the padded bytes. Whatever comes next, unless it is
      all zeros, some cipher tells that from what the code does, if there was
      padding. */
  lemma PaddingMatters(fed: seq<byte>, next: seq<byte>) returns (c: Cipher)
    requires |fed| % 8 != 0 && exists i :: 0 <= i < |next| && next[i] != 0
    ensures OneShot(c, MESHING_KEY, fed + next) != OneShot(c, MESHING_KEY, Padded(fed) + next)
  {
    hide OneShot, MESHING_KEY;
    var z := LastNonzero(next);
    Shifted(fed, next, z);
    Shifted(Padded(fed), next, z);
    c := PlacesShow(fed + next, |fed| + z, Padded(fed) + next, |Padded(fed)| + z);
  }

  lemma Shifted(a: seq<byte>, next: seq<byte>, z: nat)
    requires EndsAt(next, z)
    ensures EndsAt(a + next, |a| + z)
  {
    assert forall j :: |a| + z < j < |a + next| ==> (a + next)[j] == next[j - |a|];
  }

  /** So the two agree for every cipher and key exactly if no padding was
      needed. */
  lemma KeptPaddingAgreement(fed: seq<byte>, next: seq<byte>)
    requires exists i :: 0 <= i < |next| && next[i] != 0
    ensures (forall c: Cipher, key0: Key :: OneShot(c, key0, fed + next) == OneShot(c, key0, Padded(fed) + next))
       <==> |fed| % 8 == 0
  {
    hide OneShot, MESHING_KEY;
    if |fed| % 8 != 0 {
      var c := PaddingMatters(fed, next);
      assert OneShot(c, MESHING_KEY, fed + next) != OneShot(c, MESHING_KEY, Padded(fed) + next);
    } else {
      assert Padded(fed) == fed;
    }
  }

  lemma LastBlock(len: nat, k: nat) returns (n: nat)
    requires k % 8 == 0 && (k < len <= k + 8 || len == k == 0)
    ensures 8 * n == k && n == k / 8 == Absorbed(len)
  {
    n := k / 8;
  }

  lemma Buffered(fed: seq<byte>, data: seq<byte>, n: nat, i: nat)
    requires 8 * n <= |fed| && i <= |data| && |fed| + i <= 8 * (n + 1)
    ensures (fed + data)[8 * n..|fed| + i] == fed[8 * n..] + data[..i]
  {
  }

  class Imit {
    const c: Cipher
    var key: Key
    var prev: Block
    var buf: Block
    var bufLen: nat
    var count: nat
    ghost const key0: Key
    ghost var fed: seq<byte>

    ghost predicate Valid()
      reads this
    {
      && bufLen <= 8
      && State(key, prev, buf[..bufLen], count) == StateAfter(c, key0, fed)
    }

    /** The chaining fields stand after `n` blocks of `total`. */
    ghost predicate At(total: seq<byte>, n: nat)
      requires 8 * n <= |total|
      reads this
    {
      && key == LastKey(c, key0, n)
      && prev == Chain(c, key0, total, n)
      && count == CountAfter(n)
    }

    constructor (c: Cipher, key: Key)
      ensures Valid() && fed == [] && this.c == c && key0 == key
    {
      this.c, this.key := c, key;
      prev, buf, bufLen, count := ZERO_BLOCK, ZERO_BLOCK, 0, 0;
      key0, fed := key, [];
    }

    method ProcessBlockMesh(block: Block, ghost total: seq<byte>, ghost n: nat)
      requires 8 * (n + 1) <= |total| && At(total, n)
      requires block == total[8 * n..8 * (n + 1)]
      modifies this`key, this`prev, this`count
      ensures At(total, n + 1)
    {
      hide MeshedKey, XorSeq, CountAfter;
      MeshDue(c, key0, n);
      if count == MESH_THRESHOLD {
        key := MeshKey(c, key);
      }
      prev := c.mac16(key, XorSeq(prev, block));
      count := count % MESH_THRESHOLD + 8;
    }

    /** Fills the buffer up. */
    method CopyIn(data: seq<byte>) returns (i: nat)
      requires bufLen <= 8
      modifies this`buf, this`bufLen
      ensures i <= |data| && bufLen == old(bufLen) + i <= 8 && (bufLen == 8 || i == |data|)
      ensures buf[..bufLen] == old(buf[..bufLen]) + data[..i]
    {
      i := 0;
      while bufLen < 8 && i < |data|
        invariant i <= |data| && bufLen == old(bufLen) + i <= 8
        invariant buf[..bufLen] == old(buf[..bufLen]) + data[..i]
      {
        buf := buf[bufLen := data[i]];
        bufLen := bufLen + 1;
        i := i + 1;
      }
    }

    /** Completes the buffered block and processes it once more data follows.
        `done` says that all of `data` went into the buffer. */
    method FillBuffer(data: seq<byte>) returns (i: nat, done: bool)
      requires Valid() && bufLen > 0
      modifies this
      ensures fed == old(fed) && i <= |data|
      ensures done ==> bufLen <= 8
      ensures done ==> State(key, prev, buf[..bufLen], count) == StateAfter(c, key0, fed + data)
      ensures !done ==> i < |data| && bufLen == 0 && (|fed| + i) % 8 == 0
      ensures !done ==> At(fed + data, (|fed| + i) / 8)
    {
      hide Chain, KeyAt, CountAfter, LastKey, MeshedKey, XorSeq;
      ghost var total := fed + data;
      ghost var n := Absorbed(|fed|);
      ChainPrefix(c, key0, fed, total, n);
      i := CopyIn(data);
      Buffered(fed, data, n, i);
      if bufLen < 8 || |data| - i == 0 {
        assert data[..i] == data;
        Settled(total, n);
        return i, true;
      }
      assert buf[..bufLen] == buf;
      ProcessBlockMesh(buf, total, n);
      bufLen := 0;
      done := false;
    }

    /** The buffer holds the bytes behind the `n` blocks absorbed. */
    lemma Settled(total: seq<byte>, n: nat)
      requires 8 * n <= |total| && At(total, n) && Absorbed(|total|) == n
      requires bufLen <= 8 && buf[..bufLen] == total[8 * n..]
      ensures State(key, prev, buf[..bufLen], count) == StateAfter(c, key0, total)
    {
    }

    /** Processes whole blocks from `start` on and leaves 1 to 8 bytes, if there
        are any. */
    method AbsorbBlocks(data: seq<byte>, start: nat, ghost before: seq<byte>) returns (i: nat)
      requires start <= |data| && (start < |data| || data == []) && (|before| + start) % 8 == 0
      requires At(before + data, (|before| + start) / 8)
      modifies this`key, this`prev, this`count
      ensures start <= i <= |data| <= i + 8 && (i < |data| || data == []) && (|before| + i) % 8 == 0
      ensures At(before + data, (|before| + i) / 8)
    {
      hide Chain, KeyAt, CountAfter, LastKey, MeshedKey, XorSeq;
      ghost var total := before + data;
      ghost var n := (|before| + start) / 8;
      i := start;
      while |data| - i > 8
        invariant start <= i <= |data| && (i < |data| || data == [])
        invariant 8 * n == |before| + i && At(total, n)
      {
        assert total[8 * n..8 * (n + 1)] == data[i..i + 8];
        ProcessBlockMesh(data[i..i + 8], total, n);
        i := i + 8;
        n := n + 1;
      }
    }

    method Write(data: seq<byte>)
      requires Valid()
      modifies this
      ensures Valid() && fed == old(fed) + data
    {
      hide Chain, KeyAt, CountAfter, LastKey, MeshedKey, XorSeq;
      ghost var total := fed + data;
      var i := 0;
      if bufLen > 0 {
        var done;
        i, done := FillBuffer(data);
        if done {
          fed := total;
          return;
        }
      } else {
        assert fed == [] && total == data;
        ChainPrefix(c, key0, fed, total, 0);
      }
      i := AbsorbBlocks(data, i, fed);
      ghost var n := LastBlock(|total|, |fed| + i);
      if i < |data| {
        buf := data[i..] + buf[|data| - i..];
        bufLen := |data| - i;
      }
      assert buf[..bufLen] == data[i..] == total[8 * n..];
      Settled(total, n);
      fed := total;
    }

    /** Works on a snapshot: no field changes. */
    method Finalize() returns (tag: seq<byte>)
      requires Valid()
      ensures tag == OneShot(c, key0, fed)
    {
      hide MeshedKey, XorSeq, CountAfter;
      var snapPrev, snapCount := prev, count;
      ghost var n := Absorbed(|fed|);
      if bufLen > 0 {
        FinalBlock(c, key0, fed);
        MeshDue(c, key0, n);
        snapPrev, snapCount := ProcessSnap(snapPrev, snapCount, buf[..bufLen] + seq(8 - bufLen, _ => 0));
      }
      if snapCount == 0 && bufLen > 0 {
        assert false; // the count was raised by the block just processed
      }
      tag := snapPrev[..4];
    }

    method ProcessSnap(prev: Block, count: nat, block: Block) returns (prev': Block, count': nat)
      ensures prev' == c.mac16(if count == MESH_THRESHOLD then MeshedKey(c, key) else key, XorSeq(prev, block))
      ensures count' == count % MESH_THRESHOLD + 8
    {
      var k := key;
      if count == MESH_THRESHOLD {
        k := MeshKey(c, key);
      }
      prev' := c.mac16(k, XorSeq(prev, block));
      count' := count % MESH_THRESHOLD + 8;
    }
  }
}
