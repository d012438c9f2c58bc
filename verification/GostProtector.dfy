/** The GOST 28147-89 record protector: IMIT over everything sent so far, then
    counter-mode encryption of fragment and tag in one running stream. */
module GostProtector {
  import opened Bytes
  import opened MacData
  import opened Gost28147
  import GostCnt
  import GostImit

  datatype Keys = Keys(c: Cipher, enc: Key, mac: Key, iv: Block)

  /** Keystream position and bytes authenticated so far: by `Cnt.Valid` and
      `Imit.Valid` these determine every field of the two stream states. */
  datatype State = State(pos: nat, fed: seq<byte>)

  const MAC_SIZE: nat := 4

  // ---- Reference ----------------------------------------------------------

  function MacInput(seqNum: Seq, hdr: Header, plain: seq<byte>): (r: seq<byte>)
    ensures |r| == 13 + |plain|
  {
    AdditionalData(seqNum, hdr, |plain|) + plain
  }

  function Ks(k: Keys): (r: nat -> byte)
  {
    GostCnt.Keystream(k.c, k.enc, k.iv)
  }

  function Seal(k: Keys, st: State, seqNum: Seq, hdr: Header, plain: seq<byte>): (r: (seq<byte>, State))
    ensures |r.0| == |plain| + MAC_SIZE
  {
    var fed := st.fed + MacInput(seqNum, hdr, plain);
    var body := plain + GostImit.OneShot(k.c, k.mac, fed);
    (XorStream(Ks(k), st.pos, body), State(st.pos + |body|, fed))
  }

  /** A fragment too short to hold a tag leaves the state alone; any other one
      advances both streams, even when its tag is wrong. */
  function Open(k: Keys, st: State, seqNum: Seq, hdr: Header, fragment: seq<byte>): (r: (Option<seq<byte>>, State))
  {
    if |fragment| < MAC_SIZE then (None, st)
    else
      var body := XorStream(Ks(k), st.pos, fragment);
      var plain, tag := body[..|body| - MAC_SIZE], body[|body| - MAC_SIZE..];
      var fed := st.fed + MacInput(seqNum, hdr, plain);
      (if tag == GostImit.OneShot(k.c, k.mac, fed) then Some(plain) else None,
       State(st.pos + |fragment|, fed))
  }

  /** Under the keystream stand the plaintext and the code of everything
      authenticated so far, this record's header and plaintext last. */
  lemma SealedParts(k: Keys, st: State, seqNum: Seq, hdr: Header, plain: seq<byte>) returns (ad: seq<byte>)
    ensures IsHeader(ad, seqNum, hdr, |plain|)
    ensures var (f, st') := Seal(k, st, seqNum, hdr, plain);
            && XorStream(Ks(k), st.pos, f) == plain + GostImit.OneShot(k.c, k.mac, st.fed + (ad + plain))
            && st' == State(st.pos + |plain| + 4, st.fed + (ad + plain))
  {
    hide AdditionalData, IsHeader, XorStream, GostImit.OneShot, Ks;
    ad := AdditionalData(seqNum, hdr, |plain|);
    HeaderIff(ad, seqNum, hdr, |plain|);
    XorStreamInverse(Ks(k), st.pos, plain + GostImit.OneShot(k.c, k.mac, st.fed + (ad + plain)));
  }

  /** The receiver's header differs from the sender's only in its length field. */
  predicate SameKind(h: Header, h': Header)
  {
    h[..3] == h'[..3]
  }

  /** One record: the receiver in the sender's state gets the plaintext and
      ends in the sender's new state. */
  lemma OpenSealed(k: Keys, st: State, seqNum: Seq, hdr: Header, hdr': Header, plain: seq<byte>)
    requires SameKind(hdr, hdr')
    ensures var (fragment, st') := Seal(k, st, seqNum, hdr, plain);
            Open(k, st, seqNum, hdr', fragment) == (Some(plain), st')
  {
    var fed := st.fed + MacInput(seqNum, hdr, plain);
    var body := plain + GostImit.OneShot(k.c, k.mac, fed);
    XorStreamInverse(Ks(k), st.pos, body);
    assert body[..|body| - MAC_SIZE] == plain;
  }

  /** Nothing else is accepted: a fragment that opens is the sealed form of what
      it opens to, and leaves the state that sealing would leave. */
  lemma OpenedIsSealed(k: Keys, st: State, seqNum: Seq, hdr: Header, fragment: seq<byte>)
    requires Open(k, st, seqNum, hdr, fragment).0.Some?
    ensures var (plain, st') := Open(k, st, seqNum, hdr, fragment);
            Seal(k, st, seqNum, hdr, plain.value) == (fragment, st')
  {
    hide GostImit.OneShot, XorStream;
    var body := XorStream(Ks(k), st.pos, fragment);
    XorStreamInverse(Ks(k), st.pos, fragment);
    assert body == body[..|body| - MAC_SIZE] + body[|body| - MAC_SIZE..];
  }

  // ---- Runs ---------------------------------------------------------------

  datatype Record = Record(seqNum: Seq, hdr: Header, plain: seq<byte>)
  datatype Received = Received(seqNum: Seq, hdr: Header, fragment: seq<byte>)

  function SealAll(k: Keys, st: State, rs: seq<Record>): (r: (seq<seq<byte>>, State))
    ensures |r.0| == |rs|
    decreases |rs|
  {
    if rs == [] then ([], st)
    else
      var (f, st1) := Seal(k, st, rs[0].seqNum, rs[0].hdr, rs[0].plain);
      var (fs, st2) := SealAll(k, st1, rs[1..]);
      ([f] + fs, st2)
  }

  function OpenAll(k: Keys, st: State, rs: seq<Received>): (r: (seq<Option<seq<byte>>>, State))
    ensures |r.0| == |rs|
    decreases |rs|
  {
    if rs == [] then ([], st)
    else
      var (p, st1) := Open(k, st, rs[0].seqNum, rs[0].hdr, rs[0].fragment);
      var (ps, st2) := OpenAll(k, st1, rs[1..]);
      ([p] + ps, st2)
  }

  function Arrivals(rs: seq<Record>, hdrs: seq<Header>, fs: seq<seq<byte>>): (r: seq<Received>)
    requires |rs| == |hdrs| == |fs|
    ensures |r| == |rs|
  {
    seq(|rs|, i requires 0 <= i < |rs| => Received(rs[i].seqNum, hdrs[i], fs[i]))
  }

  function Plaintexts(rs: seq<Record>): (r: seq<Option<seq<byte>>>)
  {
    seq(|rs|, i requires 0 <= i < |rs| => Some(rs[i].plain))
  }

  /** Any list of records, opened in order with headers that agree in type and
      version, comes back whole; both ends stay in the same state after every
      record, since the lemma holds of every prefix. */
  lemma {:induction false} RunRoundTrip(k: Keys, st: State, rs: seq<Record>, hdrs: seq<Header>)
    requires |hdrs| == |rs| && forall i :: 0 <= i < |rs| ==> SameKind(rs[i].hdr, hdrs[i])
    ensures OpenAll(k, st, Arrivals(rs, hdrs, SealAll(k, st, rs).0)) == (Plaintexts(rs), SealAll(k, st, rs).1)
    decreases |rs|
  {
    hide Seal, Open;
    if rs != [] {
      var r, tail := rs[0], rs[1..];
      var (f, st1) := Seal(k, st, r.seqNum, r.hdr, r.plain);
      OpenSealed(k, st, r.seqNum, r.hdr, hdrs[0], r.plain);
      RunRoundTrip(k, st1, tail, hdrs[1..]);
      assert Arrivals(rs, hdrs, SealAll(k, st, rs).0)[1..]
          == Arrivals(tail, hdrs[1..], SealAll(k, st1, tail).0);
      assert Plaintexts(rs) == [Some(r.plain)] + Plaintexts(tail);
    }
  }

  /** Everything authenticated up to and including the last record of a run. */
  function FedBy(rs: seq<Record>): (r: seq<byte>)
  {
    if rs == [] then [] else FedBy(rs[..|rs| - 1]) + MacInput(rs[|rs| - 1].seqNum, rs[|rs| - 1].hdr, rs[|rs| - 1].plain)
  }

  lemma {:induction false} SealAllSnoc(k: Keys, st: State, rs: seq<Record>, x: Record)
    ensures var (fs, st1) := SealAll(k, st, rs);
            var (f, st2) := Seal(k, st1, x.seqNum, x.hdr, x.plain);
            SealAll(k, st, rs + [x]) == (fs + [f], st2)
    decreases |rs|
  {
    hide Seal;
    if rs == [] {
      assert rs + [x] == [x] && [x][1..] == [];
      var (f, st1) := Seal(k, st, x.seqNum, x.hdr, x.plain);
      assert SealAll(k, st1, []) == ([], st1) && [f] + [] == [] + [f];
    } else {
      assert (rs + [x])[0] == rs[0] && (rs + [x])[1..] == rs[1..] + [x];
      var st1 := Seal(k, st, rs[0].seqNum, rs[0].hdr, rs[0].plain).1;
      SealAllSnoc(k, st1, rs[1..], x);
      var (fs, st2) := SealAll(k, st1, rs[1..]);
      var f := Seal(k, st2, x.seqNum, x.hdr, x.plain).0;
      var f0 := Seal(k, st, rs[0].seqNum, rs[0].hdr, rs[0].plain).0;
      assert [f0] + (fs + [f]) == [f0] + fs + [f];
    }
  }

  /** The tag of the last record of a run is the one-shot code of the inputs of
      all its records together, and at that moment the block count is positive. */
  lemma {:induction false} CumulativeTag(k: Keys, rs: seq<Record>, x: Record)
    ensures var (_, before) := SealAll(k, State(0, []), rs);
            var (fs, after) := SealAll(k, State(0, []), rs + [x]);
            && |fs| == |rs| + 1
            && after.fed == FedBy(rs + [x])
            && XorStream(Ks(k), before.pos, fs[|rs|]) == x.plain + GostImit.OneShot(k.c, k.mac, FedBy(rs + [x]))
            && GostImit.StateAfter(k.c, k.mac, after.fed).count > 0
    decreases |rs|
  {
    hide GostImit.OneShot, XorStream, GostImit.Chain;
    if rs != [] {
      var front, last := rs[..|rs| - 1], rs[|rs| - 1];
      assert rs == front + [last];
      CumulativeTag(k, front, last);
    }
    assert (rs + [x])[..|rs|] == rs;
    SealAllSnoc(k, State(0, []), rs, x);
    var before := SealAll(k, State(0, []), rs).1;
    var fed := before.fed + MacInput(x.seqNum, x.hdr, x.plain);
    XorStreamInverse(Ks(k), before.pos, x.plain + GostImit.OneShot(k.c, k.mac, fed));
  }

  // ---- The state a tag leaves ---------------------------------------------

  /** The input of the MAC if the padding of each tag stayed in the state. */
  function FedWithPadding(rs: seq<Record>): (r: seq<byte>)
  {
    if rs == [] then []
    else
      var x := rs[|rs| - 1];
      GostImit.Padded(FedWithPadding(rs[..|rs| - 1])) + MacInput(x.seqNum, x.hdr, x.plain)
  }

  /** The tags of a run are those with padding kept, for every cipher and key. */
  ghost predicate PaddingInvisible(rs: seq<Record>)
  {
    forall i, c: Cipher, key0: Key :: 0 < i <= |rs| ==>
      GostImit.OneShot(c, key0, FedBy(rs[..i])) == GostImit.OneShot(c, key0, FedWithPadding(rs[..i]))
  }

  /** Before every record the bytes authenticated fill whole blocks. */
  predicate Aligned(rs: seq<Record>)
  {
    forall i :: 0 <= i < |rs| ==> |FedBy(rs[..i])| % 8 == 0
  }

  lemma FedBySnoc(rs: seq<Record>, i: nat)
    requires i < |rs|
    ensures FedBy(rs[..i + 1]) == FedBy(rs[..i]) + MacInput(rs[i].seqNum, rs[i].hdr, rs[i].plain)
    ensures FedWithPadding(rs[..i + 1])
         == GostImit.Padded(FedWithPadding(rs[..i])) + MacInput(rs[i].seqNum, rs[i].hdr, rs[i].plain)
  {
    assert rs[..i + 1][..i] == rs[..i];
  }

  /** Up to the first record that starts inside a block nothing differs. */
  lemma {:induction false} AlignedSame(rs: seq<Record>, n: nat)
    requires n <= |rs| && forall i :: 0 <= i < n ==> |FedBy(rs[..i])| % 8 == 0
    ensures FedWithPadding(rs[..n]) == FedBy(rs[..n])
  {
    hide MacInput;
    if n > 0 {
      AlignedSame(rs, n - 1);
      FedBySnoc(rs, n - 1);
      assert GostImit.Padded(FedBy(rs[..n - 1])) == FedBy(rs[..n - 1]);
    }
  }

  lemma TypeShows(x: Record)
    requires x.hdr[0] != 0
    ensures exists i :: 0 <= i < |MacInput(x.seqNum, x.hdr, x.plain)| && MacInput(x.seqNum, x.hdr, x.plain)[i] != 0
  {
    hide BigEndian;
    assert MacInput(x.seqNum, x.hdr, x.plain)[8] == x.hdr[0];
  }

  /** A record that starts inside a block gets another tag from some cipher. */
  lemma MisalignedShows(rs: seq<Record>, i: nat)
    requires i < |rs| && rs[i].hdr[0] != 0 && |FedBy(rs[..i])| % 8 != 0
    requires forall j :: 0 <= j < i ==> |FedBy(rs[..j])| % 8 == 0
    ensures !PaddingInvisible(rs)
  {
    hide GostImit.OneShot, MacInput, FedBy, FedWithPadding, GostImit.Padded, MESHING_KEY;
    var x := rs[i];
    AlignedSame(rs, i);
    FedBySnoc(rs, i);
    TypeShows(x);
    var c := GostImit.PaddingMatters(FedBy(rs[..i]), MacInput(x.seqNum, x.hdr, x.plain));
    assert GostImit.OneShot(c, MESHING_KEY, FedBy(rs[..i + 1]))
        != GostImit.OneShot(c, MESHING_KEY, FedWithPadding(rs[..i + 1]));
  }

  /** For every run: whether the padding of a tag stays in the state makes no
      difference to any tag, under any cipher and key, exactly if every record
      starts on a block boundary. */
  lemma PaddingInvisibleIff(rs: seq<Record>)
    requires forall i :: 0 <= i < |rs| ==> rs[i].hdr[0] != 0
    ensures PaddingInvisible(rs) <==> Aligned(rs)
  {
    hide GostImit.OneShot, FedBy, FedWithPadding;
    if Aligned(rs) {
      forall i, c: Cipher, key0: Key | 0 < i <= |rs|
        ensures GostImit.OneShot(c, key0, FedBy(rs[..i])) == GostImit.OneShot(c, key0, FedWithPadding(rs[..i])) {
        AlignedSame(rs, i);
      }
    } else {
      var i := 0;
      while |FedBy(rs[..i])| % 8 == 0
        invariant i < |rs| && forall j :: 0 <= j < i ==> |FedBy(rs[..j])| % 8 == 0
        decreases |rs| - i
      {
        i := i + 1;
      }
      MisalignedShows(rs, i);
    }
  }

  /** For instance, two empty records of application data: the first leaves 13
      bytes. */
  lemma SecondRecordDiffers()
    ensures !PaddingInvisible([Record(0, [23, 3, 3, 0, 0], []), Record(1, [23, 3, 3, 0, 0], [])])
  {
    hide GostImit.OneShot, MacInput;
    var rs := [Record(0, [23, 3, 3, 0, 0], []), Record(1, [23, 3, 3, 0, 0], [])];
    assert rs[..0] == [] && |FedBy([])| == 0;
    FedBySnoc(rs, 0);
    assert |FedBy(rs[..1])| == 13;
    MisalignedShows(rs, 1);
  }

  // ---- The protector ------------------------------------------------------

  class Gost28147Protector {
    const keys: Keys
    const cnt: GostCnt.Cnt
    const imit: GostImit.Imit

    ghost predicate Valid()
      reads this, cnt, imit
    {
      && cnt.Valid() && imit.Valid()
      && cnt.c == imit.c == keys.c
      && cnt.key0 == keys.enc && cnt.iv0 == keys.iv && imit.key0 == keys.mac
    }

    ghost function St(): State
      reads cnt, imit
    {
      State(cnt.pos, imit.fed)
    }

    constructor (keys: Keys)
      ensures Valid() && this.keys == keys && St() == State(0, [])
      ensures fresh(cnt) && fresh(imit)
    {
      this.keys := keys;
      cnt := new GostCnt.Cnt(keys.c, keys.enc, keys.iv);
      imit := new GostImit.Imit(keys.c, keys.mac);
    }

    method ComputeMac(seqNum: Seq, hdr: Header, plain: seq<byte>) returns (tag: seq<byte>)
      requires Valid()
      modifies imit
      ensures Valid() && imit.fed == old(imit.fed) + MacInput(seqNum, hdr, plain)
      ensures tag == GostImit.OneShot(keys.c, keys.mac, imit.fed)
    {
      hide GostCnt.StateAt, GostImit.StateAfter, GostImit.OneShot, AdditionalData;
      imit.Write(AdditionalData(seqNum, hdr, |plain|));
      imit.Write(plain);
      assert imit.fed == old(imit.fed) + MacInput(seqNum, hdr, plain);
      tag := imit.Finalize();
    }

    method SealRecord(seqNum: Seq, hdr: Header, plain: seq<byte>) returns (fragment: seq<byte>)
      requires Valid()
      modifies cnt, imit
      ensures Valid() && (fragment, St()) == Seal(keys, old(St()), seqNum, hdr, plain)
    {
      hide GostCnt.StateAt, GostImit.StateAfter, GostImit.OneShot, XorStream, AdditionalData;
      var mac := ComputeMac(seqNum, hdr, plain);
      var body := plain + mac;
      var buf := new byte[|body|](i requires 0 <= i < |body| => body[i]);
      assert buf[..] == body;
      cnt.XORKeyStream(buf, buf);
      fragment := buf[..];
      assert fragment == buf[..buf.Length];
    }

    method OpenRecord(seqNum: Seq, hdr: Header, fragment: seq<byte>) returns (r: Option<seq<byte>>)
      requires Valid()
      modifies cnt, imit
      ensures Valid() && (r, St()) == Open(keys, old(St()), seqNum, hdr, fragment)
    {
      hide GostCnt.StateAt, GostImit.StateAfter, GostImit.OneShot, XorStream, AdditionalData;
      if |fragment| < MAC_SIZE {
        return None;
      }
      var src := new byte[|fragment|](i requires 0 <= i < |fragment| => fragment[i]);
      var buf := new byte[|fragment|](_ => 0);
      assert src[..] == fragment;
      cnt.XORKeyStream(buf, src);
      var body := buf[..];
      assert body == buf[..src.Length];
      var plain, got := body[..|body| - MAC_SIZE], body[|body| - MAC_SIZE..];
      var expected := ComputeMac(seqNum, hdr, plain);
      r := if got == expected then Some(plain) else None;
    }
  }

  /** Keys and initial value of any other length are refused. */
  method NewGost28147Protector(c: Cipher, encKey: seq<byte>, macKey: seq<byte>, iv: seq<byte>)
    returns (p: Gost28147Protector?)
    ensures p == null <==> |encKey| != 32 || |macKey| != 32 || |iv| != 8
    ensures p != null ==> p.Valid() && p.keys == Keys(c, encKey, macKey, iv) && p.St() == State(0, [])
    ensures p != null ==> fresh(p) && fresh(p.cnt) && fresh(p.imit)
  {
    if |encKey| != 32 || |macKey| != 32 || |iv| != 8 {
      return null;
    }
    p := new Gost28147Protector(Keys(c, encKey, macKey, iv));
  }
}
