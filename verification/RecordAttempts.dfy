/** Runs of record writes under one protector, with a transport that may fail at
    any byte of any record: which numbers, and so which nonces, the seals use. */
module RecordAttempts {
  import opened Bytes
  import opened MacData
  import opened RecordLayer
  import Aead

  /** A call of WriteRecord with the bytes that the transport takes of it. */
  datatype Attempt = Attempt(ct: byte, payload: seq<byte>, random: Option<seq<byte>>, room: nat)

  /** Nothing was sealed; or a record was sealed under a number, and the
      transport failed or took it. */
  datatype Outcome = Refused | Failed(number: Seq) | Taken(number: Seq)

  ghost predicate Fits(prot: Protector, a: Attempt)
  {
    a.random.Some? ==> prot.IvFits(a.random.value)
  }

  ghost function Result(e: End, a: Attempt): (r: Outcome)
    requires e.prot.Sound() && Fits(e.prot, a)
    ensures !r.Refused? ==> r.number == e.seqNum
  {
    if e.prot.Cbc? && a.random.None? then Refused
    else match WriteOne(e, a.ct, a.payload, Drawn(a.random))
      case NotWritten(_) => Refused
      case Written(wire, _) => if a.room >= |wire| then Taken(e.seqNum) else Failed(e.seqNum)
  }

  /** A failed write uses up the protector's state but not the number. */
  ghost function After(e: End, a: Attempt): (r: End)
    requires e.prot.Sound() && Fits(e.prot, a)
  {
    match Result(e, a)
    case Refused => e
    case Failed(_) => End(WriteOne(e, a.ct, a.payload, Drawn(a.random)).end.prot, e.seqNum)
    case Taken(_) => WriteOne(e, a.ct, a.payload, Drawn(a.random)).end
  }

  /** The protector stays of its kind, with its keys. */
  predicate SameKeys(p: Protector, q: Protector)
  {
    match p
    case Null => q.Null?
    case Cbc(s) => q.Cbc?
    case Gcm(_, salt) => q.Gcm? && q.salt == salt
    case ChaCha(_, iv) => q.ChaCha? && q.writeIv == iv
    case Gost(_, _) => q.Gost?
    case Omac(_) => q.Omac?
  }

  lemma AfterKeeps(e: End, a: Attempt)
    requires e.prot.Sound() && Fits(e.prot, a)
    ensures After(e, a).prot.Sound() && SameKeys(e.prot, After(e, a).prot)
    ensures forall b :: Fits(e.prot, b) ==> Fits(After(e, a).prot, b)
    ensures After(e, a).seqNum == if Result(e, a).Taken? then e.seqNum + 1 else e.seqNum
  {
    hide BigEndian;
    if !(e.prot.Cbc? && a.random.None?) && WriteOne(e, a.ct, a.payload, Drawn(a.random)).Written? {
      SealedSound(e.prot, e.seqNum, Template(a.ct), a.payload, Drawn(a.random));
      SealedKind(e.prot, e.seqNum, Template(a.ct), a.payload, Drawn(a.random));
    }
  }

  lemma SealedKind(p: Protector, seqNum: Seq, hdr: Header, plain: seq<byte>, iv: seq<byte>)
    requires p.Sound() && p.IvFits(iv)
    ensures SameKeys(p, Seal(p, seqNum, hdr, plain, iv).1)
    ensures forall b :: Fits(p, b) ==> Fits(Seal(p, seqNum, hdr, plain, iv).1, b)
  {
  }

  ghost predicate AllFit(prot: Protector, run: seq<Attempt>)
  {
    forall a :: a in run ==> Fits(prot, a)
  }

  ghost function Results(e: End, run: seq<Attempt>): (r: seq<Outcome>)
    requires e.prot.Sound() && AllFit(e.prot, run)
    ensures |r| == |run|
    decreases |run|
  {
    if run == [] then []
    else
      AfterKeeps(e, run[0]);
      [Result(e, run[0])] + Results(After(e, run[0]), run[1..])
  }

  function CountTaken(os: seq<Outcome>): (n: nat)
  {
    if os == [] then 0 else (if os[0].Taken? then 1 else 0) + CountTaken(os[1..])
  }

  /** A seal uses the first number plus the records taken before it. */
  lemma {:induction false} NumberAt(e: End, run: seq<Attempt>, i: nat)
    requires e.prot.Sound() && AllFit(e.prot, run) && i < |run|
    ensures var os := Results(e, run);
            !os[i].Refused? ==> os[i].number == e.seqNum + CountTaken(os[..i])
    decreases |run|
  {
    hide Result, After, Protector.Sound, Fits;
    var os := Results(e, run);
    AfterKeeps(e, run[0]);
    if i == 0 {
      assert os[..0] == [];
    } else {
      NumberAt(After(e, run[0]), run[1..], i - 1);
      assert os[..i][0] == os[0] && os[..i][1..] == os[1..][..i - 1];
    }
  }

  lemma {:induction false} CountSplit(os: seq<Outcome>, i: nat, j: nat)
    requires i <= j <= |os|
    ensures CountTaken(os[..j]) == CountTaken(os[..i]) + CountTaken(os[i..j])
    decreases |os|
  {
    if i == 0 {
      assert os[..0] == [] && os[0..j] == os[..j];
    } else {
      CountSplit(os[1..], i - 1, j - 1);
      assert os[..j][1..] == os[1..][..j - 1] && os[..i][1..] == os[1..][..i - 1] && os[1..][i - 1..j - 1] == os[i..j];
    }
  }

  lemma {:induction false} CountZeroIff(os: seq<Outcome>)
    ensures CountTaken(os) == 0 <==> forall k :: 0 <= k < |os| ==> !os[k].Taken?
  {
    if os != [] {
      CountZeroIff(os[1..]);
      assert forall k :: 0 < k < |os| ==> os[k] == os[1..][k - 1];
    }
  }

  /** Two seals use the same number exactly if the first of them failed and no
      record was taken between them. */
  lemma NumbersRepeatIff(e: End, run: seq<Attempt>, i: nat, j: nat)
    requires e.prot.Sound() && AllFit(e.prot, run) && i < j < |run|
    requires !Results(e, run)[i].Refused? && !Results(e, run)[j].Refused?
    ensures var os := Results(e, run);
            os[i].number == os[j].number <==> os[i].Failed? && forall k :: i < k < j ==> !os[k].Taken?
  {
    hide Results, Protector.Sound, AllFit;
    var os := Results(e, run);
    NumberAt(e, run, i);
    NumberAt(e, run, j);
    CountSplit(os, i, j);
    CountZeroIff(os[i..j]);
    assert forall k :: i <= k < j ==> os[k] == os[i..j][k - i];
  }

  /** The nonce of a seal under these protectors. */
  function Nonce(prot: Protector, number: Seq): (r: seq<byte>)
    requires prot.Gcm? || prot.ChaCha?
  {
    if prot.Gcm? then prot.salt + BigEndian(number, 8) else Aead.ChaChaNonce(prot.writeIv, number)
  }

  lemma NonceIsNumber(prot: Protector, m: Seq, n: Seq)
    requires prot.Gcm? || prot.ChaCha?
    ensures Nonce(prot, m) == Nonce(prot, n) <==> m == n
  {
    hide BigEndian, Aead.ChaChaNonce;
    if Nonce(prot, m) == Nonce(prot, n) {
      if prot.Gcm? {
        Aead.GcmNonceInjective(prot.salt, m, n);
      } else {
        Aead.ChaChaNonceInjective(prot.writeIv, m, n);
      }
    }
  }

  /** So a nonce is used twice under a protector exactly if a write failed in the
      transport and another was made before one succeeded. */
  lemma NoncesRepeatIff(e: End, run: seq<Attempt>, i: nat, j: nat)
    requires e.prot.Gcm? || e.prot.ChaCha?
    requires e.prot.Sound() && AllFit(e.prot, run) && i < j < |run|
    requires !Results(e, run)[i].Refused? && !Results(e, run)[j].Refused?
    ensures var os := Results(e, run);
            Nonce(e.prot, os[i].number) == Nonce(e.prot, os[j].number)
            <==> os[i].Failed? && forall k :: i < k < j ==> !os[k].Taken?
  {
    hide Results, Protector.Sound, AllFit, Nonce;
    NumbersRepeatIff(e, run, i, j);
    NonceIsNumber(e.prot, Results(e, run)[i].number, Results(e, run)[j].number);
  }

  /** Without a failure of the transport all nonces of an epoch are distinct. */
  lemma NoFailureNoRepeat(e: End, run: seq<Attempt>, i: nat, j: nat)
    requires e.prot.Gcm? || e.prot.ChaCha?
    requires e.prot.Sound() && AllFit(e.prot, run) && i < j < |run|
    requires !Results(e, run)[i].Refused? && !Results(e, run)[j].Refused?
    requires forall k :: 0 <= k < |run| ==> !Results(e, run)[k].Failed?
    ensures Nonce(e.prot, Results(e, run)[i].number) != Nonce(e.prot, Results(e, run)[j].number)
  {
    hide Results, Protector.Sound, AllFit, Nonce;
    NoncesRepeatIff(e, run, i, j);
  }

  /** The layer does what these functions say. */
  method WriteAttempt(layer: Layer, a: Attempt) returns (error: Option<Error>)
    requires layer.Valid() && Fits(layer.sendProt, a)
    modifies layer`written, layer`sendSeq, layer`sendProt
    ensures layer.Valid() && layer.Sending() == After(old(layer.Sending()), a)
    ensures error == None <==> Result(old(layer.Sending()), a).Taken?
  {
    hide WriteOne, Protector.Sound;
    error := layer.WriteRecord(a.ct, a.payload, a.random, a.room);
  }

  ghost function AfterAll(e: End, run: seq<Attempt>): (r: End)
    requires e.prot.Sound() && AllFit(e.prot, run)
    decreases |run|
  {
    if run == [] then e
    else
      AfterKeeps(e, run[0]);
      AfterAll(After(e, run[0]), run[1..])
  }

  method WriteAttempts(layer: Layer, run: seq<Attempt>) returns (errors: seq<Option<Error>>)
    requires layer.Valid() && AllFit(layer.sendProt, run)
    modifies layer`written, layer`sendSeq, layer`sendProt
    ensures layer.Valid() && layer.Sending() == AfterAll(old(layer.Sending()), run)
    ensures |errors| == |run|
    ensures forall i :: 0 <= i < |run| ==> (errors[i] == None <==> Results(old(layer.Sending()), run)[i].Taken?)
    decreases |run|
  {
    hide WriteOne, Protector.Sound, After, Result, Fits;
    errors := [];
    if |run| > 0 {
      AfterKeeps(layer.Sending(), run[0]);
      var error := WriteAttempt(layer, run[0]);
      var rest := WriteAttempts(layer, run[1..]);
      errors := [error] + rest;
    }
  }

  /** A write that the transport breaks off behind the nonce, and another one:
      the same nonce is on the wire twice. */
  method NonceTwice(c: Aead.Cipher, salt: Aead.Salt, p: seq<byte>, q: seq<byte>) returns (layer: Layer)
    requires c.Sound() && c.overhead <= 16 && 0 < |p| <= MAX_PLAINTEXT && |q| <= MAX_PLAINTEXT
    ensures fresh(layer) && |layer.written| >= 26 && layer.written[5..13] == layer.written[18..26]
  {
    hide BigEndian, AdditionalData;
    layer := new Layer([], 0);
    layer.ChangeCipherSpec(Some(Gcm(c, salt)), None);
    var error := layer.WriteRecord(APPLICATION_DATA, p, None, 13);
    WireHasNonce(c, salt, p);
    ghost var first := layer.written;
    WireHasNonce(c, salt, q);
    error := layer.WriteRecord(APPLICATION_DATA, q, None, HEADER_LEN + MAX_FRAGMENT);
    assert layer.written[5..13] == first[5..13];
  }

  lemma WireHasNonce(c: Aead.Cipher, salt: Aead.Salt, p: seq<byte>)
    requires c.Sound() && c.overhead <= 16 && |p| <= MAX_PLAINTEXT
    ensures var w := WriteOne(End(Gcm(c, salt), 0), APPLICATION_DATA, p, []);
            && w.Written? && w.end.prot == Gcm(c, salt) && 13 + |p| <= |w.wire| <= HEADER_LEN + MAX_FRAGMENT
            && w.wire[5..13] == BigEndian(0, 8)
  {
    hide BigEndian, AdditionalData;
    var (fragment, _) := Seal(Gcm(c, salt), 0, Template(APPLICATION_DATA), p, []);
    var w := WriteOne(End(Gcm(c, salt), 0), APPLICATION_DATA, p, []);
    assert fragment[..8] == BigEndian(0, 8);
    assert w.wire[5..] == fragment;
  }
}
