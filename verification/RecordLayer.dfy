/** The record layer: framing, sequence numbers, and protectors that are
    exchanged mid-stream at ChangeCipherSpec. */
module RecordLayer {
  import opened Bytes
  import opened MacData
  import GostProtector
  import CbcProtector
  import Aead
  import CtrOmac

  const CCS: byte := 20
  const ALERT: byte := 21
  const HANDSHAKE: byte := 22
  const APPLICATION_DATA: byte := 23

  const MAX_PLAINTEXT: nat := 0x4000
  const MAX_FRAGMENT: nat := 0x4000 + 2048
  const HEADER_LEN: nat := 5

  predicate KnownContentType(ct: byte)
  {
    ct == CCS || ct == ALERT || ct == HANDSHAKE || ct == APPLICATION_DATA
  }

  /** TLS 1.0 to 1.2 in the record header. */
  predicate AcceptedVersion(major: byte, minor: byte)
  {
    major == 3 && 1 <= minor <= 3
  }

  // ---- Protectors ---------------------------------------------------------

  /** A protector with its state; only the GOST 28147 one has any. */
  datatype Protector =
    | Null
    | Cbc(cbc: CbcProtector.Suite)
    | Gcm(aead: Aead.Cipher, salt: Aead.Salt)
    | ChaCha(aead: Aead.Cipher, writeIv: Aead.WriteIv)
    | Gost(keys: GostProtector.Keys, st: GostProtector.State)
    | Omac(omac: CtrOmac.Suite)
  {
    /** The primitives behave, and their sizes are those of the registered
        suites: MACs of at most 64 and tags of at most 16 bytes. */
    ghost predicate Sound()
    {
      match this
      case Null => true
      case Cbc(s) => s.Sound() && s.macSize <= 64
      case Gcm(c, _) => c.Sound() && c.overhead <= 16
      case ChaCha(c, _) => c.Sound() && c.overhead <= 16
      case Gost(_, _) => true
      case Omac(s) => s.Sound() && s.tagSize <= 16
    }

    /** `iv` is the randomness of the call; only CBC uses it. */
    ghost predicate IvFits(iv: seq<byte>)
    {
      Cbc? ==> |iv| == cbc.blockSize
    }
  }

  function Seal(p: Protector, seqNum: Seq, hdr: Header, plain: seq<byte>, iv: seq<byte>): (r: (seq<byte>, Protector))
    requires p.Sound() && p.IvFits(iv)
  {
    match p
    case Null => (plain, p)
    case Cbc(s) => (CbcProtector.Seal(s, seqNum, hdr, plain, iv), p)
    case Gcm(c, salt) => (Aead.GcmSeal(c, salt, seqNum, hdr, plain), p)
    case ChaCha(c, wiv) => (Aead.ChaChaSeal(c, wiv, seqNum, hdr, plain), p)
    case Gost(k, st) =>
      var (f, st') := GostProtector.Seal(k, st, seqNum, hdr, plain);
      (f, Gost(k, st'))
    case Omac(s) => (CtrOmac.Seal(s, seqNum, hdr, plain), p)
  }

  function Open(p: Protector, seqNum: Seq, hdr: Header, fragment: seq<byte>): (r: (Option<seq<byte>>, Protector))
    requires p.Sound()
  {
    match p
    case Null => (Some(fragment), p)
    case Cbc(s) => (CbcProtector.Open(s, seqNum, hdr, fragment), p)
    case Gcm(c, salt) => (Aead.GcmOpen(c, salt, seqNum, hdr, fragment), p)
    case ChaCha(c, wiv) => (Aead.ChaChaOpen(c, wiv, seqNum, hdr, fragment), p)
    case Gost(k, st) =>
      var (r, st') := GostProtector.Open(k, st, seqNum, hdr, fragment);
      (r, Gost(k, st'))
    case Omac(s) => (CtrOmac.Open(s, seqNum, hdr, fragment), p)
  }

  /** Every protector opens what it sealed, and sender and receiver advance
      alike; the header may differ in its length field. */
  lemma OpenSealed(p: Protector, seqNum: Seq, hdr: Header, hdr': Header, plain: seq<byte>, iv: seq<byte>)
    requires p.Sound() && p.IvFits(iv) && hdr[..3] == hdr'[..3]
    ensures var (fragment, p') := Seal(p, seqNum, hdr, plain, iv);
            Open(p, seqNum, hdr', fragment) == (Some(plain), p') && p'.Sound()
  {
    match p
    case Null =>
    case Cbc(s) => CbcProtector.OpenSealed(s, seqNum, hdr, hdr', plain, iv);
    case Gcm(c, salt) => Aead.GcmOpenSealed(c, salt, seqNum, hdr, hdr', plain);
    case ChaCha(c, wiv) => Aead.ChaChaOpenSealed(c, wiv, seqNum, hdr, hdr', plain);
    case Gost(k, st) => GostProtector.OpenSealed(k, st, seqNum, hdr, hdr', plain);
    case Omac(s) => CtrOmac.OpenSealed(s, seqNum, hdr, hdr', plain);
  }

  /** No protector expands a fragment by more than 2048 bytes. */
  lemma SealBound(p: Protector, seqNum: Seq, hdr: Header, plain: seq<byte>, iv: seq<byte>)
    requires p.Sound() && p.IvFits(iv)
    ensures |plain| <= |Seal(p, seqNum, hdr, plain, iv).0| <= |plain| + 2048
  {
    match p
    case Cbc(s) =>
      var content := plain + CbcProtector.Mac(s, seqNum, hdr, plain);
      CbcProtector.PaddedBodyShape(s, content);
    case _ =>
  }

  // ---- One record ---------------------------------------------------------

  /** One direction of one end. */
  datatype End = End(prot: Protector, seqNum: Seq)

  const START: End := End(Null, 0)

  datatype Error =
    | UnknownType | PayloadTooLong | SeqOverflow | Transport
    | IllegalParameter | ProtocolVersion | RecordOverflow | BadRecordMac | NoRandomness

  datatype WriteResult = Written(wire: seq<byte>, end: End) | NotWritten(error: Error)
  datatype ReadResult =
    | Record(ct: byte, payload: seq<byte>, rest: seq<byte>, end: End)
    | NoRecord(error: Error, prot: Protector, rest: seq<byte>)

  function Template(ct: byte): (h: Header)
  {
    [ct, 3, 3, 0, 0]
  }

  function WriteOne(e: End, ct: byte, payload: seq<byte>, iv: seq<byte>): (r: WriteResult)
    requires e.prot.Sound() && e.prot.IvFits(iv)
  {
    if !KnownContentType(ct) then NotWritten(UnknownType)
    else if |payload| > MAX_PLAINTEXT then NotWritten(PayloadTooLong)
    else if e.seqNum == MAX_SEQ then NotWritten(SeqOverflow)
    else
      var (fragment, prot) := Seal(e.prot, e.seqNum, Template(ct), payload, iv);
      Written([ct, 3, 3] + BigEndian(|fragment|, 2) + fragment, End(prot, e.seqNum + 1))
  }

  function ReadOne(e: End, input: seq<byte>): (r: ReadResult)
    requires e.prot.Sound()
    ensures r.Record? ==> r.end.prot.Sound()
    ensures r.Record? ==> KnownContentType(r.ct) && |r.payload| <= MAX_PLAINTEXT && |r.rest| < |input|
  {
    if e.seqNum == MAX_SEQ then NoRecord(SeqOverflow, e.prot, input)
    else if |input| < HEADER_LEN then NoRecord(Transport, e.prot, [])
    else
      var hdr := input[..HEADER_LEN];
      var length := FromBigEndian(hdr[3..5]);
      if !KnownContentType(hdr[0]) then NoRecord(IllegalParameter, e.prot, input[HEADER_LEN..])
      else if !AcceptedVersion(hdr[1], hdr[2]) then NoRecord(ProtocolVersion, e.prot, input[HEADER_LEN..])
      else if length > MAX_FRAGMENT then NoRecord(RecordOverflow, e.prot, input[HEADER_LEN..])
      else if |input| < HEADER_LEN + length then NoRecord(Transport, e.prot, [])
      else
        var fragment := input[HEADER_LEN..HEADER_LEN + length];
        OpenedSound(e.prot, e.seqNum, hdr, fragment);
        var (plain, prot) := Open(e.prot, e.seqNum, hdr, fragment);
        if plain.None? then NoRecord(BadRecordMac, prot, input[HEADER_LEN + length..])
        else if |plain.value| > MAX_PLAINTEXT then NoRecord(RecordOverflow, prot, input[HEADER_LEN + length..])
        else Record(hdr[0], plain.value, input[HEADER_LEN + length..], End(prot, e.seqNum + 1))
  }

  /** A written record: type, version 3.3 and length in front of the payload
      sealed under the current number. It is refused exactly if type, length or
      number is out of range. */
  lemma WireFields(e: End, ct: byte, payload: seq<byte>, iv: seq<byte>) returns (hdr: Header)
    requires e.prot.Sound() && e.prot.IvFits(iv)
    ensures hdr[0] == ct && hdr[1] == 3 && hdr[2] == 3
    ensures var w := WriteOne(e, ct, payload, iv);
            && (w.Written? <==> 20 <= ct <= 23 && |payload| <= 16384 && e.seqNum < 0xFFFF_FFFF_FFFF_FFFF)
            && (w.Written? ==>
                 && |w.wire| >= 5 && w.wire[0] == ct && w.wire[1] == 3 && w.wire[2] == 3
                 && FromBigEndian(w.wire[3..5]) == |w.wire| - 5
                 && (w.wire[5..], w.end.prot) == Seal(e.prot, e.seqNum, hdr, payload, iv)
                 && w.end.seqNum == e.seqNum + 1)
  {
    hide Seal, BigEndian, FromBigEndian, AdditionalData, Protector.Sound;
    hdr := Template(ct);
    var w := WriteOne(e, ct, payload, iv);
    if w.Written? {
      var fragment := Seal(e.prot, e.seqNum, hdr, payload, iv).0;
      SealBound(e.prot, e.seqNum, hdr, payload, iv);
      TwoBytes(|fragment|);
      assert w.wire[3..5] == BigEndian(|fragment|, 2) && w.wire[5..] == fragment;
    }
  }

  /** A record is accepted exactly if its header is in range, all of it has
      arrived and the protector opens it to at most 2^14 bytes. */
  lemma ReadIff(e: End, input: seq<byte>, ct: byte, payload: seq<byte>, rest: seq<byte>, end: End)
    requires e.prot.Sound()
    ensures ReadOne(e, input) == Record(ct, payload, rest, end) <==>
            && e.seqNum < 0xFFFF_FFFF_FFFF_FFFF && |input| >= 5
            && input[0] == ct && 20 <= ct <= 23 && input[1] == 3 && 1 <= input[2] <= 3
            && var n := FromBigEndian(input[3..5]);
               && n <= 16384 + 2048 && |input| >= 5 + n && rest == input[5 + n..]
               && Open(e.prot, e.seqNum, input[..5], input[5..5 + n]) == (Some(payload), end.prot)
               && |payload| <= 16384 && end.seqNum == e.seqNum + 1
  {
    hide Open, FromBigEndian, Protector.Sound;
    if |input| >= 5 {
      assert input[..5][3..5] == input[3..5];
    }
  }

  /** Why a record is refused, by what arrived, in the order of precedence. */
  lemma ReadRefused(e: End, input: seq<byte>)
    requires e.prot.Sound() && ReadOne(e, input).NoRecord?
    ensures var n := if |input| >= 5 then FromBigEndian(input[3..5]) else 0;
            ReadOne(e, input).error ==
            if e.seqNum == 0xFFFF_FFFF_FFFF_FFFF then SeqOverflow
            else if |input| < 5 then Transport
            else if input[0] < 20 || input[0] > 23 then IllegalParameter
            else if input[1] != 3 || input[2] < 1 || input[2] > 3 then ProtocolVersion
            else if n > 18432 then RecordOverflow
            else if |input| < 5 + n then Transport
            else if Open(e.prot, e.seqNum, input[..5], input[5..5 + n]).0.None? then BadRecordMac
            else RecordOverflow
  {
    hide Open, FromBigEndian, Protector.Sound;
    if |input| >= 5 {
      assert input[..5][3..5] == input[3..5];
    }
  }

  /** What one end writes the other reads, whatever follows on the wire, and
      both ends are then in the same state. */
  lemma ReadWritten(e: End, ct: byte, payload: seq<byte>, iv: seq<byte>, tail: seq<byte>)
    requires e.prot.Sound() && e.prot.IvFits(iv)
    requires WriteOne(e, ct, payload, iv).Written?
    ensures var w := WriteOne(e, ct, payload, iv);
            && ReadOne(e, w.wire + tail) == Record(ct, payload, tail, w.end)
            && w.end.prot.Sound()
            && HEADER_LEN + |payload| <= |w.wire| <= HEADER_LEN + MAX_FRAGMENT
  {
    hide Seal, Open, BigEndian, FromBigEndian, AdditionalData;
    var (fragment, prot) := Seal(e.prot, e.seqNum, Template(ct), payload, iv);
    SealBound(e.prot, e.seqNum, Template(ct), payload, iv);
    var len := BigEndian(|fragment|, 2);
    TwoBytes(|fragment|);
    var hdr: Header := [ct, 3, 3] + len;
    OpenSealed(e.prot, e.seqNum, Template(ct), hdr, payload, iv);
    var input := [ct, 3, 3] + len + fragment + tail;
    assert input[..HEADER_LEN] == hdr && hdr[3..5] == len;
    assert input[HEADER_LEN..HEADER_LEN + |fragment|] == fragment;
    assert input[HEADER_LEN + |fragment|..] == tail;
  }

  lemma TwoBytes(n: nat)
    requires n < 0x1_0000
    ensures FromBigEndian(BigEndian(n, 2)) == n
  {
    assert Pow256(2) == 0x1_0000;
    BigEndianDecodes(n, 2);
  }

  // ---- Runs ---------------------------------------------------------------

  /** Two ends act in step: a write on one is a read on the other, a swap of the
      sending protector on one a swap of the receiving protector on the other. */
  datatype Event = Write(ct: byte, payload: seq<byte>, iv: seq<byte>) | Swap(prot: Protector)

  /** A swap installs the new protector and restarts the numbering. */
  function Swapped(prot: Protector): (e: End)
  {
    End(prot, 0)
  }

  /** Every protector met in the run is sound and gets an IV of its size. */
  ghost predicate WellFormedRun(e: End, es: seq<Event>)
    decreases |es|
  {
    && e.prot.Sound()
    && (es == [] ||
        match es[0]
        case Swap(p) => WellFormedRun(Swapped(p), es[1..])
        case Write(ct, payload, iv) =>
          && e.prot.IvFits(iv)
          && (WriteOne(e, ct, payload, iv).Written? ==> WellFormedRun(WriteOne(e, ct, payload, iv).end, es[1..])))
  }

  /** The bytes of a whole run, unless some write was refused. */
  function WriterRun(e: End, es: seq<Event>): (r: Option<(seq<byte>, End)>)
    requires WellFormedRun(e, es)
    decreases |es|
  {
    if es == [] then Some(([], e))
    else match es[0]
      case Swap(p) => WriterRun(Swapped(p), es[1..])
      case Write(ct, payload, iv) =>
        var w := WriteOne(e, ct, payload, iv);
        if w.NotWritten? then None
        else match WriterRun(w.end, es[1..])
          case None => None
          case Some((wire, end)) => Some((w.wire + wire, end))
  }

  datatype Delivered = Delivered(records: seq<(byte, seq<byte>)>, rest: seq<byte>, end: End)

  function ReaderRun(e: End, es: seq<Event>, input: seq<byte>): (r: Option<Delivered>)
    requires e.prot.Sound() && forall x :: x in es && x.Swap? ==> x.prot.Sound()
    decreases |es|
  {
    if es == [] then Some(Delivered([], input, e))
    else match es[0]
      case Swap(p) => ReaderRun(Swapped(p), es[1..], input)
      case Write(_, _, _) =>
        var r := ReadOne(e, input);
        if r.NoRecord? then None
        else match ReaderRun(r.end, es[1..], r.rest)
          case None => None
          case Some(d) => Some(d.(records := [(r.ct, r.payload)] + d.records))
  }

  function Sent(es: seq<Event>): (r: seq<(byte, seq<byte>)>)
  {
    if es == [] then []
    else (match es[0] case Swap(_) => [] case Write(ct, payload, _) => [(ct, payload)]) + Sent(es[1..])
  }

  lemma {:induction false} SwapsSound(e: End, es: seq<Event>)
    requires WellFormedRun(e, es) && WriterRun(e, es).Some?
    ensures forall x :: x in es && x.Swap? ==> x.prot.Sound()
    decreases |es|
  {
    hide WriteOne;
    if es != [] {
      match es[0]
      case Swap(p) => SwapsSound(Swapped(p), es[1..]);
      case Write(ct, payload, iv) => SwapsSound(WriteOne(e, ct, payload, iv).end, es[1..]);
      assert es == [es[0]] + es[1..];
    }
  }

  /** Whatever is written and however often protectors are swapped, a reader
      that swaps at the same places recovers exactly the records and ends with
      the writer's protector state and sequence number. */
  lemma {:induction false} RunRoundTrip(e: End, es: seq<Event>, tail: seq<byte>)
    requires WellFormedRun(e, es) && WriterRun(e, es).Some?
    ensures forall x :: x in es && x.Swap? ==> x.prot.Sound()
    ensures var (wire, end) := WriterRun(e, es).value;
            ReaderRun(e, es, wire + tail) == Some(Delivered(Sent(es), tail, end))
    decreases |es|
  {
    hide WriteOne, ReadOne, Protector.Sound, Protector.IvFits;
    SwapsSound(e, es);
    if es == [] {
      assert [] + tail == tail;
    } else {
      match es[0]
      case Swap(p) =>
        RunRoundTrip(Swapped(p), es[1..], tail);
        assert [] + Sent(es[1..]) == Sent(es[1..]);
      case Write(ct, payload, iv) =>
        var w := WriteOne(e, ct, payload, iv);
        RunRoundTrip(w.end, es[1..], tail);
        var (wire, end) := WriterRun(w.end, es[1..]).value;
        WriteIsRead(e, es, wire, end, tail);
    }
  }

  lemma WriteIsRead(e: End, es: seq<Event>, wire: seq<byte>, end: End, tail: seq<byte>)
    requires e.prot.Sound() && (forall x :: x in es && x.Swap? ==> x.prot.Sound())
    requires es != [] && es[0].Write? && e.prot.IvFits(es[0].iv)
    requires WriteOne(e, es[0].ct, es[0].payload, es[0].iv).Written?
    requires WriteOne(e, es[0].ct, es[0].payload, es[0].iv).end.prot.Sound()
    requires ReaderRun(WriteOne(e, es[0].ct, es[0].payload, es[0].iv).end, es[1..], wire + tail)
          == Some(Delivered(Sent(es[1..]), tail, end))
    ensures ReaderRun(e, es, WriteOne(e, es[0].ct, es[0].payload, es[0].iv).wire + wire + tail)
         == Some(Delivered(Sent(es), tail, end))
  {
    hide WriteOne, ReadOne, Protector.Sound, Protector.IvFits;
    var w := WriteOne(e, es[0].ct, es[0].payload, es[0].iv);
    ReadWritten(e, es[0].ct, es[0].payload, es[0].iv, wire + tail);
    assert w.wire + (wire + tail) == w.wire + wire + tail;
  }

  /** `x` succeeds at an end that stands at `e`. */
  ghost predicate Succeeds(e: End, x: Event)
  {
    && e.prot.Sound()
    && match x
       case Swap(p) => p.Sound()
       case Write(ct, payload, iv) => e.prot.IvFits(iv) && WriteOne(e, ct, payload, iv).Written?
  }

  ghost function WireFor(e: End, x: Event): (r: seq<byte>)
    requires Succeeds(e, x)
  {
    match x case Swap(_) => [] case Write(ct, payload, iv) => WriteOne(e, ct, payload, iv).wire
  }

  ghost function EndAfter(e: End, x: Event): (r: End)
    requires Succeeds(e, x)
  {
    match x case Swap(p) => Swapped(p) case Write(ct, payload, iv) => WriteOne(e, ct, payload, iv).end
  }

  /** A run goes on where it stands. */
  lemma {:induction false} WriterRunSnoc(e: End, es: seq<Event>, x: Event)
    requires WellFormedRun(e, es) && WriterRun(e, es).Some?
    ensures WriterRun(e, es).value.1.prot.Sound()
    ensures Succeeds(WriterRun(e, es).value.1, x) ==>
              && WellFormedRun(e, es + [x])
              && WriterRun(e, es + [x]) == Some((WriterRun(e, es).value.0 + WireFor(WriterRun(e, es).value.1, x),
                                                 EndAfter(WriterRun(e, es).value.1, x)))
    decreases |es|
  {
    hide WriteOne, Protector.Sound, Protector.IvFits, Succeeds, WireFor, EndAfter;
    if es == [] {
      LastStep(e, x);
      assert es + [x] == [x];
      if Succeeds(e, x) {
        assert [] + WireFor(e, x) == WireFor(e, x);
      }
    } else {
      assert (es + [x])[0] == es[0] && (es + [x])[1..] == es[1..] + [x];
      match es[0]
      case Swap(p) =>
        WriterRunSnoc(Swapped(p), es[1..], x);
      case Write(ct, payload, iv) =>
        var w := WriteOne(e, ct, payload, iv);
        WriterRunSnoc(w.end, es[1..], x);
        var (wire, end) := WriterRun(w.end, es[1..]).value;
        if Succeeds(end, x) {
          assert w.wire + (wire + WireFor(end, x)) == w.wire + wire + WireFor(end, x);
        }
    }
  }

  lemma LastStep(e: End, x: Event)
    ensures Succeeds(e, x) ==> WellFormedRun(e, [x]) && WriterRun(e, [x]) == Some((WireFor(e, x), EndAfter(e, x)))
  {
    hide Protector.Sound, Protector.IvFits, BigEndian;
    assert [x][1..] == [];
    if x.Write? && Succeeds(e, x) {
      SealedSound(e.prot, e.seqNum, Template(x.ct), x.payload, x.iv);
      assert WireFor(e, x) + [] == WireFor(e, x);
    }
  }

  /** An event without its randomness, which the other end never sees. */
  function Strip(es: seq<Event>): (r: seq<Event>)
    ensures |r| == |es|
  {
    if es == [] then [] else Strip(es[..|es| - 1]) + [StripOne(es[|es| - 1])]
  }

  function StripOne(x: Event): (r: Event)
  {
    match x case Swap(_) => x case Write(ct, payload, _) => Write(ct, payload, [])
  }

  lemma {:induction false} StripAt(es: seq<Event>)
    ensures forall i :: 0 <= i < |es| ==> Strip(es)[i] == StripOne(es[i])
  {
    if es != [] {
      StripAt(es[..|es| - 1]);
    }
  }

  /** A reader follows the stripped events as well. */
  lemma {:induction false} ReaderRunStripped(e: End, es: seq<Event>, es': seq<Event>, input: seq<byte>)
    requires e.prot.Sound() && (forall x :: x in es && x.Swap? ==> x.prot.Sound())
    requires |es'| == |es| && forall i :: 0 <= i < |es| ==> es'[i] == StripOne(es[i])
    ensures forall x :: x in es' && x.Swap? ==> x.prot.Sound()
    ensures ReaderRun(e, es', input) == ReaderRun(e, es, input) && Sent(es') == Sent(es)
    decreases |es|
  {
    hide ReadOne, Protector.Sound;
    if es != [] {
      assert es'[0] == StripOne(es[0]);
      forall x | x in es' && x.Swap? ensures x.prot.Sound() {
        var i :| 0 <= i < |es'| && es'[i] == x;
        assert es[i] == x && es[i] in es;
      }
      match es[0]
      case Swap(p) =>
        assert es[0] in es;
        ReaderRunStripped(Swapped(p), es[1..], es'[1..], input);
      case Write(_, _, _) =>
        var r := ReadOne(e, input);
        if r.Record? {
          ReaderRunStripped(r.end, es[1..], es'[1..], r.rest);
        } else {
          ReaderRunStripped(e, es[1..], es'[1..], input);
        }
    }
  }

  /** What was written can be read by an end that knows where to swap. */
  lemma ReadBack(e: End, es: seq<Event>, tail: seq<byte>)
    requires WellFormedRun(e, es) && WriterRun(e, es).Some?
    ensures forall x :: x in Strip(es) && x.Swap? ==> x.prot.Sound()
    ensures var (wire, end) := WriterRun(e, es).value;
            ReaderRun(e, Strip(es), wire + tail) == Some(Delivered(Sent(Strip(es)), tail, end))
  {
    hide WriterRun, ReaderRun, Protector.Sound, Strip, StripOne;
    RunRoundTrip(e, es, tail);
    StripAt(es);
    ReaderRunStripped(e, es, Strip(es), WriterRun(e, es).value.0 + tail);
  }

  /** Writes since the last swap. */
  function WritesInEpoch(start: nat, es: seq<Event>): (n: nat)
  {
    if es == [] then start
    else match es[|es| - 1]
      case Swap(_) => 0
      case Write(_, _, _) => WritesInEpoch(start, es[..|es| - 1]) + 1
  }

  lemma {:induction false} WritesInEpochStep(start: nat, es: seq<Event>)
    requires es != []
    ensures WritesInEpoch(start, es) == WritesInEpoch(if es[0].Swap? then 0 else start + 1, es[1..])
    decreases |es|
  {
    if |es| > 1 && es[|es| - 1].Write? {
      WritesInEpochStep(start, es[..|es| - 1]);
      assert es[..|es| - 1][1..] == es[1..][..|es| - 2];
    }
  }

  /** The number in force counts the records of the current epoch. */
  lemma {:induction false} SequenceNumbers(e: End, es: seq<Event>)
    requires WellFormedRun(e, es) && WriterRun(e, es).Some?
    ensures WriterRun(e, es).value.1.seqNum == WritesInEpoch(e.seqNum, es)
    decreases |es|
  {
    hide Seal;
    if es != [] {
      WritesInEpochStep(e.seqNum, es);
      match es[0]
      case Swap(p) => SequenceNumbers(Swapped(p), es[1..]);
      case Write(ct, payload, iv) => SequenceNumbers(WriteOne(e, ct, payload, iv).end, es[1..]);
    }
  }

  // ---- The layer ----------------------------------------------------------

  function Drawn(random: Option<seq<byte>>): (iv: seq<byte>)
  {
    if random.None? then [] else random.value
  }

  /** `written` are the bytes accepted by the transport, `input` those it has
      still to deliver. */
  class Layer {
    var written: seq<byte>
    var input: seq<byte>
    var sendSeq: Seq
    var recvSeq: Seq
    var sendProt: Protector
    var recvProt: Protector

    ghost predicate Valid()
      reads this`sendProt, this`recvProt
    {
      sendProt.Sound() && recvProt.Sound()
    }

    ghost function Sending(): End
      reads this`sendProt, this`sendSeq
    {
      End(sendProt, sendSeq)
    }

    ghost function Receiving(): End
      reads this`recvProt, this`recvSeq
    {
      End(recvProt, recvSeq)
    }

    constructor (input: seq<byte>, initialSeq: Seq)
      ensures Valid() && written == [] && this.input == input
      ensures Sending() == Receiving() == End(Null, initialSeq)
    {
      written, this.input := [], input;
      sendSeq, recvSeq, sendProt, recvProt := initialSeq, initialSeq, Null, Null;
    }

    method ChangeCipherSpec(send: Option<Protector>, recv: Option<Protector>)
      requires Valid()
      requires send.Some? ==> send.value.Sound()
      requires recv.Some? ==> recv.value.Sound()
      modifies this`sendSeq, this`recvSeq, this`sendProt, this`recvProt
      ensures Valid()
      ensures Sending() == if send.Some? then Swapped(send.value) else old(Sending())
      ensures Receiving() == if recv.Some? then Swapped(recv.value) else old(Receiving())
      ensures (send.Some? ==> sendProt == send.value && sendSeq == 0)
              && (recv.Some? ==> recvProt == recv.value && recvSeq == 0)
    {
      if send.Some? {
        sendProt, sendSeq := send.value, 0;
      }
      if recv.Some? {
        recvProt, recvSeq := recv.value, 0;
      }
    }

    /** `random` is a draw from the random source, which may fail; only CBC makes
        one. `room` is the number of bytes the transport takes before it fails. A
        failed write has used up the protector's state but not the number. */
    method WriteRecord(ct: byte, payload: seq<byte>, random: Option<seq<byte>>, room: nat)
      returns (error: Option<Error>)
      requires Valid() && (random.Some? ==> sendProt.IvFits(random.value))
      modifies this`written, this`sendSeq, this`sendProt
      ensures Valid()
      ensures old(sendProt).Cbc? && random.None? ==>
                error.Some? && written == old(written) && Sending() == old(Sending())
      ensures !(old(sendProt).Cbc? && random.None?) ==>
              var w := WriteOne(old(Sending()), ct, payload, Drawn(random));
              match w
              case NotWritten(err) => error == Some(err) && written == old(written) && Sending() == old(Sending())
              case Written(wire, end) =>
                if room >= |wire|
                then error == None && written == old(written) + wire && Sending() == end
                else error == Some(Transport) && written == old(written) + wire[..room]
                     && Sending() == End(end.prot, old(sendSeq))
    {
      hide Seal, BigEndian, Protector.Sound;
      if !KnownContentType(ct) {
        return Some(UnknownType);
      }
      if |payload| > MAX_PLAINTEXT {
        return Some(PayloadTooLong);
      }
      if sendSeq == MAX_SEQ {
        return Some(SeqOverflow);
      }
      if sendProt.Cbc? && random.None? {
        return Some(NoRandomness);
      }
      var iv := Drawn(random);
      SealedSound(sendProt, sendSeq, Template(ct), payload, iv);
      var (fragment, prot) := Seal(sendProt, sendSeq, Template(ct), payload, iv);
      sendProt := prot;
      var hdr := [ct, 3, 3] + BigEndian(|fragment|, 2);
      if room < |hdr| {
        written := written + hdr[..room];
        assert hdr[..room] == (hdr + fragment)[..room];
        return Some(Transport);
      }
      written := written + hdr;
      if room - |hdr| < |fragment| {
        written := written + fragment[..room - |hdr|];
        assert hdr + fragment[..room - |hdr|] == (hdr + fragment)[..room];
        return Some(Transport);
      }
      written := written + fragment;
      sendSeq := sendSeq + 1;
      error := None;
    }

    method ReadRecord() returns (error: Option<Error>, ct: byte, payload: seq<byte>)
      requires Valid()
      modifies this`input, this`recvSeq, this`recvProt
      ensures Valid()
      ensures match ReadOne(old(Receiving()), old(input))
              case NoRecord(err, prot, rest) =>
                error == Some(err) && input == rest && Receiving() == End(prot, old(recvSeq))
              case Record(c, p, rest, end) =>
                error == None && ct == c && payload == p && input == rest && Receiving() == end
      ensures error == None ==> KnownContentType(ct) && |payload| <= MAX_PLAINTEXT
    {
      hide Open, FromBigEndian, Protector.Sound;
      ct, payload := 0, [];
      if recvSeq == MAX_SEQ {
        return Some(SeqOverflow), ct, payload;
      }
      if |input| < HEADER_LEN {
        input := [];
        return Some(Transport), ct, payload;
      }
      var hdr := input[..HEADER_LEN];
      input := input[HEADER_LEN..];
      var length := FromBigEndian(hdr[3..5]);
      if !KnownContentType(hdr[0]) {
        return Some(IllegalParameter), ct, payload;
      }
      if !AcceptedVersion(hdr[1], hdr[2]) {
        return Some(ProtocolVersion), ct, payload;
      }
      if length > MAX_FRAGMENT {
        return Some(RecordOverflow), ct, payload;
      }
      if |input| < length {
        input := [];
        return Some(Transport), ct, payload;
      }
      assert old(input)[HEADER_LEN..HEADER_LEN + length] == input[..length];
      var fragment := input[..length];
      input := input[length..];
      assert old(input)[HEADER_LEN + length..] == input;
      OpenedSound(recvProt, recvSeq, hdr, fragment);
      var (plain, prot) := Open(recvProt, recvSeq, hdr, fragment);
      recvProt := prot;
      if plain.None? {
        return Some(BadRecordMac), ct, payload;
      }
      if |plain.value| > MAX_PLAINTEXT {
        return Some(RecordOverflow), ct, payload;
      }
      recvSeq := recvSeq + 1;
      error, ct, payload := None, hdr[0], plain.value;
    }
  }

  lemma SealedSound(p: Protector, seqNum: Seq, hdr: Header, plain: seq<byte>, iv: seq<byte>)
    requires p.Sound() && p.IvFits(iv)
    ensures Seal(p, seqNum, hdr, plain, iv).1.Sound()
  {
  }

  lemma OpenedSound(p: Protector, seqNum: Seq, hdr: Header, fragment: seq<byte>)
    requires p.Sound()
    ensures Open(p, seqNum, hdr, fragment).1.Sound()
  {
  }
}
