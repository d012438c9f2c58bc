/** Reassembly of handshake messages from the payloads of handshake records. */
module Reassembly {
  import opened Bytes
  import opened Wire
  import opened Messages
  import RecordLayer

  const MAX_HANDSHAKE: nat := 256 * 1024
  const HS_HEADER: nat := 4

  /** No state of the buffer reaches this size. */
  const BUFFER_LIMIT: nat := HS_HEADER + MAX_HANDSHAKE + RecordLayer.MAX_PLAINTEXT

  type Payloads = seq<seq<byte>>
  type Msgs = seq<(byte, seq<byte>)>

  /** The receiving direction of a record layer: protector, number, and the
      bytes the transport has still to deliver. */
  datatype Source = Source(end: RecordLayer.End, input: seq<byte>) {
    ghost predicate Sound()
    {
      end.prot.Sound()
    }

    function Read(): (r: RecordLayer.ReadResult)
      requires Sound()
    {
      RecordLayer.ReadOne(end, input)
    }

    /** The same bytes behind a new protector. */
    function Swap(prot: RecordLayer.Protector): (r: Source)
    {
      Source(RecordLayer.Swapped(prot), input)
    }
  }

  /** The message at the front of a buffer, if the buffer holds all of it. */
  datatype Front = Complete(t: byte, body: seq<byte>, rest: seq<byte>) | TooLong | Incomplete

  function FrontOf(buf: seq<byte>): (r: Front)
  {
    if |buf| < HS_HEADER then Incomplete
    else
      var n := FromBigEndian(buf[1..4]);
      if n > MAX_HANDSHAKE then TooLong
      else if |buf| < HS_HEADER + n then Incomplete
      else Complete(buf[0], buf[HS_HEADER..HS_HEADER + n], buf[HS_HEADER + n..])
  }

  /** By position: type, a length of at most 2^18, body and rest. A larger length
      is refused as soon as it is read. */
  lemma FrontIff(buf: seq<byte>, t: byte, body: seq<byte>, rest: seq<byte>)
    ensures FrontOf(buf) == Complete(t, body, rest) <==>
            && |body| <= 262144
            && FieldAt(buf, 0, 1, t) && FieldAt(buf, 1, 3, |body|) && BytesAt(buf, 4, body)
            && buf[4 + |body|..] == rest
    ensures FrontOf(buf) == TooLong <==> |buf| >= 4 && FromBigEndian(buf[1..4]) > 262144
  {
    hide FromBigEndian;
    ByteAt(buf, 0, t);
    if |buf| >= 1 {
      assert buf[0..1] == [buf[0]];
    }
  }

  datatype Error = BodyTooLong | Unreadable(error: RecordLayer.Error) | NotHandshake(ct: byte)

  datatype Next =
    | Msg(t: byte, body: seq<byte>, buf: seq<byte>, src: Source)
    | Failed(error: Error)

  /** One call: messages come from the buffer, records are read only when the
      buffer has no whole message. */
  function NextMessage(buf: seq<byte>, src: Source): (r: Next)
    requires src.Sound()
    ensures r.Msg? ==> r.src.Sound()
    decreases |src.input|
  {
    match FrontOf(buf)
    case TooLong => Failed(BodyTooLong)
    case Complete(t, body, rest) => Msg(t, body, rest, src)
    case Incomplete =>
      match src.Read()
      case NoRecord(error, _, _) => Failed(Unreadable(error))
      case Record(ct, payload, rest, end) =>
        if ct == RecordLayer.HANDSHAKE then NextMessage(buf + payload, Source(end, rest))
        else Failed(NotHandshake(ct))
  }

  // ---- Fragmentation does not matter --------------------------------------

  /** The next records are handshake records with these payloads, and lead to
      `tail`. */
  ghost predicate Reads(src: Source, hs: Payloads, tail: Source)
    decreases |hs|
  {
    src.Sound() &&
    if hs == [] then src == tail
    else
      var r := src.Read();
      && r.Record? && r.ct == RecordLayer.HANDSHAKE && r.payload == hs[0]
      && Reads(Source(r.end, r.rest), hs[1..], tail)
  }

  lemma {:induction false} ReadsOn(src: Source, h1: Payloads, mid: Source, h2: Payloads, tail: Source)
    requires Reads(src, h1, mid) && Reads(mid, h2, tail)
    ensures Reads(src, h1 + h2, tail) && tail.Sound()
    decreases |h1| + |h2|
  {
    hide RecordLayer.ReadOne;
    if h1 == [] {
      assert h1 + h2 == h2;
      if h2 != [] {
        var r := mid.Read();
        ReadsOn(Source(r.end, r.rest), [], Source(r.end, r.rest), h2[1..], tail);
      }
    } else {
      assert (h1 + h2)[0] == h1[0] && (h1 + h2)[1..] == h1[1..] + h2;
      var r := src.Read();
      ReadsOn(Source(r.end, r.rest), h1[1..], mid, h2, tail);
    }
  }

  /** More bytes do not change a decided front. */
  lemma FrontIsStable(buf: seq<byte>, more: seq<byte>)
    ensures match FrontOf(buf)
            case Complete(t, body, rest) => FrontOf(buf + more) == Complete(t, body, rest + more)
            case TooLong => FrontOf(buf + more) == TooLong
            case Incomplete => true
  {
    if |buf| >= HS_HEADER {
      assert (buf + more)[1..4] == buf[1..4];
      if FrontOf(buf).Complete? {
        var total := HS_HEADER + |FrontOf(buf).body|;
        assert (buf + more)[HS_HEADER..total] == buf[HS_HEADER..total];
        assert (buf + more)[total..] == buf[total..] + more;
      }
    }
  }

  /** A call on handshake records finds what the undivided stream holds, and
      leaves the records from number `k` on. */
  lemma {:induction false} NextIsFrontOfStream(buf: seq<byte>, src: Source, hs: Payloads, tail: Source) returns (k: nat)
    requires Reads(src, hs, tail)
    ensures k <= |hs| && tail.Sound()
    ensures match FrontOf(buf + Flatten(hs))
            case Complete(t, body, rest) =>
              var r := NextMessage(buf, src);
              && r.Msg? && r.t == t && r.body == body
              && Reads(r.src, hs[k..], tail) && r.buf + Flatten(hs[k..]) == rest
            case TooLong => NextMessage(buf, src) == Failed(BodyTooLong)
            case Incomplete => NextMessage(buf, src) == NextMessage(buf + Flatten(hs), tail)
    decreases |hs|
  {
    hide FrontOf, RecordLayer.ReadOne;
    ReadsOn(src, hs, tail, [], tail) by { TailReads(src, hs, tail); }
    FrontIsStable(buf, Flatten(hs));
    k := 0;
    if FrontOf(buf).Incomplete? {
      if hs == [] {
        assert buf + [] == buf;
      } else {
        var r := src.Read();
        var j := NextIsFrontOfStream(buf + hs[0], Source(r.end, r.rest), hs[1..], tail);
        assert buf + hs[0] + Flatten(hs[1..]) == buf + Flatten(hs);
        assert hs[1..][j..] == hs[j + 1..];
        k := j + 1;
      }
    }
  }

  lemma {:induction false} TailReads(src: Source, hs: Payloads, tail: Source)
    requires Reads(src, hs, tail)
    ensures Reads(tail, [], tail)
    decreases |hs|
  {
    hide RecordLayer.ReadOne;
    if hs != [] {
      var r := src.Read();
      TailReads(Source(r.end, r.rest), hs[1..], tail);
    }
  }

  datatype Harvest = Harvest(list: Msgs, ended: Option<Error>)

  /** The first `k` messages of an undivided stream that ends in `error`. */
  function Deframe(stream: seq<byte>, error: Error, k: nat): (r: Harvest)
  {
    if k == 0 then Harvest([], None)
    else match FrontOf(stream)
      case Complete(t, body, rest) =>
        var r := Deframe(rest, error, k - 1);
        r.(list := [(t, body)] + r.list)
      case TooLong => Harvest([], Some(BodyTooLong))
      case Incomplete => Harvest([], Some(error))
  }

  /** `k` successive calls. */
  function ReadMany(buf: seq<byte>, src: Source, k: nat): (r: Harvest)
    requires src.Sound()
    decreases k
  {
    if k == 0 then Harvest([], None)
    else match NextMessage(buf, src)
      case Failed(e) => Harvest([], Some(e))
      case Msg(t, body, buf', src') =>
        var r := ReadMany(buf', src', k - 1);
        r.(list := [(t, body)] + r.list)
  }

  /** The source has no more handshake records, for this reason. */
  ghost predicate EndsWith(src: Source, error: Error)
    requires src.Sound()
  {
    match src.Read()
    case NoRecord(e, _, _) => error == Unreadable(e)
    case Record(ct, _, _, _) => ct != RecordLayer.HANDSHAKE && error == NotHandshake(ct)
  }

  /** However the stream was cut into records, and under whatever protector
      they came, successive calls return the messages of the stream. */
  lemma {:induction false} ReadManyIsDeframe(buf: seq<byte>, src: Source, hs: Payloads, tail: Source, error: Error,
                                             k: nat)
    requires Reads(src, hs, tail) && tail.Sound() && EndsWith(tail, error)
    ensures ReadMany(buf, src, k) == Deframe(buf + Flatten(hs), error, k)
    decreases k
  {
    hide FrontOf, RecordLayer.ReadOne;
    if k > 0 {
      var j := NextIsFrontOfStream(buf, src, hs, tail);
      var r := NextMessage(buf, src);
      if FrontOf(buf + Flatten(hs)).Complete? {
        ReadManyIsDeframe(r.buf, r.src, hs[j..], tail, error, k - 1);
      }
    }
  }

  lemma FragmentationIndependence(a: Source, ha: Payloads, ta: Source, b: Source, hb: Payloads, tb: Source,
                                  error: Error, k: nat)
    requires Reads(a, ha, ta) && ta.Sound() && EndsWith(ta, error)
    requires Reads(b, hb, tb) && tb.Sound() && EndsWith(tb, error)
    requires Flatten(ha) == Flatten(hb)
    ensures a.Sound() && b.Sound() && ReadMany([], a, k) == ReadMany([], b, k)
  {
    hide ReadMany, Deframe, RecordLayer.ReadOne, EndsWith;
    ReadManyIsDeframe([], a, ha, ta, error, k);
    ReadManyIsDeframe([], b, hb, tb, error, k);
  }

  // ---- A stream of known messages -----------------------------------------

  /** The wire form of a list of messages. */
  function WireOf(msgs: Msgs): (r: seq<byte>)
  {
    if msgs == [] then [] else Envelope(msgs[0].0, msgs[0].1) + WireOf(msgs[1..])
  }

  /** Successive calls return `msgs` and leave `buf'` and `src'`. */
  ghost predicate Takes(buf: seq<byte>, src: Source, msgs: Msgs, buf': seq<byte>, src': Source)
    decreases |msgs|
  {
    src.Sound() &&
    if msgs == [] then buf == buf' && src == src'
    else
      var r := NextMessage(buf, src);
      && r.Msg? && (r.t, r.body) == msgs[0]
      && Takes(r.buf, r.src, msgs[1..], buf', src')
  }

  lemma {:induction false} TakesOn(b0: seq<byte>, s0: Source, m1: Msgs, b1: seq<byte>, s1: Source, m2: Msgs,
                                   b2: seq<byte>, s2: Source)
    requires Takes(b0, s0, m1, b1, s1) && Takes(b1, s1, m2, b2, s2)
    ensures Takes(b0, s0, m1 + m2, b2, s2)
    decreases |m1|
  {
    hide NextMessage;
    if m1 == [] {
      assert m1 + m2 == m2;
    } else {
      assert (m1 + m2)[0] == m1[0] && (m1 + m2)[1..] == m1[1..] + m2;
      var r := NextMessage(b0, s0);
      TakesOn(r.buf, r.src, m1[1..], b1, s1, m2, b2, s2);
    }
  }

  /** No empty record at the end, which no call would take. */
  predicate Trimmed(hs: Payloads)
  {
    hs == [] || hs[|hs| - 1] != []
  }

  /** Handshake records that hold exactly `msgs`, cut anyhow, lead to `tail`. */
  ghost predicate Supplies(src: Source, hs: Payloads, msgs: Msgs, tail: Source)
  {
    Reads(src, hs, tail) && Flatten(hs) == WireOf(msgs) && Trimmed(hs)
  }

  predicate AllFit(msgs: Msgs)
  {
    forall i :: 0 <= i < |msgs| ==> |msgs[i].1| <= MAX_HANDSHAKE
  }

  lemma FrontOfEnvelope(t: byte, body: seq<byte>, rest: seq<byte>)
    requires |body| <= MAX_HANDSHAKE
    ensures FrontOf(Envelope(t, body) + rest) == Complete(t, body, rest)
  {
    hide BigEndian, FromBigEndian, Pow256;
    var buf := Envelope(t, body) + rest;
    assert buf[1..4] == BigEndian(|body|, 3);
    assert |body| < Pow256(3) by { Widths(); }
    BigEndianDecodes(|body|, 3);
    assert buf[4..4 + |body|] == body && buf[4 + |body|..] == rest;
  }

  lemma {:induction false} AllTaken(hs: Payloads)
    requires Trimmed(hs)
    ensures hs != [] ==> Flatten(hs) != []
  {
    if hs != [] {
      assert hs == hs[..|hs| - 1] + [hs[|hs| - 1]];
      FlattenSnoc(hs[..|hs| - 1], hs[|hs| - 1]);
    }
  }

  /** Records that hold messages are taken as these messages. */
  lemma {:induction false} SuppliedIsTaken(buf: seq<byte>, src: Source, hs: Payloads, msgs: Msgs, tail: Source)
    requires Reads(src, hs, tail) && buf + Flatten(hs) == WireOf(msgs) && Trimmed(hs) && AllFit(msgs)
    ensures Takes(buf, src, msgs, [], tail)
    decreases |msgs|
  {
    hide FrontOf, Envelope, NextMessage, RecordLayer.ReadOne;
    if msgs == [] {
      AllTaken(hs);
    } else {
      FrontOfEnvelope(msgs[0].0, msgs[0].1, WireOf(msgs[1..]));
      var k := NextIsFrontOfStream(buf, src, hs, tail);
      var r := NextMessage(buf, src);
      SuppliedIsTaken(r.buf, r.src, hs[k..], msgs[1..], tail);
    }
  }

  /** A call takes the records up to the one that completes its message. */
  lemma {:induction false} NextReads(buf: seq<byte>, src: Source) returns (hs: Payloads)
    requires src.Sound() && NextMessage(buf, src).Msg?
    ensures var r := NextMessage(buf, src);
            && Reads(src, hs, r.src) && Trimmed(hs)
            && buf + Flatten(hs) == Envelope(r.t, r.body) + r.buf && |r.body| <= MAX_HANDSHAKE
    decreases |src.input|
  {
    hide FrontOf, Envelope, RecordLayer.ReadOne;
    if FrontOf(buf).Complete? {
      hs := [];
      FrontIsEnvelope(buf);
      assert buf + [] == buf;
    } else {
      var r := src.Read();
      var more := NextReads(buf + r.payload, Source(r.end, r.rest));
      hs := [r.payload] + more;
      assert hs[0] == r.payload && hs[1..] == more;
      assert buf + Flatten(hs) == buf + r.payload + Flatten(more);
      assert r.payload == [] ==> buf + r.payload == buf;
      assert more == [] ==> Reads(Source(r.end, r.rest), [], NextMessage(buf, src).src);
      if more == [] && r.payload == [] {
        assert buf + Flatten(hs) == buf;
        var n := NextMessage(buf, src);
        FrontOfEnvelope(n.t, n.body, n.buf);
      }
    }
  }

  /** The other way: what was taken came in such records. */
  lemma {:induction false} TakenIsSupplied(buf: seq<byte>, src: Source, msgs: Msgs, buf': seq<byte>, src': Source)
    returns (hs: Payloads)
    requires Takes(buf, src, msgs, buf', src')
    ensures Reads(src, hs, src') && Trimmed(hs) && AllFit(msgs)
    ensures buf + Flatten(hs) == WireOf(msgs) + buf'
    decreases |msgs|
  {
    hide FrontOf, Envelope, NextMessage, RecordLayer.ReadOne;
    if msgs == [] {
      hs := [];
      assert buf + [] == buf && [] + buf' == buf';
    } else {
      var r := NextMessage(buf, src);
      var first := NextReads(buf, src);
      var more := TakenIsSupplied(r.buf, r.src, msgs[1..], buf', src');
      hs := first + more;
      ReadsOn(src, first, r.src, more, src');
      FlattenConcat(first, more);
      JoinTaken(buf, first, more, r.buf, msgs, buf');
    }
  }

  lemma JoinTaken(buf: seq<byte>, first: Payloads, more: Payloads, rest: seq<byte>, msgs: Msgs, buf': seq<byte>)
    requires msgs != [] && buf + Flatten(first) == Envelope(msgs[0].0, msgs[0].1) + rest
    requires rest + Flatten(more) == WireOf(msgs[1..]) + buf'
    ensures buf + (Flatten(first) + Flatten(more)) == WireOf(msgs) + buf'
  {
    hide Envelope, Flatten;
    var e := Envelope(msgs[0].0, msgs[0].1);
    assert buf + (Flatten(first) + Flatten(more)) == buf + Flatten(first) + Flatten(more);
    assert e + rest + Flatten(more) == e + (rest + Flatten(more));
    assert e + (WireOf(msgs[1..]) + buf') == e + WireOf(msgs[1..]) + buf';
  }

  // ---- A sender -----------------------------------------------------------

  /** Writes of handshake records with these payloads. */
  predicate HandshakeWrites(ws: seq<RecordLayer.Event>, hs: Payloads)
  {
    && |ws| == |hs|
    && forall i :: 0 <= i < |ws| ==> ws[i].Write? && ws[i].ct == RecordLayer.HANDSHAKE && ws[i].payload == hs[i]
  }

  ghost predicate SwapsSound(es: seq<RecordLayer.Event>)
  {
    forall x :: x in es && x.Swap? ==> x.prot.Sound()
  }

  /** A reader that recovers all records of a run reads these payloads first. */
  lemma {:induction false} WritesAreRead(src: Source, ws: seq<RecordLayer.Event>, hs: Payloads,
                                         more: seq<RecordLayer.Event>)
    returns (tail: Source)
    requires src.Sound() && SwapsSound(ws + more) && HandshakeWrites(ws, hs)
    requires RecordLayer.ReaderRun(src.end, ws + more, src.input).Some?
    requires RecordLayer.ReaderRun(src.end, ws + more, src.input).value.records == RecordLayer.Sent(ws + more)
    ensures Reads(src, hs, tail) && tail.Sound() && SwapsSound(more)
    ensures RecordLayer.ReaderRun(tail.end, more, tail.input).Some?
    ensures RecordLayer.ReaderRun(tail.end, more, tail.input).value.records == RecordLayer.Sent(more)
    decreases |ws|
  {
    hide RecordLayer.ReadOne, RecordLayer.Protector.Sound;
    if ws == [] {
      assert ws + more == more;
      tail := src;
    } else {
      var es := ws + more;
      assert es[0] == ws[0] && es[1..] == ws[1..] + more;
      assert SwapsSound(es[1..]) by {
        assert forall x :: x in es[1..] ==> x in es;
      }
      var r := src.Read();
      var d := RecordLayer.ReaderRun(r.end, es[1..], r.rest).value;
      assert RecordLayer.Sent(es) == [(es[0].ct, es[0].payload)] + RecordLayer.Sent(es[1..]);
      assert ([(r.ct, r.payload)] + d.records)[0] == RecordLayer.Sent(es)[0];
      assert d.records == ([(r.ct, r.payload)] + d.records)[1..];
      assert RecordLayer.Sent(es)[1..] == RecordLayer.Sent(es[1..]);
      tail := WritesAreRead(Source(r.end, r.rest), ws[1..], hs[1..], more);
    }
  }

  // ---- Size of the buffer -------------------------------------------------

  lemma IncompleteBound(buf: seq<byte>)
    requires FrontOf(buf).Incomplete?
    ensures |buf| < HS_HEADER + MAX_HANDSHAKE
  {
  }

  /** A message and its envelope are what the buffer held. */
  lemma FrontIsEnvelope(buf: seq<byte>)
    requires FrontOf(buf).Complete?
    ensures var f := FrontOf(buf);
            buf == Envelope(f.t, f.body) + f.rest && |f.body| <= MAX_HANDSHAKE
  {
    hide BigEndian, FromBigEndian;
    var f := FrontOf(buf);
    BigEndianEncodes(buf[1..4]);
    assert buf == [buf[0]] + buf[1..4] + f.body + f.rest;
  }
}
