/** The connection as a byte stream: Read and Write after the handshake. */
module ConnStream {
  import opened Bytes
  import RecordLayer

  const MAX_EMPTY: nat := 32
  const MAX_CHUNK: nat := 0x4000

  /** What a call of the record layer's ReadRecord yields. */
  datatype Incoming = Rec(ct: byte, payload: seq<byte>) | Broken

  datatype StreamError =
    | ConnClosed | TransportError | TooManyEmptyRecords | AlertTruncated | Eof
    | AlertReceived(level: byte, desc: byte) | UnexpectedRecord(ct: byte)

  // ---- Read ---------------------------------------------------------------

  /** The read side: what is buffered, the sticky error, and the records that
      have and have not been taken from the layer. */
  datatype Reader = Reader(buf: seq<byte>, err: Option<StreamError>, taken: seq<Incoming>, incoming: seq<Incoming>)

  datatype Found = Data(payload: seq<byte>, count: nat) | End(err: StreamError, count: nat)

  /** The first record that is not empty application data, or the error it or
      the 33rd empty one causes; `count` records are taken. */
  function FindData(incoming: seq<Incoming>, empty: nat): (r: Found)
    requires empty <= MAX_EMPTY
    ensures r.count <= |incoming| && r.count <= MAX_EMPTY + 1 - empty
    ensures r.Data? ==> r.payload != [] && r.count > 0
    decreases |incoming|
  {
    if incoming == [] then End(TransportError, 0)
    else
      var found := OnRecord(incoming[0]);
      if found.Some? then found.value
      else if empty + 1 > MAX_EMPTY then End(TooManyEmptyRecords, 1)
      else
        var r := FindData(incoming[1..], empty + 1);
        if r.Data? then Data(r.payload, r.count + 1) else End(r.err, r.count + 1)
  }

  /** What one record ends the search with; an empty one does not. */
  function OnRecord(rec: Incoming): (r: Option<Found>)
    ensures r.Some? ==> r.value.count == 1 && (r.value.Data? ==> r.value.payload != [])
  {
    match rec
    case Broken => Some(End(TransportError, 1))
    case Rec(ct, payload) =>
      if ct == RecordLayer.APPLICATION_DATA then
        (if payload != [] then Some(Data(payload, 1)) else None)
      else if ct == RecordLayer.ALERT then
        if |payload| < 2 then Some(End(AlertTruncated, 1))
        else if payload[1] == 0 then Some(End(Eof, 1))
        else Some(End(AlertReceived(payload[0], payload[1]), 1))
      else Some(End(UnexpectedRecord(ct), 1))
  }

  function Min(a: nat, b: nat): (m: nat)
  {
    if a < b then a else b
  }

  /** One Read into a buffer of `n` bytes on an open connection. */
  function ReadStep(s: Reader, n: nat): (r: (Reader, seq<byte>, Option<StreamError>))
  {
    if s.buf != [] then
      var k := Min(n, |s.buf|);
      (s.(buf := s.buf[k..]), s.buf[..k], None)
    else if s.err.Some? then (s, [], s.err)
    else
      var f := FindData(s.incoming, 0);
      var s1 := s.(taken := s.taken + s.incoming[..f.count], incoming := s.incoming[f.count..]);
      match f
      case End(e, _) => (s1.(err := Some(e)), [], Some(e))
      case Data(payload, _) =>
        var k := Min(n, |payload|);
        (s1.(buf := payload[k..]), payload[..k], None)
  }

  /** The application bytes of a list of records. */
  function AppBytes(rs: seq<Incoming>): (r: seq<byte>)
  {
    if rs == [] then []
    else BytesOf(rs[0]) + AppBytes(rs[1..])
  }

  function BytesOf(rec: Incoming): (r: seq<byte>)
  {
    if rec.Rec? && rec.ct == RecordLayer.APPLICATION_DATA then rec.payload else []
  }

  lemma {:induction false} AppBytesConcat(a: seq<Incoming>, b: seq<Incoming>)
    ensures AppBytes(a + b) == AppBytes(a) + AppBytes(b)
    decreases |a|
  {
    hide BytesOf;
    if a == [] {
      assert a + b == b;
    } else {
      assert (a + b)[0] == a[0] && (a + b)[1..] == a[1..] + b;
      AppBytesConcat(a[1..], b);
      assert BytesOf(a[0]) + (AppBytes(a[1..]) + AppBytes(b)) == BytesOf(a[0]) + AppBytes(a[1..]) + AppBytes(b);
    }
  }

  /** Nothing but the payload found is lost or invented. */
  lemma {:induction false} FoundBytes(incoming: seq<Incoming>, empty: nat)
    requires empty <= MAX_EMPTY
    ensures var f := FindData(incoming, empty);
            AppBytes(incoming[..f.count]) == if f.Data? then f.payload else []
    decreases |incoming|
  {
    if incoming != [] {
      var f := FindData(incoming, empty);
      assert incoming[..f.count][1..] == incoming[1..][..f.count - 1];
      if f.count > 1 {
        FoundBytes(incoming[1..], empty + 1);
      } else {
        assert AppBytes(incoming[1..][..0]) == [];
      }
    }
  }

  /** The results of a run of reads of any sizes. */
  function ReadRun(s: Reader, sizes: seq<nat>): (r: (Reader, seq<byte>))
    decreases |sizes|
  {
    if sizes == [] then (s, [])
    else
      var (s1, data, _) := ReadStep(s, sizes[0]);
      var (s2, more) := ReadRun(s1, sizes[1..]);
      (s2, data + more)
  }

  /** An error is only recorded with nothing left to deliver. */
  predicate Sane(s: Reader)
  {
    s.err.Some? ==> s.buf == []
  }

  /** One read delivers or keeps buffered exactly what was buffered and the
      application bytes of the records it takes, of which there are at most 33;
      it never reports an error together with data, and an error stays. */
  lemma ReadStepConserves(s: Reader, n: nat)
    requires Sane(s)
    ensures var (s', data, err) := ReadStep(s, n);
            && Sane(s')
            && s'.taken + s'.incoming == s.taken + s.incoming
            && s.taken <= s'.taken && |s'.taken| <= |s.taken| + MAX_EMPTY + 1
            && data + s'.buf == s.buf + AppBytes(s'.taken[|s.taken|..])
            && |data| <= n
            && (err.Some? ==> data == [] && s'.err == err)
            && (err.None? && n > 0 ==> data != [])
            && (s.err.Some? ==> s' == s && err == s.err)
  {
    hide FindData, AppBytes;
    NoBytes();
    var s' := ReadStep(s, n).0;
    if s.buf != [] || s.err.Some? {
      assert s'.taken[|s.taken|..] == [];
    } else {
      var f := FindData(s.incoming, 0);
      FoundBytes(s.incoming, 0);
      assert s'.taken[|s.taken|..] == s.incoming[..f.count];
    }
  }

  /** Whatever the buffer sizes, the bytes delivered by a run of reads followed
      by what is buffered are the application bytes of the records taken. */
  lemma {:induction false} RunConserves(s: Reader, sizes: seq<nat>)
    requires Sane(s)
    ensures var (s', out) := ReadRun(s, sizes);
            && Sane(s')
            && s'.taken + s'.incoming == s.taken + s.incoming
            && s.taken <= s'.taken
            && out + s'.buf == s.buf + AppBytes(s'.taken[|s.taken|..])
    decreases |sizes|
  {
    hide ReadStep, AppBytes, Sane;
    if sizes == [] {
      assert s.taken[|s.taken|..] == [];
      assert AppBytes([]) == [] by { NoBytes(); }
    } else {
      var (s1, data, _) := ReadStep(s, sizes[0]);
      ReadStepConserves(s, sizes[0]);
      RunConserves(s1, sizes[1..]);
      var (s2, more) := ReadRun(s1, sizes[1..]);
      AppBytesConcat(s1.taken[|s.taken|..], s2.taken[|s1.taken|..]);
      var a1, a2 := s1.taken[|s.taken|..], s2.taken[|s1.taken|..];
      assert s2.taken[|s.taken|..] == a1 + a2;
      assert data + more + s2.buf == data + (more + s2.buf);
      assert data + (s1.buf + AppBytes(a2)) == (data + s1.buf) + AppBytes(a2);
      assert s.buf + AppBytes(a1) + AppBytes(a2) == s.buf + (AppBytes(a1) + AppBytes(a2));
    }
  }

  lemma NoBytes()
    ensures AppBytes([]) == []
  {
  }

  predicate Empties(rs: seq<Incoming>)
  {
    forall i :: 0 <= i < |rs| ==> rs[i] == Rec(23, [])
  }

  lemma {:induction false} FindSkips(rs: seq<Incoming>, rec: Incoming, more: seq<Incoming>, empty: nat)
    requires Empties(rs) && empty + |rs| <= 32 && OnRecord(rec).Some?
    ensures FindData(rs + [rec] + more, empty) == Shift(OnRecord(rec).value, |rs|)
    decreases |rs|
  {
    var all := rs + [rec] + more;
    if rs == [] {
      assert all[0] == rec;
    } else {
      assert all[0] == Rec(23, []) && all[1..] == rs[1..] + [rec] + more;
      FindSkips(rs[1..], rec, more, empty + 1);
    }
  }

  lemma {:induction false} FindGivesUp(rs: seq<Incoming>, more: seq<Incoming>, empty: nat)
    requires Empties(rs) && empty <= 32 && empty + |rs| == 33
    ensures FindData(rs + more, empty) == End(TooManyEmptyRecords, |rs|)
    decreases |rs|
  {
    var all := rs + more;
    assert all[0] == Rec(23, []) && all[1..] == rs[1..] + more;
    if |rs| > 1 {
      FindGivesUp(rs[1..], more, empty + 1);
    }
  }

  /** What a read makes of the records in front of it: up to 32 empty ones are
      skipped, and the next one is taken and decides. Data is delivered as far as
      there is room and kept beyond that; close_notify ends the stream; any other
      alert and any other record is an error. */
  lemma ReadDecides(s: Reader, n: nat, rs: seq<Incoming>, rec: Incoming, more: seq<Incoming>)
    requires s.buf == [] && s.err.None? && s.incoming == rs + [rec] + more
    requires Empties(rs) && |rs| <= 32 && rec != Rec(23, [])
    ensures var (s', data, err) := ReadStep(s, n);
            && s'.incoming == more && s'.taken == s.taken + rs + [rec]
            && if rec.Rec? && rec.ct == 23 then
                 var k := if n < |rec.payload| then n else |rec.payload|;
                 data == rec.payload[..k] && s'.buf == rec.payload[k..] && err == None && s'.err == None
               else
                 && data == [] && s'.buf == [] && s'.err == err
                 && err == Some(if rec.Broken? then TransportError
                                else if rec.ct != 21 then UnexpectedRecord(rec.ct)
                                else if |rec.payload| < 2 then AlertTruncated
                                else if rec.payload[1] == 0 then Eof
                                else AlertReceived(rec.payload[0], rec.payload[1]))
  {
    hide FindData;
    FindSkips(rs, rec, more, 0);
    assert s.incoming[..|rs| + 1] == rs + [rec] && s.incoming[|rs| + 1..] == more;
    assert s.taken + (rs + [rec]) == s.taken + rs + [rec];
  }

  /** The 33rd empty record in a row is an error. */
  lemma ReadGivesUp(s: Reader, n: nat, rs: seq<Incoming>, more: seq<Incoming>)
    requires s.buf == [] && s.err.None? && s.incoming == rs + more && Empties(rs) && |rs| == 33
    ensures var (s', data, err) := ReadStep(s, n);
            s'.incoming == more && data == [] && err == Some(TooManyEmptyRecords) && s'.err == err
  {
    hide FindData;
    FindGivesUp(rs, more, 0);
    assert s.incoming[33..] == more;
  }

  // ---- Write --------------------------------------------------------------

  function Chunks(b: seq<byte>): (r: seq<seq<byte>>)
    decreases |b|
  {
    if b == [] then [] else [b[..Min(MAX_CHUNK, |b|)]] + Chunks(b[Min(MAX_CHUNK, |b|)..])
  }

  /** The records of a write are its input, cut into pieces of 1 to 2^14 bytes,
      all but the last of the full size. */
  lemma {:induction false} ChunksPartition(b: seq<byte>)
    ensures Flatten(Chunks(b)) == b
    ensures forall i :: 0 <= i < |Chunks(b)| ==> 1 <= |Chunks(b)[i]| <= MAX_CHUNK
    ensures forall i :: 0 <= i < |Chunks(b)| - 1 ==> |Chunks(b)[i]| == MAX_CHUNK
    decreases |b|
  {
    if b != [] {
      var rest := b[Min(MAX_CHUNK, |b|)..];
      ChunksPartition(rest);
      if |b| <= MAX_CHUNK {
        assert Chunks(rest) == [];
      }
      assert Chunks(b)[1..] == Chunks(rest);
    }
  }

  // ---- The connection -----------------------------------------------------

  class Conn {
    var closed: bool
    var readBuf: seq<byte>
    var readErr: Option<StreamError>
    var incoming: seq<Incoming>
    var sent: seq<seq<byte>>
    ghost var taken: seq<Incoming>
    ghost var delivered: seq<byte>

    ghost function ReadSide(): Reader
      reads this
    {
      Reader(readBuf, readErr, taken, incoming)
    }

    ghost predicate Valid()
      reads this
    {
      Sane(ReadSide()) && delivered + readBuf == AppBytes(taken)
    }

    constructor (incoming: seq<Incoming>)
      ensures Valid() && !closed && sent == [] && delivered == []
      ensures ReadSide() == Reader([], None, [], incoming)
    {
      closed, readBuf, readErr, this.incoming, sent := false, [], None, incoming, [];
      taken, delivered := [], [];
    }

    method Close()
      modifies this`closed
      ensures closed
    {
      closed := true;
    }

    /** `n` is the size of the caller's buffer. */
    method Read(n: nat) returns (data: seq<byte>, err: Option<StreamError>)
      requires Valid()
      modifies this`readBuf, this`readErr, this`incoming, this`taken, this`delivered
      ensures Valid() && delivered == old(delivered) + data
      ensures closed ==> ReadSide() == old(ReadSide()) && data == [] && err == Some(ConnClosed)
      ensures !closed ==> (ReadSide(), data, err) == ReadStep(old(ReadSide()), n)
    {
      hide AppBytes, FindData;
      ghost var before := ReadSide();
      ReadKeepsValid(before, n, delivered);
      assert delivered + [] == delivered;
      if closed {
        return [], Some(ConnClosed);
      }
      if |readBuf| > 0 {
        var k := Min(n, |readBuf|);
        data, err := readBuf[..k], None;
        readBuf := readBuf[k..];
        delivered := delivered + data;
        return;
      }
      if readErr.Some? {
        return [], readErr;
      }
      var found := Fetch();
      match found
      case End(e, _) =>
        readErr := Some(e);
        data, err := [], readErr;
      case Data(payload, _) =>
        var k := Min(n, |payload|);
        data, err := payload[..k], None;
        readBuf := readBuf + payload[k..];
        assert readBuf == payload[k..];
        delivered := delivered + data;
    }

    /** The loop of Read: takes records until one decides the outcome. */
    method Fetch() returns (found: Found)
      modifies this`incoming, this`taken
      ensures found == FindData(old(incoming), 0)
      ensures incoming == old(incoming)[found.count..]
      ensures taken == old(taken) + old(incoming)[..found.count]
    {
      hide OnRecord;
      var empty := 0;
      while true
        invariant empty <= MAX_EMPTY && empty <= |old(incoming)| && incoming == old(incoming)[empty..]
        invariant taken == old(taken) + old(incoming)[..empty]
        invariant FindData(old(incoming), 0) == Shift(FindData(incoming, empty), empty)
        decreases |incoming|
      {
        if |incoming| == 0 {
          return End(TransportError, empty);
        }
        var rec := incoming[0];
        incoming := incoming[1..];
        taken := taken + [rec];
        assert old(incoming)[..empty] + [rec] == old(incoming)[..empty + 1];
        var f := Classify(rec);
        if f.Some? {
          return Shift(f.value, empty);
        }
        empty := empty + 1;
        if empty > MAX_EMPTY {
          return End(TooManyEmptyRecords, empty);
        }
      }
    }

    static method Classify(rec: Incoming) returns (r: Option<Found>)
      ensures r == OnRecord(rec)
    {
      if rec.Broken? {
        return Some(End(TransportError, 1));
      }
      if rec.ct == RecordLayer.APPLICATION_DATA {
        if |rec.payload| == 0 {
          return None;
        }
        return Some(Data(rec.payload, 1));
      }
      if rec.ct == RecordLayer.ALERT {
        if |rec.payload| < 2 {
          return Some(End(AlertTruncated, 1));
        }
        if rec.payload[1] == 0 {
          return Some(End(Eof, 1));
        }
        return Some(End(AlertReceived(rec.payload[0], rec.payload[1]), 1));
      }
      r := Some(End(UnexpectedRecord(rec.ct), 1));
    }

    /** `room` is the number of records the transport takes before it fails. */
    method Write(b: seq<byte>, room: nat) returns (written: nat, ok: bool)
      modifies this`sent
      ensures closed ==> sent == old(sent) && written == 0 && !ok
      ensures written <= |b|
      ensures !closed ==>
                var k := Min(room, |Chunks(b)|);
                && sent == old(sent) + Chunks(b)[..k]
                && ok == (room >= |Chunks(b)|)
                && b[..written] == Flatten(Chunks(b)[..k])
    {
      if closed {
        return 0, false;
      }
      var rest := b;
      written, ok := 0, true;
      var k := 0;
      while |rest| > 0
        invariant written <= |b| && rest == b[written..]
        invariant k <= |Chunks(b)| && k <= room && Chunks(rest) == Chunks(b)[k..]
        invariant sent == old(sent) + Chunks(b)[..k]
        invariant b[..written] == Flatten(Chunks(b)[..k])
        decreases |rest|
      {
        var chunk := rest;
        if |chunk| > MAX_CHUNK {
          chunk := chunk[..MAX_CHUNK];
        }
        assert chunk == Chunks(rest)[0] == Chunks(b)[k];
        if room == k {
          return written, false;
        }
        sent := sent + [chunk];
        FlattenSnoc(Chunks(b)[..k], chunk);
        assert Chunks(b)[..k] + [chunk] == Chunks(b)[..k + 1];
        assert b[..written] + chunk == b[..written + |chunk|];
        written := written + |chunk|;
        rest := rest[|chunk|..];
        k := k + 1;
      }
    }
  }

  function Shift(f: Found, k: nat): (r: Found)
  {
    match f
    case Data(p, n) => Data(p, n + k)
    case End(e, n) => End(e, n + k)
  }

  lemma ReadKeepsValid(s: Reader, n: nat, delivered: seq<byte>)
    requires Sane(s) && delivered + s.buf == AppBytes(s.taken)
    ensures var (s', data, _) := ReadStep(s, n);
            delivered + data + s'.buf == AppBytes(s'.taken)
  {
    hide ReadStep, AppBytes;
    var (s', data, _) := ReadStep(s, n);
    ReadStepConserves(s, n);
    AppBytesConcat(s.taken, s'.taken[|s.taken|..]);
    var fresh' := AppBytes(s'.taken[|s.taken|..]);
    assert s'.taken == s.taken + s'.taken[|s.taken|..];
    assert delivered + data + s'.buf == delivered + (data + s'.buf);
    assert delivered + (s.buf + fresh') == (delivered + s.buf) + fresh';
  }
}
