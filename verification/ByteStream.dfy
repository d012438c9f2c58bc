/** From the bytes written on one end to the bytes read on the other, through
    records under any protector. */
module ByteStream {
  import opened Bytes
  import opened ConnStream
  import RecordLayer

  type Pieces = seq<seq<byte>>

  // ---- Writing ------------------------------------------------------------

  /** The payloads of a series of writes. */
  function AllChunks(bs: Pieces): (r: Pieces)
  {
    if bs == [] then [] else Chunks(bs[0]) + AllChunks(bs[1..])
  }

  lemma {:induction false} AllChunksPartition(bs: Pieces)
    ensures Flatten(AllChunks(bs)) == Flatten(bs)
    ensures forall i :: 0 <= i < |AllChunks(bs)| ==> AllChunks(bs)[i] != []
  {
    hide Chunks;
    if bs != [] {
      ChunksPartition(bs[0]);
      AllChunksPartition(bs[1..]);
      FlattenConcat(Chunks(bs[0]), AllChunks(bs[1..]));
    }
  }

  /** Their records; `ivs` is the randomness drawn for each. */
  function DataWrites(chunks: Pieces, ivs: Pieces): (es: seq<RecordLayer.Event>)
    requires |ivs| == |chunks|
  {
    if chunks == [] then []
    else [RecordLayer.Write(RecordLayer.APPLICATION_DATA, chunks[0], ivs[0])] + DataWrites(chunks[1..], ivs[1..])
  }

  // ---- Reading ------------------------------------------------------------

  /** What the reading end's layer delivers. */
  function Records(rs: seq<(byte, seq<byte>)>): (r: seq<Incoming>)
    ensures |r| == |rs|
  {
    seq(|rs|, i requires 0 <= i < |rs| => Rec(rs[i].0, rs[i].1))
  }

  /** Application data records, none of them empty. */
  predicate OnlyData(incoming: seq<Incoming>)
  {
    forall i :: 0 <= i < |incoming| ==>
      incoming[i].Rec? && incoming[i].ct == RecordLayer.APPLICATION_DATA && incoming[i].payload != []
  }

  lemma {:induction false} WrittenRecords(chunks: Pieces, ivs: Pieces)
    requires |ivs| == |chunks| && forall i :: 0 <= i < |chunks| ==> chunks[i] != []
    ensures var rs := Records(RecordLayer.Sent(DataWrites(chunks, ivs)));
            OnlyData(rs) && AppBytes(rs) == Flatten(chunks)
    decreases |chunks|
  {
    if chunks != [] {
      var es := DataWrites(chunks, ivs);
      WrittenRecords(chunks[1..], ivs[1..]);
      assert es[0] == RecordLayer.Write(RecordLayer.APPLICATION_DATA, chunks[0], ivs[0]);
      assert es[1..] == DataWrites(chunks[1..], ivs[1..]);
      var rs, more := Records(RecordLayer.Sent(es)), Records(RecordLayer.Sent(es[1..]));
      assert rs == [Rec(RecordLayer.APPLICATION_DATA, chunks[0])] + more;
      assert rs[0] == Rec(RecordLayer.APPLICATION_DATA, chunks[0]) && rs[1..] == more;
      assert forall i :: 0 < i < |rs| ==> rs[i] == more[i - 1];
    }
  }

  function Left(s: Reader): (n: nat)
  {
    |s.buf| + |AppBytes(s.incoming)|
  }

  /** The reader goes on as long as there is something left. */
  predicate Going(s: Reader)
  {
    Sane(s) && OnlyData(s.incoming) && (s.err.Some? ==> Left(s) == 0)
  }

  lemma DataNext(incoming: seq<Incoming>)
    requires OnlyData(incoming)
    ensures incoming != [] ==> FindData(incoming, 0) == Data(incoming[0].payload, 1)
    ensures incoming == [] ==> FindData(incoming, 0) == End(TransportError, 0)
  {
  }

  lemma Drop(incoming: seq<Incoming>)
    requires incoming != [] && OnlyData(incoming)
    ensures OnlyData(incoming[1..]) && |AppBytes(incoming)| == |incoming[0].payload| + |AppBytes(incoming[1..])|
  {
  }

  /** A read with room delivers a byte while one is left. */
  lemma ReadDelivers(s: Reader, n: nat)
    requires Going(s) && n > 0
    ensures var (s', data, _) := ReadStep(s, n);
            && Going(s') && |data| + Left(s') == Left(s)
            && (Left(s) > 0 ==> data != [])
  {
    hide FindData, AppBytes, OnlyData;
    NoBytes();
    if s.buf == [] && s.err.None? {
      DataNext(s.incoming);
      if s.incoming != [] {
        Drop(s.incoming);
      } else {
        assert s.incoming[0..] == s.incoming;
      }
    }
  }

  lemma {:induction false} ReadsDeliver(s: Reader, sizes: seq<nat>)
    requires Going(s) && forall i :: 0 <= i < |sizes| ==> sizes[i] > 0
    ensures |ReadRun(s, sizes).1| >= Min(|sizes|, Left(s))
    decreases |sizes|
  {
    hide ReadStep, Going, Left;
    if sizes != [] {
      ReadDelivers(s, sizes[0]);
      ReadsDeliver(ReadStep(s, sizes[0]).0, sizes[1..]);
    }
  }

  // ---- End to end ---------------------------------------------------------

  /** Whatever is written in whatever pieces, under any sound protector, and read
      with whatever buffers: the reader gets a prefix of the bytes written, and
      all of them once it has made enough reads. */
  lemma EndToEnd(e: RecordLayer.End, bs: Pieces, ivs: Pieces, tail: seq<byte>, sizes: seq<nat>)
    requires |ivs| == |AllChunks(bs)|
    requires RecordLayer.WellFormedRun(e, DataWrites(AllChunks(bs), ivs))
    requires RecordLayer.WriterRun(e, DataWrites(AllChunks(bs), ivs)).Some?
    ensures var es := DataWrites(AllChunks(bs), ivs);
            && (forall x :: x in es && x.Swap? ==> x.prot.Sound())
            && var wire := RecordLayer.WriterRun(e, es).value.0;
               var d := RecordLayer.ReaderRun(e, es, wire + tail);
               && d.Some?
               && var out := ReadRun(Reader([], None, [], Records(d.value.records)), sizes).1;
                  && out <= Flatten(bs)
                  && ((forall i :: 0 <= i < |sizes| ==> sizes[i] > 0) && |sizes| >= |Flatten(bs)| ==>
                        out == Flatten(bs))
  {
    hide RecordLayer.WriterRun, RecordLayer.ReaderRun, RecordLayer.WellFormedRun, RecordLayer.Sent, DataWrites,
         AllChunks, ReadRun, Records, AppBytes, OnlyData, RecordLayer.Protector.Sound;
    var es := DataWrites(AllChunks(bs), ivs);
    RecordLayer.RunRoundTrip(e, es, tail);
    AllChunksPartition(bs);
    WrittenRecords(AllChunks(bs), ivs);
    ReadsThrough(Records(RecordLayer.Sent(es)), sizes);
  }

  lemma ReadsThrough(incoming: seq<Incoming>, sizes: seq<nat>)
    requires OnlyData(incoming)
    ensures var out := ReadRun(Reader([], None, [], incoming), sizes).1;
            && out <= AppBytes(incoming)
            && ((forall i :: 0 <= i < |sizes| ==> sizes[i] > 0) && |sizes| >= |AppBytes(incoming)| ==>
                  out == AppBytes(incoming))
  {
    hide ReadRun, AppBytes, OnlyData;
    var s := Reader([], None, [], incoming);
    RunConserves(s, sizes);
    var (s', out) := ReadRun(s, sizes);
    AppBytesConcat(s'.taken, s'.incoming);
    assert s'.taken[0..] == s'.taken && s'.taken + s'.incoming == incoming;
    assert out + s'.buf == AppBytes(s'.taken);
    assert AppBytes(incoming) == out + (s'.buf + AppBytes(s'.incoming));
    if forall i :: 0 <= i < |sizes| ==> sizes[i] > 0 {
      ReadsDeliver(s, sizes);
    }
  }
}
