/** Where every field of a handshake message stands on the wire. */
module Layout {
  import opened Bytes
  import opened Wire
  import opened Extensions
  import opened Messages

  // ---- Envelope -----------------------------------------------------------

  /** The message types of section 7.4 of RFC 5246. */
  predicate TypeCode(m: Message, t: byte)
  {
    match m
    case HelloRequest => t == 0
    case ClientHello(_, _, _, _, _, _) => t == 1
    case ServerHello(_, _, _, _, _, _, _, _) => t == 2
    case Certificate(_) => t == 11
    case ServerKeyExchange(_) => t == 12
    case CertificateRequest(_, _, _) => t == 13
    case ServerHelloDone => t == 14
    case CertificateVerify(_, _) => t == 15
    case ClientKeyExchange(_) => t == 16
    case Finished(_) => t == 20
  }

  /** Type, length and body, and nothing else. */
  predicate EnvelopeAt(b: seq<byte>, t: byte, body: seq<byte>)
  {
    |b| == 4 + |body| && FieldAt(b, 0, 1, t) && FieldAt(b, 1, 3, |body|) && BytesAt(b, 4, body)
  }

  lemma EnvelopeIff(b: seq<byte>, t: byte, body: seq<byte>)
    requires |body| < 0x100_0000
    ensures b == Envelope(t, body) <==> EnvelopeAt(b, t, body)
  {
    hide FieldAt, BytesAt, Prefixed;
    Widths();
    WholeAt(b, Envelope(t, body));
    ConcatAt(b, 0, [t], Prefixed(body, 3));
    ByteAt(b, 0, t);
    PrefixedAt(b, 1, body, 3);
  }

  lemma MessageAt(m: Message) returns (t: byte)
    requires |Marshal(m)| < 0x100_0000
    ensures TypeCode(m, t) && EnvelopeAt(MarshalMessage(m), t, Marshal(m))
  {
    hide Marshal, EnvelopeAt;
    t := TypeOf(m);
    EnvelopeIff(MarshalMessage(m), t, Marshal(m));
  }

  // ---- The hellos ---------------------------------------------------------

  /** Version, random and session id. */
  predicate GreetingAt(b: seq<byte>, version: uint16, random: seq<byte>, sid: seq<byte>)
  {
    && |random| == 32 && |sid| <= 32
    && FieldAt(b, 0, 2, version)
    && BytesAt(b, 2, random)
    && FieldAt(b, 34, 1, |sid|) && BytesAt(b, 35, sid)
  }

  predicate NumbersAt(b: seq<byte>, at: nat, xs: seq<uint16>)
  {
    at + 2 * |xs| <= |b| && forall i :: 0 <= i < |xs| ==> FieldAt(b, at + 2 * i, 2, xs[i])
  }

  /** Cipher suites, compression methods, and `block` as what follows. */
  predicate ClientHelloAt(b: seq<byte>, m: Message, block: seq<byte>)
    requires m.ClientHello?
  {
    var n, k, q := |m.sessionId|, |m.suites|, |m.compressions|;
    && GreetingAt(b, m.version, m.random, m.sessionId)
    && FieldAt(b, 35 + n, 2, 2 * k) && NumbersAt(b, 37 + n, m.suites)
    && FieldAt(b, 37 + n + 2 * k, 1, q) && BytesAt(b, 38 + n + 2 * k, m.compressions)
    && b[38 + n + 2 * k + q..] == block
  }

  /** The chosen suite, the compression method, and `block` as what follows. */
  predicate ServerHelloAt(b: seq<byte>, m: Message, block: seq<byte>)
    requires m.ServerHello?
  {
    var n := |m.sessionId|;
    && GreetingAt(b, m.version, m.random, m.sessionId)
    && FieldAt(b, 35 + n, 2, m.suite)
    && FieldAt(b, 37 + n, 1, m.compression)
    && b[38 + n..] == block
  }

  lemma NumbersIff(b: seq<byte>, at: nat, xs: seq<uint16>)
    ensures BytesAt(b, at, EncodePairs(OfUint16, xs)) <==> NumbersAt(b, at, xs)
  {
    hide FieldAt, BytesAt, EncodePairs, OfUint16;
    PairsAt(b, at, OfUint16, xs);
    forall i | 0 <= i < |xs|
      ensures FieldAt(b, at + 2 * i, 2, xs[i]) <==>
              FieldAt(b, at + 2 * i, 1, OfUint16(xs[i]).0) && FieldAt(b, at + 2 * i + 1, 1, OfUint16(xs[i]).1) {
      PairIsNumber(b, at + 2 * i, xs[i]);
    }
  }

  lemma PairIsNumber(b: seq<byte>, at: nat, v: uint16)
    ensures FieldAt(b, at, 2, v) <==> FieldAt(b, at, 1, OfUint16(v).0) && FieldAt(b, at + 1, 1, OfUint16(v).1)
  {
    hide FieldAt, BytesAt;
    Uint16At(b, at, v);
    assert Uint16(v) == [v / 256] + [v % 256];
    ConcatAt(b, at, [v / 256], [v % 256]);
    ByteAt(b, at, v / 256);
    ByteAt(b, at + 1, v % 256);
  }

  lemma GreetingIff(b: seq<byte>, version: uint16, random: seq<byte>, sid: seq<byte>)
    requires |random| == 32 && |sid| <= 32
    ensures BytesAt(b, 0, Uint16(version) + random + Prefixed(sid, 1)) <==> GreetingAt(b, version, random, sid)
  {
    hide FieldAt, BytesAt, Uint16, Prefixed;
    Widths();
    ConcatAt(b, 0, Uint16(version) + random, Prefixed(sid, 1));
    ConcatAt(b, 0, Uint16(version), random);
    Uint16At(b, 0, version);
    PrefixedAt(b, 34, sid, 1);
  }

  lemma ClientHelloBytes(b: seq<byte>, m: Message, block: seq<byte>)
    requires m.ClientHello? && HeadFits(m)
    ensures b == ClientHelloHead(m) + block <==> ClientHelloAt(b, m, block)
  {
    hide FieldAt, BytesAt, Uint16, Prefixed, GreetingAt, NumbersAt, EncodePairs;
    Widths();
    var n, k := |m.sessionId|, |m.suites|;
    var start := Uint16(m.version) + m.random + Prefixed(m.sessionId, 1);
    var cs := EncodePairs(OfUint16, m.suites);
    FrontAt(b, ClientHelloHead(m), block);
    ConcatAt(b, 0, start + Prefixed(cs, 2), Prefixed(m.compressions, 1));
    ConcatAt(b, 0, start, Prefixed(cs, 2));
    GreetingIff(b, m.version, m.random, m.sessionId);
    PrefixedAt(b, 35 + n, cs, 2);
    NumbersIff(b, 37 + n, m.suites);
    PrefixedAt(b, 37 + n + 2 * k, m.compressions, 1);
  }

  lemma ServerHelloBytes(b: seq<byte>, m: Message, block: seq<byte>)
    requires m.ServerHello? && HelloFits(m.random, m.sessionId)
    ensures b == ServerHelloHead(m) + block <==> ServerHelloAt(b, m, block)
  {
    hide FieldAt, BytesAt, Uint16, Prefixed, GreetingAt;
    var n := |m.sessionId|;
    var start := Uint16(m.version) + m.random + Prefixed(m.sessionId, 1);
    FrontAt(b, ServerHelloHead(m), block);
    ConcatAt(b, 0, start + Uint16(m.suite), [m.compression]);
    ConcatAt(b, 0, start, Uint16(m.suite));
    GreetingIff(b, m.version, m.random, m.sessionId);
    Uint16At(b, 35 + n, m.suite);
    ByteAt(b, 37 + n, m.compression);
  }

  /** A body is accepted as the ClientHello `m` exactly if the fields of `m` stand
      at their places in front of a block with its extensions. */
  lemma ClientHelloIff(b: seq<byte>, m: Message)
    ensures ParseClientHello(b) == Some(m) <==>
            && m.ClientHello? && HeadFits(m)
            && exists block :: ClientHelloAt(b, m, block)
                               && ParseExtBlock(block).Some? && ParseExtBlock(block).value.ext == m.ext
  {
    hide ParseClientHello, ParseExtBlock, ClientHelloAt, ClientHelloHead;
    if ParseClientHello(b) == Some(m) {
      var block := ClientHelloParts(b);
      ClientHelloBytes(b, m, block);
      assert ClientHelloAt(b, m, block);
    }
    if m.ClientHello? && HeadFits(m) {
      forall block | ClientHelloAt(b, m, block) && ParseExtBlock(block).Some? && ParseExtBlock(block).value.ext == m.ext
        ensures ParseClientHello(b) == Some(m) {
        ClientHelloBytes(b, m, block);
        ParseClientHelloHead(m, block);
      }
    }
  }

  lemma ServerHelloIff(b: seq<byte>, m: Message)
    ensures ParseServerHello(b) == Some(m) <==>
            && m.ServerHello?
            && exists block :: ServerHelloAt(b, m, block) && ParseExtBlock(block).Some?
                               && var p := ParseExtBlock(block).value;
                                  && p.ext.serverName == [] && p.ext.ems == m.ems && p.ext.ri == m.ri
                                  && p.types == m.extTypes
  {
    hide ParseServerHello, ParseExtBlock, ServerHelloHead, FieldAt, BytesAt;
    if ParseServerHello(b) == Some(m) {
      var block := ServerHelloParts(b);
      ServerHelloBytes(b, m, block);
      assert ServerHelloAt(b, m, block);
    }
    if m.ServerHello? {
      forall block | ServerHelloAt(b, m, block) && ParseExtBlock(block).Some?
                     && ParseExtBlock(block).value.ext.serverName == [] && ParseExtBlock(block).value.ext.ems == m.ems
                     && ParseExtBlock(block).value.ext.ri == m.ri && ParseExtBlock(block).value.types == m.extTypes
        ensures ParseServerHello(b) == Some(m) {
        ServerHelloBytes(b, m, block);
        ParseServerHelloHead(m, block);
      }
    }
  }

  /** The printed hellos have this layout, and no other strings do. */
  lemma PrintedHello(b: seq<byte>, m: Message)
    requires InRangeMessage(m)
    ensures m.ClientHello? ==> (b == Marshal(m) <==> ClientHelloAt(b, m, MarshalExtensions(m.ext)))
    ensures m.ServerHello? ==> (b == Marshal(m) <==> ServerHelloAt(b, m, MarshalExtensions(ServerExt(m.ems, m.ri))))
  {
    hide ClientHelloAt, ServerHelloAt, MarshalExtensions, ClientHelloHead, ServerHelloHead;
    if m.ClientHello? {
      ClientHelloBytes(b, m, MarshalExtensions(m.ext));
    } else if m.ServerHello? {
      ServerHelloBytes(b, m, MarshalExtensions(ServerExt(m.ems, m.ri)));
    }
  }

  // ---- Extensions ---------------------------------------------------------

  /** server_name (section 3 of RFC 6066): one entry of type host_name. */
  predicate NameAt(b: seq<byte>, at: nat, name: seq<byte>)
  {
    && FieldAt(b, at, 2, 0x0000) && FieldAt(b, at + 2, 2, |name| + 5)
    && FieldAt(b, at + 4, 2, |name| + 3)
    && FieldAt(b, at + 6, 1, 0) && FieldAt(b, at + 7, 2, |name|) && BytesAt(b, at + 9, name)
  }

  predicate GroupsAt(b: seq<byte>, at: nat, groups: seq<uint16>)
  {
    && FieldAt(b, at, 2, 0x000A) && FieldAt(b, at + 2, 2, 2 * |groups| + 2)
    && FieldAt(b, at + 4, 2, 2 * |groups|) && NumbersAt(b, at + 6, groups)
  }

  predicate FormatsAt(b: seq<byte>, at: nat, formats: seq<byte>)
  {
    && FieldAt(b, at, 2, 0x000B) && FieldAt(b, at + 2, 2, |formats| + 1)
    && FieldAt(b, at + 4, 1, |formats|) && BytesAt(b, at + 5, formats)
  }

  /** Of each algorithm the hash comes first. */
  predicate PairListAt(b: seq<byte>, at: nat, algs: seq<SigAndHash>)
  {
    && at + 2 * |algs| <= |b|
    && forall i :: 0 <= i < |algs| ==>
         FieldAt(b, at + 2 * i, 1, algs[i].hash) && FieldAt(b, at + 2 * i + 1, 1, algs[i].sig)
  }

  predicate AlgsAt(b: seq<byte>, at: nat, algs: seq<SigAndHash>)
  {
    && FieldAt(b, at, 2, 0x000D) && FieldAt(b, at + 2, 2, 2 * |algs| + 2)
    && FieldAt(b, at + 4, 2, 2 * |algs|) && PairListAt(b, at + 6, algs)
  }

  predicate EmsAt(b: seq<byte>, at: nat)
  {
    FieldAt(b, at, 2, 0x0017) && FieldAt(b, at + 2, 2, 0)
  }

  predicate RiAt(b: seq<byte>, at: nat)
  {
    FieldAt(b, at, 2, 0xFF01) && FieldAt(b, at + 2, 2, 1) && FieldAt(b, at + 4, 1, 0)
  }

  /** The present extensions, in ascending order of their types. */
  predicate ExtensionsAt(b: seq<byte>, e: Ext)
  {
    var o1 := if e.serverName == [] then 0 else 9 + |e.serverName|;
    var o2 := o1 + if e.groups == [] then 0 else 6 + 2 * |e.groups|;
    var o3 := o2 + if e.formats == [] then 0 else 5 + |e.formats|;
    var o4 := o3 + if e.sigAlgs == [] then 0 else 6 + 2 * |e.sigAlgs|;
    var o5 := o4 + if e.ems then 4 else 0;
    && |b| == o5 + (if e.ri then 5 else 0)
    && (e.serverName != [] ==> NameAt(b, 0, e.serverName))
    && (e.groups != [] ==> GroupsAt(b, o1, e.groups))
    && (e.formats != [] ==> FormatsAt(b, o2, e.formats))
    && (e.sigAlgs != [] ==> AlgsAt(b, o3, e.sigAlgs))
    && (e.ems ==> EmsAt(b, o4))
    && (e.ri ==> RiAt(b, o5))
  }

  lemma PieceIff(b: seq<byte>, at: nat, t: uint16, body: seq<byte>)
    requires |body| < 0x1_0000
    ensures BytesAt(b, at, PrintPieces([Piece(t, body)])) <==>
            FieldAt(b, at, 2, t) && FieldAt(b, at + 2, 2, |body|) && BytesAt(b, at + 4, body)
  {
    hide FieldAt, BytesAt, Uint16, Prefixed;
    Widths();
    var ps := [Piece(t, body)];
    assert ps[1..] == [];
    assert PrintPieces(ps) == Uint16(t) + Prefixed(body, 2) + PrintPieces([]);
    assert PrintPieces(ps) == Uint16(t) + Prefixed(body, 2);
    ConcatAt(b, at, Uint16(t), Prefixed(body, 2));
    Uint16At(b, at, t);
    PrefixedAt(b, at + 2, body, 2);
  }

  lemma NoPieceAt(b: seq<byte>, at: nat)
    requires at <= |b|
    ensures BytesAt(b, at, PrintPieces([]))
  {
    EmptyAt(b, at);
  }

  lemma NameIff(b: seq<byte>, at: nat, e: Ext)
    requires FieldsFit(e) && at <= |b|
    ensures BytesAt(b, at, PrintPieces(NamePiece(e))) <==> (e.serverName != [] ==> NameAt(b, at, e.serverName))
  {
    hide FieldAt, BytesAt, Prefixed, PrintPieces;
    if e.serverName != [] {
      Widths();
      var name := e.serverName;
      var list := [0] + Prefixed(name, 2);
      PieceIff(b, at, 0x0000, Prefixed(list, 2));
      PrefixedAt(b, at + 4, list, 2);
      ConcatAt(b, at + 6, [0], Prefixed(name, 2));
      ByteAt(b, at + 6, 0);
      PrefixedAt(b, at + 7, name, 2);
    } else {
      NoPieceAt(b, at);
    }
  }

  lemma GroupsIff(b: seq<byte>, at: nat, e: Ext)
    requires FieldsFit(e) && at <= |b|
    ensures BytesAt(b, at, PrintPieces(GroupsPiece(e))) <==> (e.groups != [] ==> GroupsAt(b, at, e.groups))
  {
    hide FieldAt, BytesAt, Prefixed, PrintPieces, EncodePairs, NumbersAt;
    if e.groups != [] {
      Widths();
      var list := EncodePairs(OfUint16, e.groups);
      PieceIff(b, at, 0x000A, Prefixed(list, 2));
      PrefixedAt(b, at + 4, list, 2);
      NumbersIff(b, at + 6, e.groups);
    } else {
      NoPieceAt(b, at);
    }
  }

  lemma FormatsIff(b: seq<byte>, at: nat, e: Ext)
    requires FieldsFit(e) && at <= |b|
    ensures BytesAt(b, at, PrintPieces(FormatsPiece(e))) <==> (e.formats != [] ==> FormatsAt(b, at, e.formats))
  {
    hide FieldAt, BytesAt, Prefixed, PrintPieces;
    if e.formats != [] {
      Widths();
      PieceIff(b, at, 0x000B, Prefixed(e.formats, 1));
      PrefixedAt(b, at + 4, e.formats, 1);
    } else {
      NoPieceAt(b, at);
    }
  }

  lemma PairListIff(b: seq<byte>, at: nat, algs: seq<SigAndHash>)
    ensures BytesAt(b, at, EncodePairs(OfAlg, algs)) <==> PairListAt(b, at, algs)
  {
    hide FieldAt, BytesAt, EncodePairs;
    PairsAt(b, at, OfAlg, algs);
  }

  lemma AlgsIff(b: seq<byte>, at: nat, e: Ext)
    requires FieldsFit(e) && at <= |b|
    ensures BytesAt(b, at, PrintPieces(AlgsPiece(e))) <==> (e.sigAlgs != [] ==> AlgsAt(b, at, e.sigAlgs))
  {
    hide FieldAt, BytesAt, Prefixed, PrintPieces, EncodePairs, PairListAt;
    if e.sigAlgs != [] {
      Widths();
      var list := EncodePairs(OfAlg, e.sigAlgs);
      PieceIff(b, at, 0x000D, Prefixed(list, 2));
      PrefixedAt(b, at + 4, list, 2);
      PairListIff(b, at + 6, e.sigAlgs);
    } else {
      NoPieceAt(b, at);
    }
  }

  lemma EmsIff(b: seq<byte>, at: nat, e: Ext)
    requires at <= |b|
    ensures BytesAt(b, at, PrintPieces(EmsPiece(e))) <==> (e.ems ==> EmsAt(b, at))
  {
    hide FieldAt, PrintPieces;
    if e.ems {
      PieceIff(b, at, 0x0017, []);
      FieldFits(b, at + 2, 2, 0);
      EmptyAt(b, at + 4);
    } else {
      NoPieceAt(b, at);
    }
  }

  lemma FieldFits(b: seq<byte>, at: nat, w: nat, n: nat)
    ensures FieldAt(b, at, w, n) ==> at + w <= |b|
  {
  }

  lemma RiIff(b: seq<byte>, at: nat, e: Ext)
    requires at <= |b|
    ensures BytesAt(b, at, PrintPieces(RiPiece(e))) <==> (e.ri ==> RiAt(b, at))
  {
    hide FieldAt, BytesAt, PrintPieces;
    if e.ri {
      PieceIff(b, at, 0xFF01, [0]);
      ByteAt(b, at + 4, 0);
    } else {
      NoPieceAt(b, at);
    }
  }

  /** The six printed pieces one behind the other. */
  lemma SixPieces(b: seq<byte>, a: seq<Piece>, c: seq<Piece>, d: seq<Piece>, f: seq<Piece>, g: seq<Piece>,
                  h: seq<Piece>)
    ensures var (x0, x1, x2, x3, x4, x5) :=
              (PrintPieces(a), PrintPieces(c), PrintPieces(d), PrintPieces(f), PrintPieces(g), PrintPieces(h));
            var (o1, o2) := (|x0|, |x0| + |x1|);
            var (o3, o4) := (o2 + |x2|, o2 + |x2| + |x3|);
            var o5 := o4 + |x4|;
            b == PrintPieces(a + c + d + f + g + h) <==>
            && |b| == o5 + |x5|
            && BytesAt(b, 0, x0) && BytesAt(b, o1, x1) && BytesAt(b, o2, x2) && BytesAt(b, o3, x3)
            && BytesAt(b, o4, x4) && BytesAt(b, o5, x5)
  {
    hide PrintPieces, BytesAt;
    PrintConcat(a, c);
    PrintConcat(a + c, d);
    PrintConcat(a + c + d, f);
    PrintConcat(a + c + d + f, g);
    PrintConcat(a + c + d + f + g, h);
    var x0, x1, x2, x3, x4, x5 :=
      PrintPieces(a), PrintPieces(c), PrintPieces(d), PrintPieces(f), PrintPieces(g), PrintPieces(h);
    WholeAt(b, x0 + x1 + x2 + x3 + x4 + x5);
    ConcatAt(b, 0, x0 + x1 + x2 + x3 + x4, x5);
    ConcatAt(b, 0, x0 + x1 + x2 + x3, x4);
    ConcatAt(b, 0, x0 + x1 + x2, x3);
    ConcatAt(b, 0, x0 + x1, x2);
    ConcatAt(b, 0, x0, x1);
  }

  /** The printed list has this layout, and no other string does. */
  lemma ExtensionsIff(b: seq<byte>, e: Ext)
    requires FieldsFit(e)
    ensures b == PrintPieces(Pieces(e)) <==> ExtensionsAt(b, e)
  {
    hide PrintPieces, BytesAt, NamePiece, GroupsPiece, FormatsPiece, AlgsPiece, EmsPiece, RiPiece, NameAt, GroupsAt,
         FormatsAt, AlgsAt, EmsAt, RiAt, FieldsFit;
    PieceSizes(e);
    SixPieces(b, NamePiece(e), GroupsPiece(e), FormatsPiece(e), AlgsPiece(e), EmsPiece(e), RiPiece(e));
    var o1 := |PrintPieces(NamePiece(e))|;
    var o2 := o1 + |PrintPieces(GroupsPiece(e))|;
    var o3 := o2 + |PrintPieces(FormatsPiece(e))|;
    var o4 := o3 + |PrintPieces(AlgsPiece(e))|;
    var o5 := o4 + |PrintPieces(EmsPiece(e))|;
    if |b| == o5 + |PrintPieces(RiPiece(e))| {
      NameIff(b, 0, e);
      GroupsIff(b, o1, e);
      FormatsIff(b, o2, e);
      AlgsIff(b, o3, e);
      EmsIff(b, o4, e);
      RiIff(b, o5, e);
    }
  }

  /** The block: nothing without extensions, else a length and the list. */
  lemma BlockIff(b: seq<byte>, e: Ext)
    requires InRange(e)
    ensures b == MarshalExtensions(e) <==>
            if e == NO_EXT then b == []
            else |b| >= 2 && FieldAt(b, 0, 2, |b| - 2) && ExtensionsAt(b[2..], e)
  {
    hide PrintPieces, BytesAt, Pieces, ExtensionsAt, Prefixed, FieldAt, FieldsFit;
    var list := PrintPieces(Pieces(e));
    PrintedSize(e);
    Widths();
    if e == NO_EXT {
    } else {
      assert list != [] by { SomePiece(e); }
      WholeAt(b, Prefixed(list, 2));
      PrefixedAt(b, 0, list, 2);
      if |b| >= 2 {
        ExtensionsIff(b[2..], e);
        TailAt(b, 2, list);
      }
    }
  }

  lemma SomePiece(e: Ext)
    requires e != NO_EXT
    ensures Size(e) > 0
  {
  }

  lemma TailAt(b: seq<byte>, at: nat, x: seq<byte>)
    requires at <= |b|
    ensures b[at..] == x <==> |b| == at + |x| && BytesAt(b, at, x)
  {
    if |b| == at + |x| {
      assert b[at..] == b[at..at + |x|];
    }
  }

  // ---- Any extension list -------------------------------------------------

  lemma {:induction false} ReadPieces(data: seq<byte>, seen: seq<uint16>, out: Ext) returns (ps: seq<Piece>)
    requires ParseExts(data, seen, out).Some? && Distinct(seen)
    ensures data == PrintPieces(ps) && BodiesFit(ps) && Distinct(seen + Types(ps))
    ensures Store(out, ps).Some? && ParseExts(data, seen, out).value == Parsed(Store(out, ps).value, seen + Types(ps))
    decreases |data|
  {
    hide SetExt, FromBigEndian, Prefixed, ReadPrefixed;
    if data == [] {
      ps := [];
      assert seen + Types([]) == seen;
    } else {
      var Got(t, d1) := ReadUint16(data);
      var Got(body, rest) := ReadPrefixed(d1, 2);
      ReadPrefixedIsPrinted(d1, 2);
      Widths();
      var more := ReadPieces(rest, seen + [t], SetExt(out, t, body).value);
      ps := [Piece(t, body)] + more;
      assert ps[0] == Piece(t, body) && ps[1..] == more;
      assert seen + [t] + Types(more) == seen + Types(ps);
      assert data == Uint16(t) + d1;
    }
  }

  /** An extension list is accepted exactly if it is cut into pieces of type and
      length, no type twice, that can be stored one after the other. */
  lemma ExtensionListIff(data: seq<byte>, r: Parsed)
    ensures ParseExts(data, [], NO_EXT) == Some(r) <==>
            exists ps :: data == PrintPieces(ps) && BodiesFit(ps) && Distinct(Types(ps)) && r.types == Types(ps)
                         && Store(NO_EXT, ps) == Some(r.ext)
  {
    hide ParseExts, PrintPieces, Store, BodiesFit, Distinct;
    if ParseExts(data, [], NO_EXT) == Some(r) {
      var ps := ReadPieces(data, [], NO_EXT) by { NoneTwice(); }
      assert [] + Types(ps) == Types(ps);
    }
    forall ps | data == PrintPieces(ps) && BodiesFit(ps) && Distinct(Types(ps)) && r.types == Types(ps)
                && Store(NO_EXT, ps) == Some(r.ext)
      ensures ParseExts(data, [], NO_EXT) == Some(r) {
      assert [] + Types(ps) == Types(ps);
      ParsePrinted(ps, [], NO_EXT);
    }
  }

  lemma NoneTwice()
    ensures Distinct([])
  {
  }

  /** Which extensions are understood, and in what form; bytes behind a list are
      ignored. */
  predicate Understood(t: uint16, body: seq<byte>)
  {
    if t == 0x0000 then
      body == [] || (&& |body| >= 2 && |body| >= 2 + FromBigEndian(body[..2])
                     && Names(body[2..2 + FromBigEndian(body[..2])]).Some?)
    else if t == 0x000A || t == 0x000D then
      |body| >= 2 && |body| >= 2 + FromBigEndian(body[..2]) && FromBigEndian(body[..2]) % 2 == 0
    else if t == 0x000B then |body| >= 1 && |body| >= 1 + body[0] as int
    else if t == 0x0017 then body == []
    else if t == 0xFF01 then body == [0]
    else false
  }

  lemma UnderstoodIff(out: Ext, t: uint16, body: seq<byte>)
    ensures SetExt(out, t, body).Some? <==> Understood(t, body)
  {
    hide DecodePairs, Names, LastName;
    if t == 0x0000 && ReadPrefixed(body, 2).Got? {
      LastNameOf(ReadPrefixed(body, 2).value, []);
      assert body[2..][..FromBigEndian(body[..2])] == body[2..2 + FromBigEndian(body[..2])];
    }
    if t == 0x000B && |body| >= 1 {
      assert body[..1] == [body[0]] && [body[0]][..0] == [];
    }
  }

  lemma {:induction false} StoreIff(out: Ext, ps: seq<Piece>)
    ensures Store(out, ps).Some? <==> forall i :: 0 <= i < |ps| ==> Understood(ps[i].t, ps[i].body)
    decreases |ps|
  {
    hide SetExt, Understood;
    if ps != [] {
      UnderstoodIff(out, ps[0].t, ps[0].body);
      var r := SetExt(out, ps[0].t, ps[0].body);
      if r.Some? {
        StoreIff(r.value, ps[1..]);
        assert forall i :: 1 <= i < |ps| ==> ps[i] == ps[1..][i - 1];
      }
    }
  }

  /** The name and the flag that a list of distinct extensions leaves. */
  lemma {:induction false} StoredFields(out: Ext, ps: seq<Piece>)
    requires Store(out, ps).Some? && Distinct(Types(ps))
    ensures var e := Store(out, ps).value;
            && ((forall i :: 0 <= i < |ps| ==> ps[i].t != 0x0000) ==> e.serverName == out.serverName)
            && (forall i :: 0 <= i < |ps| && ps[i].t == 0x0000 ==> ParseServerName(ps[i].body) == Some(e.serverName))
            && (e.ems <==> out.ems || 0x0017 in Types(ps))
    decreases |ps|
  {
    hide ParseServerName, ParsePairList, ReadPrefixed;
    if ps != [] {
      var rest := ps[1..];
      assert Types(rest) == Types(ps)[1..];
      assert forall i :: 1 <= i < |ps| ==> ps[i] == rest[i - 1];
      forall i | 0 <= i < |rest| ensures rest[i].t != ps[0].t {
        assert Types(ps)[0] == ps[0].t && Types(ps)[i + 1] == rest[i].t;
      }
      assert Types(ps) == [ps[0].t] + Types(rest);
      StoredFields(SetExt(out, ps[0].t, ps[0].body).value, rest);
    }
  }

  /** A block holds these pieces: it is empty, or a length and the list. */
  predicate BlockOf(block: seq<byte>, ps: seq<Piece>)
  {
    if block == [] then ps == []
    else |block| >= 2 && FieldAt(block, 0, 2, |block| - 2) && block[2..] == PrintPieces(ps)
  }

  lemma ExtBlockIff(block: seq<byte>, r: Parsed)
    ensures ParseExtBlock(block) == Some(r) <==>
            exists ps :: BlockOf(block, ps) && BodiesFit(ps) && Distinct(Types(ps)) && r.types == Types(ps)
                         && Store(NO_EXT, ps) == Some(r.ext)
  {
    hide ParseExts, PrintPieces, Store, BodiesFit, Distinct, FieldAt;
    if block == [] {
      NoPieces();
      assert BlockOf(block, []);
    } else {
      ListRead(block);
      if |block| >= 2 {
        ExtensionListIff(block[2..], r);
        if ParseExtBlock(block) == Some(r) {
          var ps :| block[2..] == PrintPieces(ps) && BodiesFit(ps) && Distinct(Types(ps)) && r.types == Types(ps)
                    && Store(NO_EXT, ps) == Some(r.ext);
          assert BlockOf(block, ps);
        }
      }
    }
  }

  lemma NoPieces()
    ensures BodiesFit([]) && Distinct(Types([])) && Types([]) == [] && Store(NO_EXT, []) == Some(NO_EXT)
  {
  }

  lemma ListRead(block: seq<byte>)
    requires block != []
    ensures ParseExtBlock(block) ==
            if |block| >= 2 && FieldAt(block, 0, 2, |block| - 2) then ParseExts(block[2..], [], NO_EXT) else None
  {
    hide ParseExts, FromBigEndian;
    if |block| >= 2 {
      assert block[0..2] == block[..2];
      if FromBigEndian(block[..2]) == |block| - 2 {
        assert block[2..][..|block| - 2] == block[2..];
      }
    }
  }

  // ---- Certificates -------------------------------------------------------

  /** A list length, and length and contents of every certificate. */
  predicate CertificateAt(b: seq<byte>, certs: seq<seq<byte>>)
  {
    |b| == 3 + Offset(certs, 3, |certs|) && FieldAt(b, 0, 3, |b| - 3) && EntriesAt(b, 3, certs, 3)
  }

  lemma CertificateBytes(b: seq<byte>, certs: seq<seq<byte>>)
    requires VectorFits(certs, 3, false) && Offset(certs, 3, |certs|) < 0x100_0000
    ensures b == Prefixed(Vector(certs, 3), 3) <==> CertificateAt(b, certs)
  {
    hide Vector, Prefixed, FieldAt, BytesAt, Offset, EntriesAt;
    Widths();
    VectorAt(b, 3, certs, 3);
    WholeAt(b, Prefixed(Vector(certs, 3), 3));
    PrefixedAt(b, 0, Vector(certs, 3), 3);
  }

  /** No certificate may be empty. */
  lemma CertificateIff(b: seq<byte>, certs: seq<seq<byte>>)
    ensures ParseCertificate(b) == Some(Certificate(certs)) <==>
            && (forall i :: 0 <= i < |certs| ==> 1 <= |certs[i]| < 0x100_0000)
            && Offset(certs, 3, |certs|) < 0x100_0000 && CertificateAt(b, certs)
  {
    hide Vector, Prefixed, ReadPrefixed, ReadVector, Offset, CertificateAt;
    Widths();
    if ParseCertificate(b) == Some(Certificate(certs)) {
      ReadPrefixedIsPrinted(b, 3);
      var list := ReadPrefixed(b, 3).value;
      ReadVectorIsPrinted(list, 3, false);
      assert Prefixed(list, 3) + [] == Prefixed(list, 3);
      VectorAt(b, 3, certs, 3);
      CertificateBytes(b, certs);
    }
    if && (forall i :: 0 <= i < |certs| ==> 1 <= |certs[i]| < 0x100_0000) && Offset(certs, 3, |certs|) < 0x100_0000
       && CertificateAt(b, certs) {
      VectorAt(b, 3, certs, 3);
      CertificateBytes(b, certs);
      ParseCertificatePrinted(certs);
    }
  }

  /** Hash and signature algorithm, then length and signature. */
  predicate CertificateVerifyAt(b: seq<byte>, alg: SigAndHash, signature: seq<byte>)
  {
    && FieldAt(b, 0, 1, alg.hash) && FieldAt(b, 1, 1, alg.sig)
    && FieldAt(b, 2, 2, |signature|) && BytesAt(b, 4, signature)
  }

  lemma CertificateVerifyBytes(b: seq<byte>, alg: SigAndHash, signature: seq<byte>)
    requires |signature| < 0x1_0000
    ensures BytesAt(b, 0, [alg.hash, alg.sig] + Prefixed(signature, 2)) <==> CertificateVerifyAt(b, alg, signature)
  {
    hide Prefixed, FieldAt, BytesAt;
    Widths();
    assert [alg.hash, alg.sig] == [alg.hash] + [alg.sig];
    ConcatAt(b, 0, [alg.hash, alg.sig], Prefixed(signature, 2));
    ConcatAt(b, 0, [alg.hash], [alg.sig]);
    ByteAt(b, 0, alg.hash);
    ByteAt(b, 1, alg.sig);
    PrefixedAt(b, 2, signature, 2);
  }

  /** Accepted exactly if the fields stand in front; printed with nothing behind. */
  lemma CertificateVerifyIff(b: seq<byte>, alg: SigAndHash, signature: seq<byte>)
    ensures ParseCertificateVerify(b) == Some(CertificateVerify(alg, signature)) <==>
            CertificateVerifyAt(b, alg, signature)
    ensures |signature| < 0x1_0000 ==>
              (b == Marshal(CertificateVerify(alg, signature)) <==>
               |b| == 4 + |signature| && CertificateVerifyAt(b, alg, signature))
  {
    hide Prefixed, ReadPrefixed, BytesAt, FieldAt;
    Widths();
    if CertificateVerifyAt(b, alg, signature) {
      FieldBelow(b, 2, 2, |signature|);
    }
    if |signature| < 0x1_0000 {
      CertificateVerifyBytes(b, alg, signature);
      WholeAt(b, [alg.hash, alg.sig] + Prefixed(signature, 2));
    }
    var printed := [alg.hash, alg.sig] + Prefixed(signature, 2);
    if ParseCertificateVerify(b) == Some(CertificateVerify(alg, signature)) {
      ReadPrefixedIsPrinted(b[1..][1..], 2);
      var rest := ReadPrefixed(b[1..][1..], 2).rest;
      assert b == printed + rest;
      FrontAt(b, printed, rest);
    }
    if CertificateVerifyAt(b, alg, signature) {
      AtFront(b, printed);
      ParseCertificateVerifyPrinted(alg, signature, b[|printed|..]);
    }
  }

  lemma AtFront(b: seq<byte>, x: seq<byte>)
    requires BytesAt(b, 0, x)
    ensures |x| <= |b| && b == x + b[|x|..]
  {
  }

  // ---- CertificateRequest -------------------------------------------------

  /** Certificate types, algorithms, and the list of authorities. */
  predicate RequestAt(b: seq<byte>, m: Message)
    requires m.CertificateRequest?
  {
    var t, k, n := |m.types|, |m.algs|, Offset(m.authorities, 2, |m.authorities|);
    && |b| == 5 + t + 2 * k + n
    && FieldAt(b, 0, 1, t) && BytesAt(b, 1, m.types)
    && FieldAt(b, 1 + t, 2, 2 * k) && PairListAt(b, 3 + t, m.algs)
    && FieldAt(b, 3 + t + 2 * k, 2, n) && EntriesAt(b, 5 + t + 2 * k, m.authorities, 2)
  }

  predicate RequestFits(m: Message)
    requires m.CertificateRequest?
  {
    && |m.types| < 0x100 && 2 * |m.algs| < 0x1_0000
    && (forall i :: 0 <= i < |m.authorities| ==> |m.authorities[i]| < 0x1_0000)
    && Offset(m.authorities, 2, |m.authorities|) < 0x1_0000
  }

  lemma RequestBytes(b: seq<byte>, m: Message)
    requires m.CertificateRequest? && RequestFits(m)
    ensures b == PrintCertificateRequest(m) <==> RequestAt(b, m)
  {
    hide Vector, Prefixed, FieldAt, BytesAt, Offset, EntriesAt, EncodePairs, PairListAt;
    Widths();
    var t, k := |m.types|, |m.algs|;
    var algs, cas := EncodePairs(OfAlg, m.algs), Vector(m.authorities, 2);
    VectorAt(b, 5 + t + 2 * k, m.authorities, 2);
    WholeAt(b, PrintCertificateRequest(m));
    ConcatAt(b, 0, Prefixed(m.types, 1), Prefixed(algs, 2) + Prefixed(cas, 2));
    ConcatAt(b, 1 + t, Prefixed(algs, 2), Prefixed(cas, 2));
    PrefixedAt(b, 0, m.types, 1);
    PrefixedAt(b, 1 + t, algs, 2);
    PairListIff(b, 3 + t, m.algs);
    PrefixedAt(b, 3 + t + 2 * k, cas, 2);
  }

  lemma CertificateRequestIff(b: seq<byte>, m: Message)
    ensures ParseCertificateRequest(b) == Some(m) <==> m.CertificateRequest? && RequestFits(m) && RequestAt(b, m)
  {
    hide ParseCertificateRequest, PrintCertificateRequest, RequestAt, Vector, Offset;
    if ParseCertificateRequest(b) == Some(m) {
      ParsedRequestFits(b);
      CertificateRequestIsPrinted(b);
      RequestBytes(b, m);
    }
    if m.CertificateRequest? && RequestFits(m) && RequestAt(b, m) {
      RequestBytes(b, m);
      Widths();
      VectorAt(b, 0, m.authorities, 2);
      ParseCertificateRequestPrinted(m);
    }
  }

  lemma ParsedRequestFits(b: seq<byte>)
    requires ParseCertificateRequest(b).Some?
    ensures RequestFits(ParseCertificateRequest(b).value)
  {
    hide ReadPrefixed, Prefixed, ReadVector, Vector, EncodePairs, DecodePairs, Offset;
    Widths();
    var (types, b1) := ReadPrefixed(b, 1).Extract();
    var (algs, b2) := ReadPrefixed(b1, 2).Extract();
    var (cas, rest) := ReadPrefixed(b2, 2).Extract();
    ReadPrefixedIsPrinted(b, 1);
    ReadPrefixedIsPrinted(b1, 2);
    ReadPrefixedIsPrinted(b2, 2);
    ReadVectorIsPrinted(cas, 2, true);
    VectorAt(b, 0, ReadVector(cas, 2, true).value, 2);
  }
}
