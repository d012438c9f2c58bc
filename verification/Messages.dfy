/** Handshake messages: bodies, the 4-byte envelope, parsers and printers. */
module Messages {
  import opened Bytes
  import opened Wire
  import opened Extensions

  const HELLO_REQUEST: byte := 0
  const CLIENT_HELLO: byte := 1
  const SERVER_HELLO: byte := 2
  const CERTIFICATE: byte := 11
  const SERVER_KEY_EXCHANGE: byte := 12
  const CERTIFICATE_REQUEST: byte := 13
  const SERVER_HELLO_DONE: byte := 14
  const CERTIFICATE_VERIFY: byte := 15
  const CLIENT_KEY_EXCHANGE: byte := 16
  const FINISHED: byte := 20

  const UINT24: nat := 0x100_0000
  const UINT32: nat := 0x1_0000_0000

  datatype Message =
    | HelloRequest
    | ClientHello(version: uint16, random: seq<byte>, sessionId: seq<byte>,
                  suites: seq<uint16>, compressions: seq<byte>, ext: Ext)
    | ServerHello(version: uint16, random: seq<byte>, sessionId: seq<byte>,
                  suite: uint16, compression: byte, ems: bool, ri: bool, extTypes: seq<uint16>)
    | Certificate(certs: seq<seq<byte>>)
    | ServerKeyExchange(body: seq<byte>)
    | CertificateRequest(types: seq<byte>, algs: seq<SigAndHash>, authorities: seq<seq<byte>>)
    | ServerHelloDone
    | CertificateVerify(alg: SigAndHash, signature: seq<byte>)
    | ClientKeyExchange(body: seq<byte>)
    | Finished(verifyData: seq<byte>)

  function TypeOf(m: Message): (t: byte)
  {
    match m
    case HelloRequest => HELLO_REQUEST
    case ClientHello(_, _, _, _, _, _) => CLIENT_HELLO
    case ServerHello(_, _, _, _, _, _, _, _) => SERVER_HELLO
    case Certificate(_) => CERTIFICATE
    case ServerKeyExchange(_) => SERVER_KEY_EXCHANGE
    case CertificateRequest(_, _, _) => CERTIFICATE_REQUEST
    case ServerHelloDone => SERVER_HELLO_DONE
    case CertificateVerify(_, _) => CERTIFICATE_VERIFY
    case ClientKeyExchange(_) => CLIENT_KEY_EXCHANGE
    case Finished(_) => FINISHED
  }

  // ---- Parsers ------------------------------------------------------------

  /** The optional extension block at the end of a hello. */
  function ParseExtBlock(b: seq<byte>): (r: Option<Parsed>)
  {
    if b == [] then Some(Parsed(NO_EXT, []))
    else
      var (list, rest) :- ReadPrefixed(b, 2);
      :- Need(rest == []);
      ParseExts(list, [], NO_EXT)
  }

  function ParseClientHello(b: seq<byte>): (r: Option<Message>)
    ensures r.Some? ==> r.value.ClientHello?
  {
    var (version, b1) :- ReadUint16(b);
    var (random, b2) :- ReadBytes(b1, 32);
    var (sid, b3) :- ReadPrefixed(b2, 1);
    :- Need(|sid| <= 32);
    var (cs, b4) :- ReadPrefixed(b3, 2);
    :- Need(|cs| % 2 == 0 && |cs| >= 2);
    var (cm, b5) :- ReadPrefixed(b4, 1);
    :- Need(cm != []);
    var parsed :- ParseExtBlock(b5);
    Some(ClientHello(version, random, sid, DecodePairs(ToUint16, cs), cm, parsed.ext))
  }

  /** The server may not echo a host name; its other extensions are only
      recorded by type. */
  function ParseServerHello(b: seq<byte>): (r: Option<Message>)
    ensures r.Some? ==> r.value.ServerHello?
  {
    var (version, b1) :- ReadUint16(b);
    var (random, b2) :- ReadBytes(b1, 32);
    var (sid, b3) :- ReadPrefixed(b2, 1);
    :- Need(|sid| <= 32);
    var (suite, b4) :- ReadUint16(b3);
    var (cm, b5) :- ReadUint8(b4);
    var parsed :- ParseExtBlock(b5);
    :- Need(parsed.ext.serverName == []);
    Some(ServerHello(version, random, sid, suite, cm, parsed.ext.ems, parsed.ext.ri, parsed.types))
  }

  function ParseCertificate(b: seq<byte>): (r: Option<Message>)
    ensures r.Some? ==> r.value.Certificate?
  {
    var (list, rest) :- ReadPrefixed(b, 3);
    :- Need(rest == []);
    var certs :- ReadVector(list, 3, false);
    Some(Certificate(certs))
  }

  function ParseCertificateRequest(b: seq<byte>): (r: Option<Message>)
    ensures r.Some? ==> r.value.CertificateRequest?
  {
    var (types, b1) :- ReadPrefixed(b, 1);
    var (algs, b2) :- ReadPrefixed(b1, 2);
    :- Need(|algs| % 2 == 0);
    var (cas, rest) :- ReadPrefixed(b2, 2);
    :- Need(rest == []);
    var authorities :- ReadVector(cas, 2, true);
    Some(CertificateRequest(types, DecodePairs(ToAlg, algs), authorities))
  }

  /** Bytes after the signature are ignored. */
  function ParseCertificateVerify(b: seq<byte>): (r: Option<Message>)
    ensures r.Some? ==> r.value.CertificateVerify?
  {
    var (hash, b1) :- ReadUint8(b);
    var (sig, b2) :- ReadUint8(b1);
    var (signature, _) :- ReadPrefixed(b2, 2);
    Some(CertificateVerify(SigAndHash(hash, sig), signature))
  }

  function ParseBody(t: byte, b: seq<byte>): (r: Option<Message>)
  {
    if t == HELLO_REQUEST then (if b == [] then Some(HelloRequest) else None)
    else if t == CLIENT_HELLO then ParseClientHello(b)
    else if t == SERVER_HELLO then ParseServerHello(b)
    else if t == CERTIFICATE then ParseCertificate(b)
    else if t == SERVER_KEY_EXCHANGE then Some(ServerKeyExchange(b))
    else if t == CERTIFICATE_REQUEST then ParseCertificateRequest(b)
    else if t == SERVER_HELLO_DONE then (if b == [] then Some(ServerHelloDone) else None)
    else if t == CLIENT_KEY_EXCHANGE then Some(ClientKeyExchange(b))
    else if t == CERTIFICATE_VERIFY then ParseCertificateVerify(b)
    else if t == FINISHED then (if |b| == 12 || |b| == 32 then Some(Finished(b)) else None)
    else None
  }

  lemma ParsedType(t: byte, b: seq<byte>)
    requires ParseBody(t, b).Some?
    ensures TypeOf(ParseBody(t, b).value) == t
  {
    hide ParseClientHello, ParseServerHello, ParseCertificate, ParseCertificateRequest, ParseCertificateVerify;
  }

  /** The message at the front of `data`. The declared length is compared with
      the low 32 bits of the number of bytes that follow the envelope. */
  function ParseMessage(data: seq<byte>): (r: Option<(Message, seq<byte>)>)
  {
    if |data| < 4 then None
    else
      var n, d := FromBigEndian(data[1..4]), data[4..];
      if |d| % UINT32 < n then None
      else
        var m :- ParseBody(data[0], d[..n]);
        Some((m, d[n..]))
  }

  // ---- Printers -----------------------------------------------------------

  function ServerExt(ems: bool, ri: bool): (e: Ext)
  {
    NO_EXT.(ems := ems, ri := ri)
  }

  /** Everything in front of the extension block. */
  function ClientHelloHead(m: Message): (b: seq<byte>)
    requires m.ClientHello?
  {
    Uint16(m.version) + m.random + Prefixed(m.sessionId, 1) + Prefixed(EncodePairs(OfUint16, m.suites), 2)
    + Prefixed(m.compressions, 1)
  }

  function ServerHelloHead(m: Message): (b: seq<byte>)
    requires m.ServerHello?
  {
    Uint16(m.version) + m.random + Prefixed(m.sessionId, 1) + Uint16(m.suite) + [m.compression]
  }

  function MarshalClientHello(m: Message): (b: seq<byte>)
    requires m.ClientHello?
  {
    ClientHelloHead(m) + MarshalExtensions(m.ext)
  }

  function MarshalServerHello(m: Message): (b: seq<byte>)
    requires m.ServerHello?
  {
    ServerHelloHead(m) + MarshalExtensions(ServerExt(m.ems, m.ri))
  }

  /** A client never sends a CertificateRequest: its printer yields nothing. */
  function Marshal(m: Message): (b: seq<byte>)
  {
    match m
    case HelloRequest => []
    case ClientHello(_, _, _, _, _, _) => MarshalClientHello(m)
    case ServerHello(_, _, _, _, _, _, _, _) => MarshalServerHello(m)
    case Certificate(certs) => Prefixed(Vector(certs, 3), 3)
    case ServerKeyExchange(body) => body
    case CertificateRequest(_, _, _) => []
    case ServerHelloDone => []
    case CertificateVerify(alg, signature) => [alg.hash, alg.sig] + Prefixed(signature, 2)
    case ClientKeyExchange(body) => body
    case Finished(verifyData) => verifyData
  }

  function Envelope(t: byte, body: seq<byte>): (r: seq<byte>)
    ensures |r| == 4 + |body|
  {
    [t] + Prefixed(body, 3)
  }

  function MarshalMessage(m: Message): (r: seq<byte>)
  {
    Envelope(TypeOf(m), Marshal(m))
  }

  /** The printer that the parser of CertificateRequest inverts
      (section 7.4.4 of RFC 5246). */
  function PrintCertificateRequest(m: Message): (b: seq<byte>)
    requires m.CertificateRequest?
  {
    Prefixed(m.types, 1) + (Prefixed(EncodePairs(OfAlg, m.algs), 2) + Prefixed(Vector(m.authorities, 2), 2))
  }

  // ---- Parsing what was printed -------------------------------------------

  predicate HelloFits(random: seq<byte>, sessionId: seq<byte>)
  {
    |random| == 32 && |sessionId| <= 32
  }

  /** Messages whose every length fits its field and that have a printer. */
  predicate InRangeMessage(m: Message)
  {
    && |Marshal(m)| < UINT24
    && match m
       case ClientHello(_, random, sid, suites, cms, ext) =>
         HelloFits(random, sid) && 1 <= |suites| < 0x8000 && 1 <= |cms| < 0x100 && InRange(ext)
       case ServerHello(_, random, sid, _, _, _, _, _) => HelloFits(random, sid)
       case Certificate(certs) => VectorFits(certs, 3, false) && |Vector(certs, 3)| < UINT24
       case CertificateRequest(_, _, _) => false
       case CertificateVerify(_, signature) => |signature| < 0x1_0000
       case Finished(vd) => |vd| == 12 || |vd| == 32
       case _ => true
  }

  /** A parsed ServerHello lists the types that were on the wire. */
  function Canonical(m: Message): (r: Message)
  {
    if m.ServerHello? then m.(extTypes := Types(Pieces(ServerExt(m.ems, m.ri)))) else m
  }

  lemma ParseExtBlockPrinted(e: Ext)
    requires InRange(e)
    ensures ParseExtBlock(MarshalExtensions(e)) == Some(Parsed(e, Types(Pieces(e))))
  {
    hide ParseExts, PrintPieces, Pieces, ReadPrefixed, Prefixed, FieldsFit, Size;
    var list := PrintPieces(Pieces(e));
    ParseMarshalled(e);
    PrintedSize(e);
    if list == [] {
      assert ParseExts([], [], NO_EXT) == Some(Parsed(NO_EXT, [])) by { EmptyExts(); }
    } else {
      Widths();
      ReadPrefixedPrinted(list, 2, []);
      assert Prefixed(list, 2) + [] == Prefixed(list, 2);
    }
  }

  lemma EmptyExts()
    ensures ParseExts([], [], NO_EXT) == Some(Parsed(NO_EXT, []))
  {
  }

  /** Every length of the hello but that of its extensions fits its field. */
  predicate HeadFits(m: Message)
    requires m.ClientHello?
  {
    HelloFits(m.random, m.sessionId) && 1 <= |m.suites| < 0x8000 && 1 <= |m.compressions| < 0x100
  }

  lemma FiveParts(p0: seq<byte>, p1: seq<byte>, p2: seq<byte>, p3: seq<byte>, p4: seq<byte>, rest: seq<byte>)
    ensures p0 + p1 + p2 + p3 + p4 + rest == p0 + (p1 + (p2 + (p3 + (p4 + rest))))
  {
    Assoc(p0 + p1 + p2 + p3, p4, rest);
    Assoc(p0 + p1 + p2, p3, p4 + rest);
    Assoc(p0 + p1, p2, p3 + (p4 + rest));
    Assoc(p0, p1, p2 + (p3 + (p4 + rest)));
  }

  /** A hello in front of any extension block. */
  lemma ParseClientHelloHead(m: Message, block: seq<byte>)
    requires m.ClientHello? && HeadFits(m)
    ensures ParseClientHello(ClientHelloHead(m) + block) ==
            match ParseExtBlock(block) case None => None case Some(p) => Some(m.(ext := p.ext))
  {
    hide ReadUint16, ReadBytes, ReadPrefixed, Prefixed, EncodePairs, DecodePairs, ParseExtBlock;
    Widths();
    var cs := EncodePairs(OfUint16, m.suites);
    var p0, p1, p2, p3, p4 := Uint16(m.version), m.random, Prefixed(m.sessionId, 1), Prefixed(cs, 2),
      Prefixed(m.compressions, 1);
    FiveParts(p0, p1, p2, p3, p4, block);
    ReadUint16Printed(m.version, p1 + (p2 + (p3 + (p4 + block))));
    ReadBytesPrinted(m.random, p2 + (p3 + (p4 + block)));
    ReadPrefixedPrinted(m.sessionId, 1, p3 + (p4 + block));
    ReadPrefixedPrinted(cs, 2, p4 + block);
    ReadPrefixedPrinted(m.compressions, 1, block);
    DecodeEncodedPairs(ToUint16, OfUint16, m.suites);
  }

  lemma ParseClientHelloPrinted(m: Message)
    requires m.ClientHello? && InRangeMessage(m)
    ensures ParseClientHello(Marshal(m)) == Some(m)
  {
    hide ParseClientHello, ParseExtBlock, MarshalExtensions, InRange, ClientHelloHead;
    ParseClientHelloHead(m, MarshalExtensions(m.ext));
    ParseExtBlockPrinted(m.ext);
  }

  lemma ParseServerHelloHead(m: Message, block: seq<byte>)
    requires m.ServerHello? && HelloFits(m.random, m.sessionId)
    ensures ParseServerHello(ServerHelloHead(m) + block) ==
            match ParseExtBlock(block)
            case None => None
            case Some(p) =>
              if p.ext.serverName != [] then None
              else Some(m.(ems := p.ext.ems, ri := p.ext.ri, extTypes := p.types))
  {
    hide ReadUint16, ReadBytes, ReadPrefixed, Prefixed, ParseExtBlock;
    Widths();
    var p0, p1, p2, p3, p4 := Uint16(m.version), m.random, Prefixed(m.sessionId, 1), Uint16(m.suite), [m.compression];
    FiveParts(p0, p1, p2, p3, p4, block);
    ReadUint16Printed(m.version, p1 + (p2 + (p3 + (p4 + block))));
    ReadBytesPrinted(m.random, p2 + (p3 + (p4 + block)));
    ReadPrefixedPrinted(m.sessionId, 1, p3 + (p4 + block));
    ReadUint16Printed(m.suite, p4 + block);
    assert (p4 + block)[1..] == block;
  }

  lemma ParseServerHelloPrinted(m: Message)
    requires m.ServerHello? && InRangeMessage(m)
    ensures ParseServerHello(Marshal(m)) == Some(Canonical(m))
  {
    hide ParseServerHello, ParseExtBlock, MarshalExtensions, Pieces, ServerHelloHead;
    var e := ServerExt(m.ems, m.ri);
    ParseServerHelloHead(m, MarshalExtensions(e));
    ParseExtBlockPrinted(e);
  }

  lemma ParseCertificatePrinted(certs: seq<seq<byte>>)
    requires VectorFits(certs, 3, false) && |Vector(certs, 3)| < UINT24
    ensures ParseCertificate(Prefixed(Vector(certs, 3), 3)) == Some(Certificate(certs))
  {
    hide ReadPrefixed, Prefixed, ReadVector, Vector, VectorFits;
    var list := Vector(certs, 3);
    Widths();
    ReadPrefixedPrinted(list, 3, []);
    assert Prefixed(list, 3) + [] == Prefixed(list, 3);
    ReadVectorPrinted(certs, 3, false);
  }

  lemma ParseCertificateVerifyPrinted(alg: SigAndHash, signature: seq<byte>, junk: seq<byte>)
    requires |signature| < 0x1_0000
    ensures ParseCertificateVerify([alg.hash, alg.sig] + Prefixed(signature, 2) + junk)
         == Some(CertificateVerify(alg, signature))
  {
    hide ReadPrefixed, Prefixed;
    Widths();
    ReadPrefixedPrinted(signature, 2, junk);
    var b := [alg.hash, alg.sig] + Prefixed(signature, 2) + junk;
    assert b[1..][1..] == Prefixed(signature, 2) + junk;
  }

  lemma ParseBodyPrinted(m: Message)
    requires InRangeMessage(m)
    ensures ParseBody(TypeOf(m), Marshal(m)) == Some(Canonical(m))
  {
    hide ParseClientHello, ParseServerHello, ParseCertificate, ParseCertificateVerify;
    match m
    case ClientHello(_, _, _, _, _, _) => ParseClientHelloPrinted(m);
    case ServerHello(_, _, _, _, _, _, _, _) => ParseServerHelloPrinted(m);
    case Certificate(certs) => ParseCertificatePrinted(certs);
    case CertificateVerify(alg, signature) =>
      ParseCertificateVerifyPrinted(alg, signature, []);
      assert Marshal(m) + [] == Marshal(m);
    case _ =>
  }

  /** Opening an envelope gives the body and what follows, unless the number of
      bytes behind the envelope wraps around at 2^32 below the body's length. */
  lemma ParseEnvelope(t: byte, body: seq<byte>, rest: seq<byte>)
    requires |body| < UINT24
    ensures ParseMessage(Envelope(t, body) + rest) ==
            if (|body| + |rest|) % UINT32 < |body| || ParseBody(t, body).None? then None
            else Some((ParseBody(t, body).value, rest))
  {
    hide ParseBody, BigEndian, FromBigEndian, Pow256;
    var data := Envelope(t, body) + rest;
    assert data[1..4] == BigEndian(|body|, 3);
    assert |body| < Pow256(3) by { Widths(); }
    BigEndianDecodes(|body|, 3);
    assert data[4..] == body + rest;
    assert (body + rest)[..|body|] == body && (body + rest)[|body|..] == rest;
  }

  /** Every in-range message with a printer survives printing and parsing, with
      any bytes behind it left over. */
  lemma RoundTrip(m: Message, rest: seq<byte>)
    requires InRangeMessage(m)
    ensures ParseMessage(MarshalMessage(m) + rest) ==
            if (|Marshal(m)| + |rest|) % UINT32 < |Marshal(m)| then None else Some((Canonical(m), rest))
  {
    hide ParseBody, Marshal, InRangeMessage;
    assert |Marshal(m)| < UINT24 by { InRangeBound(m); }
    ParseEnvelope(TypeOf(m), Marshal(m), rest);
    ParseBodyPrinted(m);
  }

  /** A Finished of 12 bytes in front of 2^32 - 12 others is refused: together
      they count as none. */
  lemma WrapRefuses(rest: seq<byte>)
    requires |rest| == UINT32 - 12
    ensures InRangeMessage(Finished(seq(12, _ => 0)))
    ensures ParseMessage(MarshalMessage(Finished(seq(12, _ => 0))) + rest) == None
  {
    hide ParseMessage, MarshalMessage;
    RoundTrip(Finished(seq(12, _ => 0)), rest);
  }

  lemma InRangeBound(m: Message)
    requires InRangeMessage(m)
    ensures |Marshal(m)| < UINT24
  {
  }

  // ---- Printing what was parsed -------------------------------------------

  /** An accepted extension block re-encodes in no more bytes. */
  lemma ExtBlockShrinks(b: seq<byte>)
    requires ParseExtBlock(b).Some?
    ensures var e := ParseExtBlock(b).value.ext;
            InRange(e) && |MarshalExtensions(e)| <= |b| <= 2 + 0xFFFF
  {
    hide ParseExts, PrintPieces, Pieces, FieldsFit, Size, BigEndian, FromBigEndian;
    if b != [] {
      ReadPrefixedIsPrinted(b, 2);
      Widths();
      ReparseExtensions(ReadPrefixed(b, 2).value);
    } else {
      EmptyExts();
      ReparseExtensions([]);
    }
  }

  lemma FirstFields(b: seq<byte>)
    requires |b| >= 34
    ensures var b1 := ReadUint16(b).rest;
            b == Uint16(ReadUint16(b).value) + (ReadBytes(b1, 32).value + ReadBytes(b1, 32).rest)
  {
  }

  lemma ClientHelloReads(b: seq<byte>)
    returns (version: uint16, random: seq<byte>, sid: seq<byte>, cs: seq<byte>, cm: seq<byte>, block: seq<byte>)
    requires ParseClientHello(b).Some?
    ensures |random| == 32 && |sid| <= 32 && 1 <= |cm| < 0x100 && 2 <= |cs| < 0x1_0000 && |cs| % 2 == 0
    ensures b == Uint16(version) + (random + (Prefixed(sid, 1) + (Prefixed(cs, 2) + (Prefixed(cm, 1) + block))))
    ensures ParseExtBlock(block).Some?
    ensures ParseClientHello(b).value
         == ClientHello(version, random, sid, DecodePairs(ToUint16, cs), cm, ParseExtBlock(block).value.ext)
  {
    hide FromBigEndian, BigEndian, Prefixed, ReadPrefixed, DecodePairs, ParseExtBlock;
    Widths();
    var b1, b2, b3, b4;
    version, b1 := ReadUint16(b).value, ReadUint16(b).rest;
    random, b2 := ReadBytes(b1, 32).value, ReadBytes(b1, 32).rest;
    sid, b3 := ReadPrefixed(b2, 1).value, ReadPrefixed(b2, 1).rest;
    cs, b4 := ReadPrefixed(b3, 2).value, ReadPrefixed(b3, 2).rest;
    cm, block := ReadPrefixed(b4, 1).value, ReadPrefixed(b4, 1).rest;
    ReadPrefixedIsPrinted(b2, 1);
    ReadPrefixedIsPrinted(b3, 2);
    ReadPrefixedIsPrinted(b4, 1);
    FirstFields(b);
  }

  lemma SuitesReencode(cs: seq<byte>)
    requires |cs| % 2 == 0
    ensures EncodePairs(OfUint16, DecodePairs(ToUint16, cs)) == cs
  {
    hide EncodePairs, DecodePairs;
    forall x: byte, y: byte ensures OfUint16(ToUint16(x, y)) == (x, y) {
      DigitSplit(x, y);
    }
    hide OfUint16, ToUint16;
    EncodeDecodedPairs(ToUint16, OfUint16, cs);
  }

  /** An accepted hello is a head in front of an accepted extension block. */
  lemma ClientHelloParts(b: seq<byte>) returns (block: seq<byte>)
    requires ParseClientHello(b).Some?
    ensures var m := ParseClientHello(b).value;
            && HeadFits(m) && b == ClientHelloHead(m) + block
            && ParseExtBlock(block).Some? && ParseExtBlock(block).value.ext == m.ext
  {
    hide ParseClientHello, Prefixed, DecodePairs, EncodePairs, ParseExtBlock, Uint16;
    var version, random, sid, cs, cm;
    version, random, sid, cs, cm, block := ClientHelloReads(b);
    SuitesReencode(cs);
    FiveParts(Uint16(version), random, Prefixed(sid, 1), Prefixed(cs, 2), Prefixed(cm, 1), block);
  }

  /** The same of a ServerHello; there the names are empty. */
  lemma ServerHelloParts(b: seq<byte>) returns (block: seq<byte>)
    requires ParseServerHello(b).Some?
    ensures var m := ParseServerHello(b).value;
            && HelloFits(m.random, m.sessionId) && b == ServerHelloHead(m) + block
            && ParseExtBlock(block).Some?
            && var p := ParseExtBlock(block).value;
               p.ext.serverName == [] && p.ext.ems == m.ems && p.ext.ri == m.ri && p.types == m.extTypes
  {
    hide FromBigEndian, BigEndian, Prefixed, ReadPrefixed, ParseExtBlock;
    Widths();
    var Got(version, b1) := ReadUint16(b);
    var Got(random, b2) := ReadBytes(b1, 32);
    var Got(sid, b3) := ReadPrefixed(b2, 1);
    var Got(suite, b4) := ReadUint16(b3);
    var Got(cm, b5) := ReadUint8(b4);
    block := b5;
    ReadPrefixedIsPrinted(b2, 1);
    FirstFields(b);
    assert b3 == Uint16(suite) + ([cm] + block);
    var p0, p1, p2, p3, p4 := Uint16(version), random, Prefixed(sid, 1), Uint16(suite), [cm];
    FiveParts(p0, p1, p2, p3, p4, block);
  }

  /** Every ClientHello the parser accepts is in range, re-encodes in no more
      bytes than it came in, and parses to the same value again. */
  lemma ReparseClientHello(b: seq<byte>)
    requires ParseClientHello(b).Some?
    ensures var m := ParseClientHello(b).value;
            && InRangeMessage(m)
            && |Marshal(m)| <= |b|
            && ParseClientHello(Marshal(m)) == Some(m)
  {
    hide ParseClientHello, Prefixed, EncodePairs, ParseExtBlock, MarshalExtensions, InRange;
    var block := ClientHelloParts(b);
    ExtBlockShrinks(block);
    ParseClientHelloPrinted(ParseClientHello(b).value);
  }

  /** The Certificate parser accepts exactly the printed bodies. */
  lemma CertificateIsPrinted(b: seq<byte>)
    requires ParseCertificate(b).Some?
    ensures Marshal(ParseCertificate(b).value) == b
  {
    hide ReadPrefixed, Prefixed, ReadVector, Vector, VectorFits;
    ReadPrefixedIsPrinted(b, 3);
    var list := ReadPrefixed(b, 3).value;
    ReadVectorIsPrinted(list, 3, false);
    assert Prefixed(list, 3) + [] == Prefixed(list, 3);
  }

  lemma EncodeDecodedPairs<T>(f: (byte, byte) -> T, g: T -> (byte, byte), b: seq<byte>)
    requires |b| % 2 == 0 && forall x: byte, y: byte :: g(f(x, y)) == (x, y)
    ensures EncodePairs(g, DecodePairs(f, b)) == b
  {
    var xs := DecodePairs(f, b);
    forall i | 0 <= i < |b| ensures EncodePairs(g, xs)[i] == b[i] {
      assert g(xs[i / 2]) == (b[2 * (i / 2)], b[2 * (i / 2) + 1]);
    }
  }

  /** The CertificateRequest parser accepts exactly the printed form of the
      value it returns. */
  lemma CertificateRequestIsPrinted(b: seq<byte>)
    requires ParseCertificateRequest(b).Some?
    ensures PrintCertificateRequest(ParseCertificateRequest(b).value) == b
  {
    hide ReadPrefixed, Prefixed, ReadVector, Vector, VectorFits, EncodePairs, DecodePairs;
    var (types, b1) := ReadPrefixed(b, 1).Extract();
    var (algs, b2) := ReadPrefixed(b1, 2).Extract();
    var (cas, rest) := ReadPrefixed(b2, 2).Extract();
    ReadPrefixedIsPrinted(b, 1);
    ReadPrefixedIsPrinted(b1, 2);
    ReadPrefixedIsPrinted(b2, 2);
    EncodeDecodedPairs(ToAlg, OfAlg, algs);
    ReadVectorIsPrinted(cas, 2, true);
    assert Prefixed(cas, 2) + [] == Prefixed(cas, 2);
  }

  /** And every well-formed request is accepted. */
  lemma ParseCertificateRequestPrinted(m: Message)
    requires m.CertificateRequest? && |m.types| < 0x100 && 2 * |m.algs| < 0x1_0000
    requires VectorFits(m.authorities, 2, true) && |Vector(m.authorities, 2)| < 0x1_0000
    ensures ParseCertificateRequest(PrintCertificateRequest(m)) == Some(m)
  {
    hide ReadPrefixed, Prefixed, ReadVector, Vector, VectorFits, EncodePairs, DecodePairs;
    Widths();
    var algs, cas := EncodePairs(OfAlg, m.algs), Vector(m.authorities, 2);
    ReadPrefixedPrinted(m.types, 1, Prefixed(algs, 2) + Prefixed(cas, 2));
    ReadPrefixedPrinted(algs, 2, Prefixed(cas, 2));
    ReadPrefixedPrinted(cas, 2, []);
    assert Prefixed(cas, 2) + [] == Prefixed(cas, 2);
    DecodeEncodedPairs(ToAlg, OfAlg, m.algs);
    ReadVectorPrinted(m.authorities, 2, true);
  }
}
