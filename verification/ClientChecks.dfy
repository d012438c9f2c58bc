/** What the client's checks accept, byte by byte, and what a completed run
    therefore establishes. */
module ClientChecks {
  import opened Bytes
  import opened Wire
  import opened Extensions
  import opened Messages
  import opened Layout
  import opened KeySchedule
  import opened Reassembly
  import opened ClientSpec
  import RecordLayer
  import Transcript
  import Dhe

  // ---- ServerKeyExchange --------------------------------------------------

  /** Parameters of a named curve and a point, or of a prime field. */
  ghost predicate ParamsFor(kx: KexKind, params: seq<byte>)
  {
    match kx
    case KexECDHE => |params| >= 4 && params[0] == 3 && |params| == 4 + params[3] as int
    case KexDHE => exists d :: Dhe.ParamsAt(params, d)
    case _ => false
  }

  /** `body` starts with the parameters, an advertised algorithm of the suite's
      kind of key, and a signature over both randoms and the parameters. */
  ghost predicate SignedWith(env: Env, suite: Suite, clientRandom: seq<byte>, serverRandom: seq<byte>,
                             chain: seq<seq<byte>>, body: seq<byte>, params: seq<byte>, alg: SigAndHash,
                             signature: seq<byte>)
  {
    && ParamsFor(suite.kx, params)
    && (alg.hash == 4 || alg.hash == 5)
    && ((suite.auth == AuthRSA && alg.sig == 1) || (suite.auth == AuthECDSA && alg.sig == 3))
    && |signature| < 0x1_0000
    && params + ([alg.hash, alg.sig] + Prefixed(signature, 2)) <= body
    && env.verifySig(chain, alg, clientRandom + serverRandom + params, signature)
  }

  ghost predicate Signed(env: Env, suite: Suite, clientRandom: seq<byte>, serverRandom: seq<byte>,
                         chain: seq<seq<byte>>, body: seq<byte>, params: seq<byte>)
  {
    exists alg, signature :: SignedWith(env, suite, clientRandom, serverRandom, chain, body, params, alg, signature)
  }

  lemma SignatureIff(params: seq<byte>, b: seq<byte>, alg: SigAndHash, signature: seq<byte>)
    ensures SplitSignature(params, b) == Some(SignedParams(params, alg, signature)) <==>
            |signature| < 0x1_0000 && [alg.hash, alg.sig] + Prefixed(signature, 2) <= b
  {
    hide FromBigEndian, BigEndian;
    Widths();
    var tail := [alg.hash, alg.sig] + Prefixed(signature, 2);
    if |signature| < 0x1_0000 && tail <= b {
      BigEndianDecodes(|signature|, 2);
      assert b[2..4] == tail[2..4] == BigEndian(|signature|, 2);
      assert b[4..4 + |signature|] == tail[4..4 + |signature|] == signature;
      assert b[0] == tail[0] && b[1] == tail[1];
    }
    if SplitSignature(params, b) == Some(SignedParams(params, alg, signature)) {
      BigEndianEncodes(b[2..4]);
      assert b[..4 + |signature|] == [b[0], b[1]] + (b[2..4] + b[4..4 + |signature|]);
    }
  }

  lemma EcdheIff(body: seq<byte>, params: seq<byte>, alg: SigAndHash, signature: seq<byte>)
    ensures SplitEcdhe(body) == Some(SignedParams(params, alg, signature)) <==>
            && ParamsFor(KexECDHE, params) && |signature| < 0x1_0000
            && params + ([alg.hash, alg.sig] + Prefixed(signature, 2)) <= body
  {
    hide SplitSignature, Prefixed;
    var tail := [alg.hash, alg.sig] + Prefixed(signature, 2);
    if SplitEcdhe(body) == Some(SignedParams(params, alg, signature)) {
      var n := 4 + body[3] as int;
      SplitKeepsParams(body[..n], body[n..]);
      SignatureIff(params, body[n..], alg, signature);
      Behind(body, params, tail);
    }
    if ParamsFor(KexECDHE, params) && |signature| < 0x1_0000 && params + tail <= body {
      Behind(body, params, tail);
      assert params == body[..|params|] && params[0] == body[0] && params[3] == body[3];
      SignatureIff(params, body[|params|..], alg, signature);
    }
  }

  lemma Behind(body: seq<byte>, front: seq<byte>, tail: seq<byte>)
    ensures front + tail <= body <==> front <= body && tail <= body[|front|..]
  {
    if front <= body {
      assert body == front + body[|front|..];
      if tail <= body[|front|..] {
        assert body[..|front + tail|] == front + body[|front|..][..|tail|];
      }
    }
    if front + tail <= body {
      assert body[..|front|] == (front + tail)[..|front|] == front;
      assert body[|front|..][..|tail|] == (front + tail)[|front|..] == tail;
    }
  }

  lemma CutIff(body: seq<byte>, params: seq<byte>, rest: seq<byte>)
    ensures Dhe.CutParams(body) == Some((params, rest)) <==>
            body == params + rest && exists d :: Dhe.ParamsAt(params, d)
  {
    hide Dhe.CutParams, Dhe.ParseParams, Dhe.PrintParams, Dhe.ParamsAt;
    if Dhe.CutParams(body) == Some((params, rest)) {
      Dhe.CutIsParsed(body);
      Dhe.ParamsIff(params, Dhe.ParseParams(params).value);
    }
    forall d | body == params + rest && Dhe.ParamsAt(params, d) ensures Dhe.CutParams(body) == Some((params, rest)) {
      Dhe.ParamsIff(params, d);
      Dhe.ParsedIsPrinted(params);
      Dhe.CutPrinted(d, rest);
    }
  }

  lemma DheIff(body: seq<byte>, params: seq<byte>, alg: SigAndHash, signature: seq<byte>)
    ensures SplitDhe(body) == Some(SignedParams(params, alg, signature)) <==>
            && ParamsFor(KexDHE, params) && |signature| < 0x1_0000
            && params + ([alg.hash, alg.sig] + Prefixed(signature, 2)) <= body
  {
    hide SplitSignature, Prefixed, Dhe.CutParams, Dhe.ParamsAt;
    var tail := [alg.hash, alg.sig] + Prefixed(signature, 2);
    if SplitDhe(body) == Some(SignedParams(params, alg, signature)) {
      var (cut, rest) := Dhe.CutParams(body).value;
      CutIff(body, cut, rest);
      SplitKeepsParams(cut, rest);
      SignatureIff(params, rest, alg, signature);
      assert body[|params|..] == rest;
      Behind(body, params, tail);
    }
    if ParamsFor(KexDHE, params) && |signature| < 0x1_0000 && params + tail <= body {
      Behind(body, params, tail);
      CutIff(body, params, body[|params|..]);
      SignatureIff(params, body[|params|..], alg, signature);
    }
  }

  lemma SplitIff(kx: KexKind, body: seq<byte>, params: seq<byte>, alg: SigAndHash, signature: seq<byte>)
    ensures SplitSke(kx, body) == Some(SignedParams(params, alg, signature)) <==>
            && ParamsFor(kx, params) && |signature| < 0x1_0000
            && params + ([alg.hash, alg.sig] + Prefixed(signature, 2)) <= body
  {
    hide SplitEcdhe, SplitDhe, Prefixed;
    match kx
    case KexECDHE => EcdheIff(body, params, alg, signature);
    case KexDHE => DheIff(body, params, alg, signature);
    case _ =>
  }

  lemma AdvertisedIff(alg: SigAndHash)
    ensures alg in ADVERTISED <==> (alg.hash == 4 || alg.hash == 5) && (alg.sig == 1 || alg.sig == 3)
  {
    var a, b, c, d := SigAndHash(4, 1), SigAndHash(5, 1), SigAndHash(4, 3), SigAndHash(5, 3);
    assert ADVERTISED == [a, b, c, d];
    assert a in ADVERTISED && b in ADVERTISED && c in ADVERTISED && d in ADVERTISED;
  }

  /** A ServerKeyExchange yields parameters exactly if they are signed. */
  lemma SkeParamsIff(env: Env, suite: Suite, clientRandom: Random, serverRandom: seq<byte>, chain: seq<seq<byte>>,
                     body: seq<byte>, params: seq<byte>)
    ensures SkeParams(env, suite, clientRandom, serverRandom, chain, body) == Some(params) <==>
            Signed(env, suite, clientRandom, serverRandom, chain, body, params)
  {
    hide SplitSke, Prefixed, ParamsFor, ADVERTISED;
    if SkeParams(env, suite, clientRandom, serverRandom, chain, body) == Some(params) {
      var s := SplitSke(suite.kx, body).value;
      SplitIff(suite.kx, body, params, s.alg, s.signature);
      AdvertisedIff(s.alg);
      assert SignedWith(env, suite, clientRandom, serverRandom, chain, body, params, s.alg, s.signature);
    }
    forall alg, signature
      | SignedWith(env, suite, clientRandom, serverRandom, chain, body, params, alg, signature)
      ensures SkeParams(env, suite, clientRandom, serverRandom, chain, body) == Some(params) {
      SplitIff(suite.kx, body, params, alg, signature);
      AdvertisedIff(alg);
    }
  }

  /** A completed run over DHE or ECDHE used parameters that the server signed. */
  lemma CompletedSignature(env: Env, r: Run)
    requires GoodRun(env, r) && NeedsSke(r.suite.kx)
    ensures r.ske.Some? && r.params.Some?
    ensures Signed(env, r.suite, r.random, r.serverRandom, r.chain, r.ske.value, r.params.value)
  {
    hide MasterSecret, FinishedVerifyData, HashedBytes, ParseBody, ServerHelloChoice, ChainOf, GoodKeys, GoodClientAuth,
         SkeParams, Signed;
    SkeParamsIff(env, r.suite, r.random, r.serverRandom, r.chain, r.ske.value, r.params.value);
  }

  // ---- ServerHello --------------------------------------------------------

  /** The types that the ClientHello carries. */
  predicate OfferedType(env: Env, t: uint16)
  {
    t == 0x000A || t == 0x000B || t == 0x000D || t == 0xFF01 || (t == 0x0000 && env.serverName != [])
  }

  /** The ServerHello picks version 3.3, the offered suite `id` and no
      compression, and answers with extensions that were offered, none of them
      twice and none with a host name. */
  ghost predicate Answers(env: Env, body: seq<byte>, suite: Suite, random: seq<byte>, sid: seq<byte>, id: uint16,
                          ps: seq<Piece>)
  {
    && GreetingAt(body, 0x0303, random, sid)
    && FieldAt(body, 35 + |sid|, 2, id) && id in env.offered && env.lookup(id) == Some(suite)
    && FieldAt(body, 37 + |sid|, 1, 0)
    && BlockOf(body[38 + |sid|..], ps) && BodiesFit(ps) && Distinct(Types(ps))
    && forall i :: 0 <= i < |ps| ==> AnswerPiece(env, ps[i])
  }

  ghost predicate AnswerPiece(env: Env, p: Piece)
  {
    && OfferedType(env, p.t) && Understood(p.t, p.body)
    && (p.t == 0x0000 ==> ParseServerName(p.body) == Some([]))
  }

  ghost predicate Answered(env: Env, body: seq<byte>, suite: Suite, random: seq<byte>)
  {
    exists sid, id, ps :: Answers(env, body, suite, random, sid, id, ps)
  }

  lemma AnswersAccepted(env: Env, body: seq<byte>, suite: Suite, random: seq<byte>, sid: seq<byte>, id: uint16,
                        ps: seq<Piece>)
    requires Answers(env, body, suite, random, sid, id, ps)
    ensures ServerHelloChoice(env, body) == Some(Choice(suite, random))
  {
    hide ParseServerHello, ParseExtBlock, FieldAt, BytesAt, GreetingAt, BlockOf, BodiesFit, Distinct, Store,
         ParseServerName, Understood, PrintPieces;
    StoreIff(NO_EXT, ps) by { PiecesUnderstood(env, ps); }
    var e := Store(NO_EXT, ps).value;
    StoredFields(NO_EXT, ps);
    assert e.serverName == [] by {
      if i :| 0 <= i < |ps| && ps[i].t == 0x0000 {
        assert AnswerPiece(env, ps[i]);
      }
    }
    FieldFits(body, 37 + |sid|, 1, 0);
    var block := body[38 + |sid|..];
    ExtBlockIff(block, Parsed(e, Types(ps)));
    var m := ServerHello(0x0303, random, sid, id, 0, e.ems, e.ri, Types(ps));
    assert ServerHelloAt(body, m, block);
    ServerHelloIff(body, m);
    assert !e.ems && forall t :: t in Types(ps) ==> OfferedExt(env, t) by {
      forall t | t in Types(ps) ensures OfferedExt(env, t) && t != 0x0017 {
        var i :| 0 <= i < |Types(ps)| && Types(ps)[i] == t;
        assert AnswerPiece(env, ps[i]);
      }
    }
  }

  lemma PiecesUnderstood(env: Env, ps: seq<Piece>)
    requires forall i :: 0 <= i < |ps| ==> AnswerPiece(env, ps[i])
    ensures forall i :: 0 <= i < |ps| ==> Understood(ps[i].t, ps[i].body)
  {
    hide Understood, ParseServerName;
  }

  lemma AcceptedAnswers(env: Env, body: seq<byte>)
    requires ServerHelloChoice(env, body).Some?
    ensures var c := ServerHelloChoice(env, body).value;
            Answered(env, body, c.suite, c.random)
  {
    hide ParseServerHello, ParseExtBlock, FieldAt, BytesAt, GreetingAt, BlockOf, BodiesFit, Distinct, Store,
         ParseServerName, Understood, PrintPieces;
    var m := ParseServerHello(body).value;
    ServerHelloIff(body, m);
    var block :| ServerHelloAt(body, m, block) && ParseExtBlock(block).Some?
                 && ParseExtBlock(block).value.ext.serverName == [] && ParseExtBlock(block).value.types == m.extTypes;
    var p := ParseExtBlock(block).value;
    ExtBlockIff(block, p);
    var ps: seq<Piece> :| BlockOf(block, ps) && BodiesFit(ps) && Distinct(Types(ps)) && p.types == Types(ps)
              && Store(NO_EXT, ps) == Some(p.ext);
    StoreIff(NO_EXT, ps);
    StoredFields(NO_EXT, ps);
    forall i | 0 <= i < |ps| ensures AnswerPiece(env, ps[i]) {
      assert Types(ps)[i] == ps[i].t && ps[i].t in m.extTypes;
    }
    assert Answers(env, body, ServerHelloChoice(env, body).value.suite, m.random, m.sessionId, m.suite, ps);
  }

  lemma ServerHelloChoiceIff(env: Env, body: seq<byte>, suite: Suite, random: seq<byte>)
    ensures ServerHelloChoice(env, body) == Some(Choice(suite, random)) <==> Answered(env, body, suite, random)
  {
    hide ServerHelloChoice, Answers;
    if ServerHelloChoice(env, body) == Some(Choice(suite, random)) {
      AcceptedAnswers(env, body);
    }
    forall sid, id, ps | Answers(env, body, suite, random, sid, id, ps)
      ensures ServerHelloChoice(env, body) == Some(Choice(suite, random)) {
      AnswersAccepted(env, body, suite, random, sid, id, ps);
    }
  }

  // ---- Certificate --------------------------------------------------------

  /** The body lists at least one certificate, none of them empty, and the chain
      is accepted. */
  lemma ChainOfIff(env: Env, body: seq<byte>, chain: seq<seq<byte>>)
    ensures ChainOf(env, body) == Some(chain) <==>
            && chain != [] && env.verifyChain(chain)
            && (forall i :: 0 <= i < |chain| ==> 1 <= |chain[i]| < 0x100_0000)
            && Offset(chain, 3, |chain|) < 0x100_0000 && CertificateAt(body, chain)
  {
    hide ParseCertificate, CertificateAt, Offset;
    CertificateIff(body, chain);
  }

  /** What a completed run has checked of the server's first messages. */
  lemma CompletedServerHello(env: Env, r: Run)
    requires GoodRun(env, r)
    ensures Answered(env, r.serverHello, r.suite, r.serverRandom)
    ensures r.chain != [] && env.verifyChain(r.chain) && CertificateAt(r.certificate, r.chain)
  {
    hide MasterSecret, FinishedVerifyData, HashedBytes, ParseBody, ServerHelloChoice, ChainOf, GoodKeys, GoodClientAuth,
         SkeParams, Answered, CertificateAt;
    ServerHelloChoiceIff(env, r.serverHello, r.suite, r.serverRandom);
    ChainOfIff(env, r.certificate, r.chain);
  }

  // ---- The client's own hello ---------------------------------------------

  /** Every byte of the ClientHello: version 3.3, no session id, the configured
      suites, no compression, and the extensions with the configured name, six
      groups, uncompressed points, four signature algorithms and an empty
      renegotiation_info. */
  lemma OwnHello(env: Env, random: Random)
    requires InRangeMessage(Hello(env, random))
    ensures var b, k := Marshal(Hello(env, random)), |env.offered|;
            && GreetingAt(b, 0x0303, random, [])
            && FieldAt(b, 35, 2, 2 * k) && NumbersAt(b, 37, env.offered)
            && FieldAt(b, 37 + 2 * k, 1, 1) && FieldAt(b, 38 + 2 * k, 1, 0)
            && FieldAt(b, 39 + 2 * k, 2, |b| - (41 + 2 * k))
            && var x := b[41 + 2 * k..];
               var o := if env.serverName == [] then 0 else 9 + |env.serverName|;
               && |x| == o + 43
               && (env.serverName != [] ==> NameAt(x, 0, env.serverName))
               && GroupsAt(x, o, [0x001D, 0x0017, 0x0018, 0x0019, 0x0100, 0x0101])
               && FormatsAt(x, o + 18, [0])
               && AlgsAt(x, o + 24, [SigAndHash(4, 1), SigAndHash(5, 1), SigAndHash(4, 3), SigAndHash(5, 3)])
               && RiAt(x, o + 38)
  {
    hide MarshalExtensions, FieldAt, BytesAt, GreetingAt, NumbersAt, NameAt, GroupsAt, FormatsAt, AlgsAt, RiAt, InRange,
         ClientHelloHead;
    var m := Hello(env, random);
    var b, k := Marshal(m), |env.offered|;
    var block := MarshalExtensions(m.ext);
    PrintedHello(b, m);
    BlockIff(block, m.ext);
    ByteAt(b, 38 + 2 * k, 0);
    FieldFits(b, 38 + 2 * k, 1, 0);
    assert block == b[39 + 2 * k..];
    FieldInTail(b, 39 + 2 * k, 2, |block| - 2);
    assert block[2..] == b[41 + 2 * k..];
  }

  lemma FieldInTail(b: seq<byte>, at: nat, w: nat, n: nat)
    requires at <= |b|
    ensures FieldAt(b[at..], 0, w, n) <==> FieldAt(b, at, w, n)
  {
    if at + w <= |b| {
      assert b[at..][0..w] == b[at..at + w];
    }
  }

  // ---- Transcript and secrets ---------------------------------------------

  function OptEnvelope(t: byte, body: Option<seq<byte>>): (r: seq<byte>)
  {
    if body.None? then [] else Envelope(t, body.value)
  }

  function OptBody(m: Option<Message>): (r: Option<seq<byte>>)
  {
    if m.None? then None else Some(Marshal(m.value))
  }

  /** What a client CertificateVerify signs: every handshake message from the
      ClientHello to the ClientKeyExchange, with its envelope. */
  function SignedBytes(env: Env, r: Run): (b: seq<byte>)
  {
    Envelope(1, Marshal(Hello(env, r.random))) + Envelope(2, r.serverHello) + Envelope(11, r.certificate)
    + OptEnvelope(12, r.ske) + OptEnvelope(13, r.request) + Envelope(14, [])
    + OptEnvelope(11, OptBody(r.clientCert)) + Envelope(16, r.exchange.cke)
  }

  lemma {:induction false} HashedConcat(a: seq<Event>, b: seq<Event>)
    ensures HashedBytes(a + b) == HashedBytes(a) + HashedBytes(b)
  {
    hide Envelope;
    if b == [] {
      assert a + b == a && HashedBytes([]) == [];
    } else {
      var front, e := b[..|b| - 1], b[|b| - 1];
      HashedConcat(a, front);
      assert b == front + [e] && a + b == a + front + [e];
      HashedSnoc(a + front, e);
      HashedSnoc(front, e);
    }
  }

  lemma HashedSnoc(a: seq<Event>, e: Event)
    ensures HashedBytes(a + [e]) == HashedBytes(a) + HashedOne(e)
  {
    hide Envelope;
    EnvelopesSnoc(a, e);
    if e.Sent? || e.Received? {
      FlattenSnoc(Envelopes(a), Envelope(e.t, e.body));
    } else {
      assert Envelopes(a) + [] == Envelopes(a);
    }
  }

  function HashedOne(e: Event): (r: seq<byte>)
  {
    if e.Sent? || e.Received? then Envelope(e.t, e.body) else []
  }

  lemma HashedAlone(e: Event)
    ensures HashedBytes([e]) == HashedOne(e)
  {
    hide Envelope;
    assert [] + [e] == [e] && HashedBytes([]) == [];
    HashedSnoc([], e);
  }

  lemma HashedOptions(m: Option<Message>, t: byte, b: Option<seq<byte>>)
    ensures HashedBytes(OptSent(m)) == if m.None? then [] else Envelope(TypeOf(m.value), Marshal(m.value))
    ensures HashedBytes(OptReceived(t, b)) == OptEnvelope(t, b)
  {
    hide Envelope, Marshal;
    if m.Some? {
      HashedAlone(OptSent(m)[0]);
    }
    if b.Some? {
      HashedAlone(OptReceived(t, b)[0]);
    }
  }

  lemma HashedFlights(env: Env, r: Run)
    ensures HashedBytes(FirstFlight(env, r))
         == Envelope(1, Marshal(Hello(env, r.random))) + Envelope(2, r.serverHello) + Envelope(11, r.certificate)
    ensures HashedBytes(ServerFlight(r.ske, r.request))
         == OptEnvelope(12, r.ske) + OptEnvelope(13, r.request) + Envelope(14, [])
  {
    hide Envelope, Marshal, Hello, HashedBytes;
    var a, b, c := Sent(CLIENT_HELLO, Marshal(Hello(env, r.random))), Received(SERVER_HELLO, r.serverHello),
      Received(CERTIFICATE, r.certificate);
    HashedAlone(a);
    HashedAlone(b);
    HashedAlone(c);
    HashedConcat([a], [b]);
    HashedConcat([a] + [b], [c]);
    assert FirstFlight(env, r) == [a] + [b] + [c];
    var x, y, z := OptReceived(SERVER_KEY_EXCHANGE, r.ske), OptReceived(CERTIFICATE_REQUEST, r.request),
      Received(SERVER_HELLO_DONE, []);
    HashedOptions(None, SERVER_KEY_EXCHANGE, r.ske);
    HashedOptions(None, CERTIFICATE_REQUEST, r.request);
    HashedAlone(z);
    HashedConcat(x, y);
    HashedConcat(x + y, [z]);
  }

  /** The Finished messages cover everything that was signed, the
      CertificateVerify, and then the client's Finished, and nothing else. */
  lemma CompletedTranscript(env: Env, r: Run)
    requires GoodRun(env, r)
    ensures HashedBytes(UpToKeyExchange(env, r)) == SignedBytes(env, r)
    ensures HashedBytes(UpToClientCcs(env, r)) == SignedBytes(env, r) + OptEnvelope(15, OptBody(r.certVerify))
    ensures HashedBytes(UpToServerCcs(env, r))
         == SignedBytes(env, r) + OptEnvelope(15, OptBody(r.certVerify)) + Envelope(20, r.clientFinished)
  {
    ClientTypes(env, r);
    HashedUpToKeyExchange(env, r);
    HashedFinish(env, r);
  }

  lemma ClientTypes(env: Env, r: Run)
    requires GoodRun(env, r)
    ensures r.clientCert.Some? ==> TypeOf(r.clientCert.value) == 11
    ensures r.certVerify.Some? ==> TypeOf(r.certVerify.value) == 15
  {
    hide MasterSecret, FinishedVerifyData, HashedBytes, ParseBody, SkeParams, ServerHelloChoice, ChainOf, GoodKeys,
         ServerSideGood;
  }

  lemma HashedUpToKeyExchange(env: Env, r: Run)
    requires r.clientCert.Some? ==> TypeOf(r.clientCert.value) == 11
    ensures HashedBytes(UpToKeyExchange(env, r)) == SignedBytes(env, r)
  {
    hide Envelope, Marshal, HashedBytes, FirstFlight, ServerFlight, TypeOf;
    var a, b, c, d := FirstFlight(env, r), ServerFlight(r.ske, r.request), OptSent(r.clientCert),
      Sent(CLIENT_KEY_EXCHANGE, r.exchange.cke);
    HashedFlights(env, r);
    HashedOptions(r.clientCert, 0, None);
    HashedAlone(d);
    HashedConcat(a, b);
    HashedConcat(a + b, c);
    HashedConcat(a + b + c, [d]);
    JoinFlights(HashedBytes(a), OptEnvelope(12, r.ske), OptEnvelope(13, r.request), Envelope(14, []),
                OptEnvelope(11, OptBody(r.clientCert)), Envelope(16, r.exchange.cke));
  }

  lemma JoinFlights(a: seq<byte>, x: seq<byte>, y: seq<byte>, z: seq<byte>, c: seq<byte>, d: seq<byte>)
    ensures a + (x + y + z) + c + d == a + x + y + z + c + d
  {
    assert a + (x + y + z) == a + x + y + z;
  }

  lemma HashedFinish(env: Env, r: Run)
    requires r.certVerify.Some? ==> TypeOf(r.certVerify.value) == 15
    ensures var k := HashedBytes(UpToKeyExchange(env, r)) + OptEnvelope(15, OptBody(r.certVerify));
            && HashedBytes(UpToClientCcs(env, r)) == k
            && HashedBytes(UpToServerCcs(env, r)) == k + Envelope(20, r.clientFinished)
  {
    hide Envelope, Marshal, HashedBytes, UpToKeyExchange, TypeOf;
    var k, v := UpToKeyExchange(env, r), OptSent(r.certVerify);
    HashedOptions(r.certVerify, 0, None);
    HashedConcat(k, v);
    HashedSnoc(k + v, SentCcs);
    HashedSnoc(k + v + [SentCcs], InstalledSend(r.sendProt));
    var c := UpToClientCcs(env, r);
    HashedSnoc(c, Sent(FINISHED, r.clientFinished));
    HashedSnoc(c + [Sent(FINISHED, r.clientFinished)], ReceivedCcs);
    HashedSnoc(c + [Sent(FINISHED, r.clientFinished)] + [ReceivedCcs], InstalledRecv(r.recvProt));
    var x := HashedBytes(k + v);
    assert x + [] + [] == x;
    var y := x + Envelope(20, r.clientFinished);
    assert y + [] + [] == y;
  }

  /** The master secret and the keys of a completed run, byte by byte; the client's
      keys protect what it sends. */
  lemma CompletedKeys(env: Env, r: Run)
    requires GoodRun(env, r)
    ensures |r.master| == 48
    ensures StreamAt(r.suite.prf, r.exchange.preMaster, Ascii("master secret") + (r.random + r.serverRandom), 0,
                     r.master)
    ensures FromStream(r.keys, r.suite, r.master, r.serverRandom + r.random)
    ensures env.buildProtector(r.suite, r.keys.clientKey, r.keys.clientMac, r.keys.clientIv) == Some(r.sendProt)
    ensures env.buildProtector(r.suite, r.keys.serverKey, r.keys.serverMac, r.keys.serverIv) == Some(r.recvProt)
  {
    Labels();
    hide StreamAt, StreamPrefix, FinishedVerifyData, HashedBytes, ServerSideGood, GoodClientAuth, FromStream, Splits,
         Ascii;
    PrefixFromStream(r.suite.prf, r.exchange.preMaster, MASTER_SECRET_LABEL + (r.random + r.serverRandom), 48);
    BlockFromStream(r.keys, r.suite, r.master, r.serverRandom + r.random, KeyBlockLen(r.suite), r.suite.macKeyLen,
                    r.suite.cipher.keyLen, KeyBlockIvLen(r.suite));
  }

  /** The client's CertificateVerify signs all messages before it. */
  lemma CompletedCertificateVerify(env: Env, r: Run)
    requires GoodRun(env, r) && r.certVerify.Some?
    ensures env.certs != [] && r.certVerify.value.CertificateVerify?
    ensures env.sign(env.certs[0].key, r.certVerify.value.alg,
                     env.digest(r.certVerify.value.alg.hash, SignedBytes(env, r)))
         == Some(r.certVerify.value.signature)
  {
    CompletedTranscript(env, r);
    hide FinishedVerifyData, MasterSecret, HashedBytes, ServerSideGood, GoodKeys, SignedBytes, UpToKeyExchange,
         Preferred, NoneUsable;
  }

  /** Both Finished values of a completed run, byte by byte. */
  lemma CompletedFinished(env: Env, r: Run)
    requires GoodRun(env, r)
    ensures |r.clientFinished| == |r.serverFinished| == if r.suite.kx == KexGOST2018_256 then 32 else 12
    ensures var hashed := SignedBytes(env, r) + OptEnvelope(15, OptBody(r.certVerify));
            && StreamAt(r.suite.prf, r.master, Ascii("client finished") + r.suite.prf.digest(hashed), 0,
                        r.clientFinished)
            && StreamAt(r.suite.prf, r.master,
                        Ascii("server finished") + r.suite.prf.digest(hashed + Envelope(20, r.clientFinished)), 0,
                        r.serverFinished)
  {
    CompletedTranscript(env, r);
    Labels();
    var h := r.suite.prf;
    hide StreamAt, StreamPrefix, MasterSecret, HashedBytes, ServerSideGood, GoodKeys, GoodClientAuth, SignedBytes,
         OptEnvelope, Envelope, Ascii, UpToClientCcs, UpToServerCcs;
    PrefixFromStream(h, r.master, CLIENT_FINISHED_LABEL + h.digest(HashedBytes(UpToClientCcs(env, r))),
                     |r.clientFinished|);
    PrefixFromStream(h, r.master, SERVER_FINISHED_LABEL + h.digest(HashedBytes(UpToServerCcs(env, r))),
                     |r.serverFinished|);
  }

  // ---- What goes out ------------------------------------------------------

  /** A handshake message alone in a record of type 22. */
  function HandshakeRecord(t: byte, body: seq<byte>): (r: seq<RecordLayer.Event>)
  {
    [RecordLayer.Write(22, Envelope(t, body), [])]
  }

  function OptRecord(t: byte, body: Option<seq<byte>>): (r: seq<RecordLayer.Event>)
  {
    if body.None? then [] else HandshakeRecord(t, body.value)
  }

  lemma {:induction false} OutConcat(a: seq<Event>, b: seq<Event>)
    ensures OutEvents(a + b) == OutEvents(a) + OutEvents(b)
  {
    hide OutEvent;
    if b == [] {
      assert a + b == a;
    } else {
      var front, e := b[..|b| - 1], b[|b| - 1];
      OutConcat(a, front);
      assert b == front + [e] && a + b == a + front + [e];
      OutEventsSnoc(a + front, e);
      OutEventsSnoc(front, e);
    }
  }

  lemma OutOfOne(e: Event)
    ensures OutEvents([e]) == OutEvent(e)
  {
    hide OutEvent;
    assert [e] == [] + [e] && OutEvents([]) == [];
    OutEventsSnoc([], e);
  }

  lemma OutOptions(m: Option<Message>, t: byte, b: Option<seq<byte>>)
    ensures OutEvents(OptSent(m)) == if m.None? then [] else HandshakeRecord(TypeOf(m.value), Marshal(m.value))
    ensures OutEvents(OptReceived(t, b)) == []
  {
    hide Envelope, Marshal;
    if m.Some? {
      OutOfOne(OptSent(m)[0]);
    }
    if b.Some? {
      OutOfOne(OptReceived(t, b)[0]);
    }
  }

  lemma OutFlights(env: Env, r: Run)
    ensures OutEvents(FirstFlight(env, r)) == HandshakeRecord(1, Marshal(Hello(env, r.random)))
    ensures OutEvents(ServerFlight(r.ske, r.request)) == []
  {
    hide Envelope, Marshal, Hello, OutEvents;
    var a, b, c := Sent(CLIENT_HELLO, Marshal(Hello(env, r.random))), Received(SERVER_HELLO, r.serverHello),
      Received(CERTIFICATE, r.certificate);
    OutOfOne(a);
    OutOfOne(b);
    OutOfOne(c);
    OutConcat([a], [b]);
    OutConcat([a] + [b], [c]);
    assert FirstFlight(env, r) == [a] + [b] + [c];
    var x, y, z := OptReceived(SERVER_KEY_EXCHANGE, r.ske), OptReceived(CERTIFICATE_REQUEST, r.request),
      Received(SERVER_HELLO_DONE, []);
    OutOptions(None, SERVER_KEY_EXCHANGE, r.ske);
    OutOptions(None, CERTIFICATE_REQUEST, r.request);
    OutOfOne(z);
    OutConcat(x, y);
    OutConcat(x + y, [z]);
  }

  /** The records of a completed run: each message alone in one, the one byte 1 as
      ChangeCipherSpec, and the new protector exactly between it and Finished. */
  lemma CompletedRecords(env: Env, r: Run)
    requires GoodRun(env, r)
    ensures OutEvents(RunTrace(env, r)) ==
            HandshakeRecord(1, Marshal(Hello(env, r.random))) + OptRecord(11, OptBody(r.clientCert))
            + HandshakeRecord(16, r.exchange.cke) + OptRecord(15, OptBody(r.certVerify))
            + [RecordLayer.Write(20, [1], []), RecordLayer.Swap(r.sendProt)]
            + HandshakeRecord(20, r.clientFinished)
  {
    ClientTypes(env, r);
    OutUpToKeyExchange(env, r);
    OutFinish(env, r);
  }

  lemma OutUpToKeyExchange(env: Env, r: Run)
    requires r.clientCert.Some? ==> TypeOf(r.clientCert.value) == 11
    ensures OutEvents(UpToKeyExchange(env, r)) ==
            HandshakeRecord(1, Marshal(Hello(env, r.random))) + OptRecord(11, OptBody(r.clientCert))
            + HandshakeRecord(16, r.exchange.cke)
  {
    hide Envelope, Marshal, OutEvents, FirstFlight, ServerFlight, TypeOf;
    var a, b, c, d := FirstFlight(env, r), ServerFlight(r.ske, r.request), OptSent(r.clientCert),
      Sent(CLIENT_KEY_EXCHANGE, r.exchange.cke);
    OutFlights(env, r);
    OutOptions(r.clientCert, 0, None);
    OutOfOne(d);
    OutConcat(a, b);
    OutConcat(a + b, c);
    OutConcat(a + b + c, [d]);
  }

  lemma OutFinish(env: Env, r: Run)
    requires r.certVerify.Some? ==> TypeOf(r.certVerify.value) == 15
    ensures OutEvents(RunTrace(env, r)) ==
            OutEvents(UpToKeyExchange(env, r)) + OptRecord(15, OptBody(r.certVerify))
            + [RecordLayer.Write(20, [1], []), RecordLayer.Swap(r.sendProt)]
            + HandshakeRecord(20, r.clientFinished)
  {
    hide Envelope, Marshal, OutEvents, UpToKeyExchange, TypeOf;
    var k, v := UpToKeyExchange(env, r), OptSent(r.certVerify);
    OutOptions(r.certVerify, 0, None);
    OutConcat(k, v);
    OutEventsSnoc(k + v, SentCcs);
    OutEventsSnoc(k + v + [SentCcs], InstalledSend(r.sendProt));
    var c, fin := UpToClientCcs(env, r), Sent(FINISHED, r.clientFinished);
    OutEventsSnoc(c, fin);
    OutEventsSnoc(c + [fin], ReceivedCcs);
    OutEventsSnoc(c + [fin] + [ReceivedCcs], InstalledRecv(r.recvProt));
    OutEventsSnoc(c + [fin] + [ReceivedCcs] + [InstalledRecv(r.recvProt)], Received(FINISHED, r.serverFinished));
    var o := OutEvents(k + v);
    assert o + [RecordLayer.Write(20, [1], [])] + [RecordLayer.Swap(r.sendProt)]
        == o + [RecordLayer.Write(20, [1], []), RecordLayer.Swap(r.sendProt)];
  }

  /** An alert of level 2 goes out in a record of type 21. */
  lemma AlertRecord(tr: seq<Event>, desc: byte)
    ensures OutEvents(tr + [Alert(desc)]) == OutEvents(tr) + [RecordLayer.Write(21, [2, desc], [])]
  {
    OutEventsSnoc(tr, Alert(desc));
  }

  // ---- Alerts -------------------------------------------------------------

  /** The alert for a message that cannot be read, has another type than `t`, or
      does not parse: handshake_failure, unexpected_message, and decrypt_error or
      handshake_failure. */
  function ExpectAlert(t: byte, n: Next): (desc: byte)
  {
    if n.Failed? then 40 else if n.t != t then 10 else if t == 20 then 51 else 40
  }

  /** protocol_version, illegal_parameter for suite or compression, and
      unsupported_extension, in this order. */
  function ServerHelloAlert(env: Env, n: Next): (desc: byte)
  {
    if n.Failed? || n.t != 2 then ExpectAlert(2, n)
    else match ParseBody(2, n.body)
      case Some(ServerHello(version, _, _, id, compression, _, _, _)) =>
        if version != 0x0303 then 70
        else if id !in env.offered || env.lookup(id).None? || compression != 0 then 47
        else 110
      case _ => ExpectAlert(2, n)
  }

  /** bad_certificate for an empty or unacceptable chain. */
  function CertificateAlert(n: Next): (desc: byte)
  {
    if n.Failed? || n.t != 11 || ParseBody(11, n.body).None? then ExpectAlert(11, n) else 42
  }

  /** handshake_failure for a malformed body or a suite without one,
      illegal_parameter for the algorithm, and decrypt_error for the signature. */
  function SkeAlert(suite: Suite, body: seq<byte>): (desc: byte)
  {
    match SplitSke(suite.kx, body)
    case None => 40
    case Some(s) => if s.alg in ADVERTISED && SigMatchesAuth(s.alg.sig, suite.auth) then 51 else 47
  }

  /** unexpected_message for a type that is out of order, repeated or unknown. */
  function FlightAlert(suite: Suite, n: Next, sawSKE: bool, sawCertReq: bool): (desc: byte)
  {
    if n.Failed? then 40
    else if n.t == 12 then (if sawSKE || sawCertReq then 10 else SkeAlert(suite, n.body))
    else if n.t == 13 then (if sawCertReq then 10 else 40)
    else if n.t == 14 then 40
    else 10
  }

  /** The alerts behind the client's Finished. */
  ghost function FinishedAlert(src: Source, prot: RecordLayer.Protector, suite: Suite, master: seq<byte>,
                               hashed: seq<byte>)
    : (desc: byte)
    requires src.Sound() && prot.Sound() && suite.prf.Sound()
  {
    if src.Read().NoRecord? then 40
    else if !AtCcs(src) then 10
    else
      var n := NextMessage([], BehindCcs(src, prot));
      if n.Failed? || n.t != 20 || ParseBody(20, n.body).None? then ExpectAlert(20, n)
      else if |hashed| > Transcript.MAX_TRANSCRIPT then 80
      else if FinishedVerifyData(suite, master, SERVER_FINISHED_LABEL, suite.prf.digest(hashed)) != Some(n.body) then 51
      else 10
  }
}
