/** What the client handshake decides: its inputs, its choices and checks, and
    the traces of completed runs. */
module ClientSpec {
  import opened Bytes
  import opened Wire
  import opened Extensions
  import opened Messages
  import opened KeySchedule
  import Dhe
  import RecordLayer
  import opened Reassembly
  import Transcript

  const TLS12: uint16 := 0x0303

  const SHA1: byte := 2
  const SHA256: byte := 4
  const SHA384: byte := 5
  const SHA512: byte := 6
  const RSA: byte := 1
  const ECDSA: byte := 3

  /** The algorithms offered in the ClientHello, in order of preference. */
  const ADVERTISED: seq<SigAndHash> :=
    [SigAndHash(SHA256, RSA), SigAndHash(SHA384, RSA), SigAndHash(SHA256, ECDSA), SigAndHash(SHA384, ECDSA)]

  datatype PrivateKey = RsaKey | EcdsaP256 | EcdsaP384 | EcdsaOther | OtherKey
  datatype ClientCert = ClientCert(raw: seq<byte>, key: PrivateKey)
  type Exchange = Dhe.Exchange

  type Random = r: seq<byte> | |r| == 32 witness seq(32, _ => 0)

  /** Configuration, randomness and the unseen parts: suite registry, chain
      verification, signatures, key exchange and protector construction.
      `room(i)` is the number of bytes the transport takes of the i-th record,
      `draw(i, n)` the `n` random bytes drawn for it. */
  datatype Env = Env(
    random: Option<Random>,
    serverName: seq<byte>,
    offered: seq<uint16>,
    certs: seq<ClientCert>,
    lookup: uint16 -> Option<Suite>,
    verifyChain: seq<seq<byte>> -> bool,
    verifySig: (seq<seq<byte>>, SigAndHash, seq<byte>, seq<byte>) -> bool,
    keyExchange: (Suite, seq<seq<byte>>, Option<seq<byte>>) -> Option<Exchange>,
    buildProtector: (Suite, seq<byte>, seq<byte>, seq<byte>) -> Option<RecordLayer.Protector>,
    digest: (byte, seq<byte>) -> seq<byte>,
    sign: (PrivateKey, SigAndHash, seq<byte>) -> Option<seq<byte>>,
    draw: (nat, nat) -> Option<seq<byte>>,
    room: nat -> nat)
  {
    ghost predicate Sound()
    {
      && (forall id :: lookup(id).Some? ==> lookup(id).value.prf.Sound())
      && (forall s, key, mac, iv :: buildProtector(s, key, mac, iv).Some? ==>
            buildProtector(s, key, mac, iv).value.Sound())
      && (forall i, n :: draw(i, n).Some? ==> |draw(i, n).value| == n)
    }

    /** The transport takes every record, and the random source never fails. */
    ghost predicate Unfailing()
    {
      && (forall i :: room(i) >= RecordLayer.HEADER_LEN + RecordLayer.MAX_FRAGMENT)
      && (forall i, n :: draw(i, n).Some?)
    }
  }

  // ---- Choices and checks -------------------------------------------------

  function Hello(env: Env, random: Random): (m: Message)
  {
    ClientHello(TLS12, random, [], env.offered, [0],
                Ext(env.serverName, [0x1D, 0x17, 0x18, 0x19, 0x100, 0x101], [0], ADVERTISED, false, true))
  }

  /** The server may answer only extensions that were offered. */
  predicate OfferedExt(env: Env, t: uint16)
  {
    || t == SUPPORTED_GROUPS || t == EC_POINT_FORMATS || t == SIGNATURE_ALGORITHMS || t == RENEGOTIATION_INFO
    || (t == SERVER_NAME && env.serverName != [])
  }

  datatype Choice = Choice(suite: Suite, random: seq<byte>)

  /** The suite and the random of an acceptable ServerHello. */
  function ServerHelloChoice(env: Env, body: seq<byte>): (r: Option<Choice>)
  {
    match ParseBody(SERVER_HELLO, body)
    case Some(ServerHello(version, random, _, id, compression, ems, _, types)) =>
      if && version == TLS12 && id in env.offered && env.lookup(id).Some?
         && compression == 0 && !ems
         && (forall t :: t in types ==> OfferedExt(env, t))
      then Some(Choice(env.lookup(id).value, random)) else None
    case _ => None
  }

  /** The certificates of an acceptable Certificate message. */
  function ChainOf(env: Env, body: seq<byte>): (r: Option<seq<seq<byte>>>)
  {
    match ParseBody(CERTIFICATE, body)
    case Some(Certificate(chain)) => if chain != [] && env.verifyChain(chain) then Some(chain) else None
    case _ => None
  }

  predicate NeedsSke(kx: KexKind)
  {
    kx == KexDHE || kx == KexECDHE
  }

  datatype SignedParams = SignedParams(params: seq<byte>, alg: SigAndHash, signature: seq<byte>)

  /** Algorithm and signature behind the parameters; later bytes are ignored. */
  function SplitSignature(params: seq<byte>, b: seq<byte>): (r: Option<SignedParams>)
  {
    if |b| < 4 then None
    else
      var n := FromBigEndian(b[2..4]);
      if |b| < 4 + n then None else Some(SignedParams(params, SigAndHash(b[0], b[1]), b[4..4 + n]))
  }

  /** Named curve, point and signature (section 5.4 of RFC 4492). */
  function SplitEcdhe(body: seq<byte>): (r: Option<SignedParams>)
  {
    if |body| < 4 || body[0] != 3 then None
    else
      var n: int := 4 + body[3] as int;
      if |body| < n + 2 then None else SplitSignature(body[..n], body[n..])
  }

  function SplitDhe(body: seq<byte>): (r: Option<SignedParams>)
  {
    var (params, rest) :- Dhe.CutParams(body);
    SplitSignature(params, rest)
  }

  function SplitSke(kx: KexKind, body: seq<byte>): (r: Option<SignedParams>)
  {
    match kx
    case KexECDHE => SplitEcdhe(body)
    case KexDHE => SplitDhe(body)
    case _ => None
  }

  predicate SigMatchesAuth(sig: byte, auth: AuthKind)
  {
    (auth == AuthRSA && sig == RSA) || (auth == AuthECDSA && sig == ECDSA)
  }

  /** The parameters of an acceptable ServerKeyExchange: its signature covers
      both randoms and the parameters, uses an advertised algorithm and the
      suite's kind of key. */
  function SkeParams(env: Env, suite: Suite, clientRandom: Random, serverRandom: seq<byte>,
                     chain: seq<seq<byte>>, body: seq<byte>): (r: Option<seq<byte>>)
  {
    var s :- SplitSke(suite.kx, body);
    :- Need(s.alg in ADVERTISED);
    :- Need(SigMatchesAuth(s.alg.sig, suite.auth));
    :- Need(env.verifySig(chain, s.alg, clientRandom + serverRandom + s.params, s.signature));
    Some(s.params)
  }

  predicate KeyCompatible(alg: SigAndHash, key: PrivateKey)
  {
    match key
    case RsaKey => alg.sig == RSA
    case EcdsaP256 => alg.sig == ECDSA && alg.hash == SHA256
    case EcdsaP384 => alg.sig == ECDSA && alg.hash == SHA384
    case EcdsaOther => false
    case OtherKey => false
  }

  predicate Usable(alg: SigAndHash, certReq: Option<Message>, certs: seq<ClientCert>)
  {
    && certReq.Some? && certReq.value.CertificateRequest? && certs != []
    && alg in certReq.value.algs && KeyCompatible(alg, certs[0].key)
  }

  /** `alg` is the preferred one of those advertised, supported by the server
      and compatible with the client's key. */
  ghost predicate Preferred(alg: SigAndHash, certReq: Option<Message>, certs: seq<ClientCert>)
  {
    exists i :: 0 <= i < |ADVERTISED| && alg == ADVERTISED[i] && Usable(alg, certReq, certs)
      && forall j :: 0 <= j < i ==> !Usable(ADVERTISED[j], certReq, certs)
  }

  ghost predicate NoneUsable(certReq: Option<Message>, certs: seq<ClientCert>)
  {
    forall i :: 0 <= i < |ADVERTISED| ==> !Usable(ADVERTISED[i], certReq, certs)
  }

  predicate KnownHash(h: byte)
  {
    h == SHA1 || h == SHA256 || h == SHA384 || h == SHA512
  }

  // ---- Traces -------------------------------------------------------------

  /** Handshake messages, ChangeCipherSpec records, the installation of
      protectors and attempts to send an alert, in order. */
  datatype Event =
    | Sent(t: byte, body: seq<byte>)
    | Received(t: byte, body: seq<byte>)
    | SentCcs | InstalledSend(prot: RecordLayer.Protector)
    | ReceivedCcs | InstalledRecv(prot: RecordLayer.Protector)
    | Alert(desc: byte)

  /** The on-wire form of the handshake messages of a trace. */
  function Envelopes(tr: seq<Event>): (r: seq<seq<byte>>)
  {
    if tr == [] then []
    else
      var e := tr[|tr| - 1];
      Envelopes(tr[..|tr| - 1]) + (if e.Sent? || e.Received? then [Envelope(e.t, e.body)] else [])
  }

  lemma EnvelopesSnoc(tr: seq<Event>, e: Event)
    ensures Envelopes(tr + [e]) == Envelopes(tr) + (if e.Sent? || e.Received? then [Envelope(e.t, e.body)] else [])
  {
    assert (tr + [e])[..|tr|] == tr;
  }

  /** What a trace does to the sending direction of the record layer. */
  function OutEvents(tr: seq<Event>): (r: seq<RecordLayer.Event>)
  {
    if tr == [] then [] else OutEvents(tr[..|tr| - 1]) + OutEvent(tr[|tr| - 1])
  }

  function OutEvent(e: Event): (r: seq<RecordLayer.Event>)
  {
    match e
    case Sent(t, body) => [RecordLayer.Write(RecordLayer.HANDSHAKE, Envelope(t, body), [])]
    case SentCcs => [RecordLayer.Write(RecordLayer.CCS, [1], [])]
    case InstalledSend(p) => [RecordLayer.Swap(p)]
    case Alert(desc) => [RecordLayer.Write(RecordLayer.ALERT, [2, desc], [])]
    case _ => []
  }

  lemma OutEventsSnoc(tr: seq<Event>, e: Event)
    ensures OutEvents(tr + [e]) == OutEvents(tr) + OutEvent(e)
  {
    assert (tr + [e])[..|tr|] == tr;
  }

  /** The bytes hashed at a point of the trace. */
  function HashedBytes(tr: seq<Event>): (r: seq<byte>)
  {
    Flatten(Envelopes(tr))
  }

  /** Everything variable about a completed run. */
  datatype Run = Run(
    random: Random,
    serverHello: seq<byte>,
    suite: Suite,
    serverRandom: seq<byte>,
    certificate: seq<byte>,
    chain: seq<seq<byte>>,
    ske: Option<seq<byte>>,
    params: Option<seq<byte>>,
    request: Option<seq<byte>>,
    certReq: Option<Message>,
    clientCert: Option<Message>,
    exchange: Exchange,
    master: seq<byte>,
    keys: KeyMaterial,
    sendProt: RecordLayer.Protector,
    recvProt: RecordLayer.Protector,
    certVerify: Option<Message>,
    clientFinished: seq<byte>,
    serverFinished: seq<byte>)

  function OptSent(m: Option<Message>): (r: seq<Event>)
  {
    if m.None? then [] else [Sent(TypeOf(m.value), Marshal(m.value))]
  }

  function OptReceived(t: byte, b: Option<seq<byte>>): (r: seq<Event>)
  {
    if b.None? then [] else [Received(t, b.value)]
  }

  function FirstFlight(env: Env, r: Run): (tr: seq<Event>)
  {
    [Sent(CLIENT_HELLO, Marshal(Hello(env, r.random))),
     Received(SERVER_HELLO, r.serverHello),
     Received(CERTIFICATE, r.certificate)]
  }

  /** Up to ServerHelloDone: the order of section 7.3 of RFC 5246. */
  function ServerFlight(ske: Option<seq<byte>>, request: Option<seq<byte>>): (tr: seq<Event>)
  {
    OptReceived(SERVER_KEY_EXCHANGE, ske) + OptReceived(CERTIFICATE_REQUEST, request)
    + [Received(SERVER_HELLO_DONE, [])]
  }

  function UpToKeyExchange(env: Env, r: Run): (tr: seq<Event>)
  {
    FirstFlight(env, r) + ServerFlight(r.ske, r.request) + OptSent(r.clientCert)
    + [Sent(CLIENT_KEY_EXCHANGE, r.exchange.cke)]
  }

  function UpToClientCcs(env: Env, r: Run): (tr: seq<Event>)
  {
    UpToKeyExchange(env, r) + OptSent(r.certVerify) + [SentCcs] + [InstalledSend(r.sendProt)]
  }

  function UpToServerCcs(env: Env, r: Run): (tr: seq<Event>)
  {
    UpToClientCcs(env, r) + [Sent(FINISHED, r.clientFinished)] + [ReceivedCcs] + [InstalledRecv(r.recvProt)]
  }

  function RunTrace(env: Env, r: Run): (tr: seq<Event>)
  {
    UpToServerCcs(env, r) + [Received(FINISHED, r.serverFinished)]
  }

  function CertificateFor(env: Env, withKey: bool): (m: Message)
  {
    if withKey && env.certs != [] then Certificate([env.certs[0].raw]) else Certificate([])
  }

  /** What the client authentication of a run must look like. */
  ghost predicate GoodClientAuth(env: Env, r: Run)
  {
    // a Certificate is sent iff one was requested
    && (r.clientCert.Some? <==> r.request.Some?)
    && (r.certReq.Some? <==> r.request.Some?)
    && (r.request.Some? ==> ParseBody(CERTIFICATE_REQUEST, r.request.value) == r.certReq)
    // it is empty iff no algorithm can be used, else it holds the configured one
    && (r.clientCert.Some? ==> r.clientCert.value == CertificateFor(env, r.certVerify.Some?))
    // a CertificateVerify is sent iff that Certificate was not empty, signed over
    // everything up to the ClientKeyExchange with the preferred algorithm
    && (r.certVerify.None? ==> r.certReq.None? || NoneUsable(r.certReq, env.certs))
    && (r.certVerify.Some? ==>
         && r.certVerify.value.CertificateVerify?
         && env.certs != []
         && Preferred(r.certVerify.value.alg, r.certReq, env.certs)
         && env.sign(env.certs[0].key, r.certVerify.value.alg,
                     env.digest(r.certVerify.value.alg.hash, HashedBytes(UpToKeyExchange(env, r))))
            == Some(r.certVerify.value.signature))
  }

  /** The checks of the server's first flight. */
  ghost predicate ServerSideGood(env: Env, r: Run)
  {
    && env.random == Some(r.random)
    && ServerHelloChoice(env, r.serverHello) == Some(Choice(r.suite, r.serverRandom))
    && ChainOf(env, r.certificate) == Some(r.chain)
    // a ServerKeyExchange came iff the suite is DHE or ECDHE
    && (r.ske.Some? <==> NeedsSke(r.suite.kx))
    && (r.params.Some? <==> r.ske.Some?)
    && (r.ske.Some? ==>
         SkeParams(env, r.suite, r.random, r.serverRandom, r.chain, r.ske.value) == r.params)
    && (r.certReq.Some? <==> r.request.Some?)
    && (r.request.Some? ==> ParseBody(CERTIFICATE_REQUEST, r.request.value) == r.certReq)
  }

  /** The client's keys protect what is sent and the server's what is received. */
  ghost predicate GoodKeys(env: Env, r: Run)
    requires r.suite.prf.Sound()
  {
    && KeyBlockLen(r.suite) > 0
    && IsPartition(r.keys, r.suite, KeyBlock(r.suite, r.master, r.random, r.serverRandom).value)
    && env.buildProtector(r.suite, r.keys.clientKey, r.keys.clientMac, r.keys.clientIv) == Some(r.sendProt)
    && env.buildProtector(r.suite, r.keys.serverKey, r.keys.serverMac, r.keys.serverIv) == Some(r.recvProt)
  }

  /** The checks behind a completed run. */
  ghost predicate GoodRun(env: Env, r: Run)
  {
    && ServerSideGood(env, r)
    && r.suite.prf.Sound()
    && env.keyExchange(r.suite, r.chain, r.params) == Some(r.exchange)
    && MasterSecret(r.suite, r.exchange.preMaster, r.random, r.serverRandom) == Some(r.master)
    && GoodKeys(env, r)
    && GoodClientAuth(env, r)
    // both Finished messages cover the whole handshake before them
    && FinishedVerifyData(r.suite, r.master, CLIENT_FINISHED_LABEL,
                          r.suite.prf.digest(HashedBytes(UpToClientCcs(env, r)))) == Some(r.clientFinished)
    && FinishedVerifyData(r.suite, r.master, SERVER_FINISHED_LABEL,
                          r.suite.prf.digest(HashedBytes(UpToServerCcs(env, r)))) == Some(r.serverFinished)
  }

  // ---- What a completed run means -----------------------------------------

  function SentTypes(tr: seq<Event>): (r: seq<byte>)
  {
    if tr == [] then []
    else SentTypes(tr[..|tr| - 1]) + SentType(tr[|tr| - 1])
  }

  function SentType(e: Event): (r: seq<byte>)
  {
    if e.Sent? then [e.t] else []
  }

  function ReceivedTypes(tr: seq<Event>): (r: seq<byte>)
  {
    if tr == [] then []
    else ReceivedTypes(tr[..|tr| - 1]) + ReceivedType(tr[|tr| - 1])
  }

  function ReceivedType(e: Event): (r: seq<byte>)
  {
    if e.Received? then [e.t] else []
  }

  lemma {:induction false} TypesConcat(a: seq<Event>, b: seq<Event>)
    ensures SentTypes(a + b) == SentTypes(a) + SentTypes(b)
    ensures ReceivedTypes(a + b) == ReceivedTypes(a) + ReceivedTypes(b)
  {
    hide SentType, ReceivedType;
    if b == [] {
      assert a + b == a;
    } else {
      var front, e := b[..|b| - 1], b[|b| - 1];
      TypesConcat(a, front);
      assert (a + b)[..|a + b| - 1] == a + front && (a + b)[|a + b| - 1] == e;
      assert SentTypes(a) + SentTypes(front) + SentType(e) == SentTypes(a) + (SentTypes(front) + SentType(e));
      assert ReceivedTypes(a) + ReceivedTypes(front) + ReceivedType(e)
          == ReceivedTypes(a) + (ReceivedTypes(front) + ReceivedType(e));
    }
  }

  lemma TypesOfOne(e: Event)
    ensures SentTypes([e]) == if e.Sent? then [e.t] else []
    ensures ReceivedTypes([e]) == if e.Received? then [e.t] else []
  {
    assert [e][..0] == [];
  }

  function Opt(present: bool, t: byte): (r: seq<byte>)
  {
    if present then [t] else []
  }

  lemma OptTypes(m: Option<Message>, t: byte, b: Option<seq<byte>>)
    ensures SentTypes(OptSent(m)) == if m.Some? then [TypeOf(m.value)] else []
    ensures ReceivedTypes(OptSent(m)) == []
    ensures SentTypes(OptReceived(t, b)) == [] && ReceivedTypes(OptReceived(t, b)) == Opt(b.Some?, t)
  {
    hide Marshal;
    if m.Some? {
      TypesOfOne(OptSent(m)[0]);
    }
    if b.Some? {
      TypesOfOne(OptReceived(t, b)[0]);
    }
  }

  lemma FlightTypes(ske: Option<seq<byte>>, request: Option<seq<byte>>)
    ensures SentTypes(ServerFlight(ske, request)) == []
    ensures ReceivedTypes(ServerFlight(ske, request))
         == Opt(ske.Some?, SERVER_KEY_EXCHANGE) + Opt(request.Some?, CERTIFICATE_REQUEST) + [SERVER_HELLO_DONE]
  {
    hide SentTypes, ReceivedTypes;
    var a, b, c := OptReceived(SERVER_KEY_EXCHANGE, ske), OptReceived(CERTIFICATE_REQUEST, request),
      Received(SERVER_HELLO_DONE, []);
    OptTypes(None, SERVER_KEY_EXCHANGE, ske);
    OptTypes(None, CERTIFICATE_REQUEST, request);
    TypesOfOne(c);
    TypesConcat(a, b);
    TypesConcat(a + b, [c]);
  }

  function OptType(m: Option<Message>): (r: seq<byte>)
  {
    if m.Some? then [TypeOf(m.value)] else []
  }

  lemma KeyExchangeTypes(env: Env, r: Run)
    ensures SentTypes(UpToKeyExchange(env, r)) == [CLIENT_HELLO] + OptType(r.clientCert) + [CLIENT_KEY_EXCHANGE]
    ensures ReceivedTypes(UpToKeyExchange(env, r))
         == [SERVER_HELLO, CERTIFICATE] + ReceivedTypes(ServerFlight(r.ske, r.request))
  {
    hide SentTypes, ReceivedTypes, Marshal, FirstFlight, ServerFlight;
    var a, b, c, d := FirstFlight(env, r), ServerFlight(r.ske, r.request), OptSent(r.clientCert),
      Sent(CLIENT_KEY_EXCHANGE, r.exchange.cke);
    FirstFlightTypes(env, r);
    FlightTypes(r.ske, r.request);
    OptTypes(r.clientCert, 0, None);
    TypesOfOne(d);
    TypesConcat(a, b);
    TypesConcat(a + b, c);
    TypesConcat(a + b + c, [d]);
  }

  lemma RunTypes(env: Env, r: Run)
    ensures SentTypes(RunTrace(env, r)) == SentTypes(UpToKeyExchange(env, r)) + OptType(r.certVerify) + [FINISHED]
    ensures ReceivedTypes(RunTrace(env, r)) == ReceivedTypes(UpToKeyExchange(env, r)) + [FINISHED]
  {
    hide SentTypes, ReceivedTypes, Marshal, UpToKeyExchange;
    var k, cv := UpToKeyExchange(env, r), OptSent(r.certVerify);
    OptTypes(r.certVerify, 0, None);
    TypesOfOne(SentCcs);
    TypesOfOne(InstalledSend(r.sendProt));
    TypesConcat(k, cv);
    TypesConcat(k + cv, [SentCcs]);
    TypesConcat(k + cv + [SentCcs], [InstalledSend(r.sendProt)]);
    FinishTypes(env, r);
  }

  lemma FinishTypes(env: Env, r: Run)
    ensures SentTypes(RunTrace(env, r)) == SentTypes(UpToClientCcs(env, r)) + [FINISHED]
    ensures ReceivedTypes(RunTrace(env, r)) == ReceivedTypes(UpToClientCcs(env, r)) + [FINISHED]
  {
    hide SentTypes, ReceivedTypes, UpToClientCcs;
    var c, fin, last := UpToClientCcs(env, r), Sent(FINISHED, r.clientFinished), Received(FINISHED, r.serverFinished);
    TypesOfOne(fin);
    TypesOfOne(ReceivedCcs);
    TypesOfOne(InstalledRecv(r.recvProt));
    TypesOfOne(last);
    TypesConcat(c, [fin]);
    TypesConcat(c + [fin], [ReceivedCcs]);
    TypesConcat(c + [fin] + [ReceivedCcs], [InstalledRecv(r.recvProt)]);
    TypesConcat(c + [fin] + [ReceivedCcs] + [InstalledRecv(r.recvProt)], [last]);
  }

  /** The messages of a completed run, in each direction and in order. */
  lemma CompletedFlow(env: Env, r: Run)
    requires GoodRun(env, r)
    ensures ReceivedTypes(RunTrace(env, r)) ==
            [SERVER_HELLO, CERTIFICATE] + (Opt(NeedsSke(r.suite.kx), SERVER_KEY_EXCHANGE)
            + Opt(r.request.Some?, CERTIFICATE_REQUEST) + [SERVER_HELLO_DONE]) + [FINISHED]
    ensures SentTypes(RunTrace(env, r)) ==
            [CLIENT_HELLO] + Opt(r.request.Some?, CERTIFICATE) + [CLIENT_KEY_EXCHANGE]
            + Opt(r.certVerify.Some?, CERTIFICATE_VERIFY) + [FINISHED]
  {
    hide SentTypes, ReceivedTypes, MasterSecret, FinishedVerifyData, HashedBytes, ParseBody, Preferred, NoneUsable,
         RunTrace, UpToKeyExchange, UpToServerCcs, UpToClientCcs, ServerFlight, SkeParams, ServerHelloChoice, ChainOf;
    RunTypes(env, r);
    KeyExchangeTypes(env, r);
    FlightTypes(r.ske, r.request);
  }

  lemma FirstFlightTypes(env: Env, r: Run)
    ensures SentTypes(FirstFlight(env, r)) == [CLIENT_HELLO]
    ensures ReceivedTypes(FirstFlight(env, r)) == [SERVER_HELLO, CERTIFICATE]
  {
    hide SentTypes, ReceivedTypes, Marshal, Hello;
    var a, b, c := Sent(CLIENT_HELLO, Marshal(Hello(env, r.random))), Received(SERVER_HELLO, r.serverHello),
      Received(CERTIFICATE, r.certificate);
    TypesOfOne(a);
    TypesOfOne(b);
    TypesOfOne(c);
    TypesConcat([a], [b]);
    TypesConcat([a] + [b], [c]);
    assert FirstFlight(env, r) == [a] + [b] + [c];
  }

  /** A Certificate answers exactly a request, with the configured certificate or
      none. A CertificateVerify is sent exactly when it was not empty; its
      algorithm was advertised, is supported by the server, and fits the key. */
  lemma CompletedAuthentication(env: Env, r: Run)
    requires GoodRun(env, r)
    ensures r.clientCert.Some? <==> r.request.Some?
    ensures r.clientCert.Some? ==>
              r.clientCert.value == Certificate(if r.certVerify.Some? then [env.certs[0].raw] else [])
    ensures r.certVerify.Some?
       <==> r.clientCert.Some? && r.clientCert.value.Certificate? && r.clientCert.value.certs != []
    ensures r.certVerify.Some? ==>
              && r.certReq.Some? && r.certReq.value.CertificateRequest? && env.certs != []
              && r.certVerify.value.alg in ADVERTISED && r.certVerify.value.alg in r.certReq.value.algs
              && var alg := r.certVerify.value.alg;
                 match env.certs[0].key
                 case RsaKey => alg.sig == 1
                 case EcdsaP256 => alg == SigAndHash(4, 3)
                 case EcdsaP384 => alg == SigAndHash(5, 3)
                 case _ => false
  {
    hide MasterSecret, FinishedVerifyData, HashedBytes, ParseBody, SkeParams, ServerHelloChoice, ChainOf;
  }

  /** In a completed DHE run the parameters that were signed are exactly the
      printed form of what the key exchange parses. */
  lemma CompletedDhe(env: Env, r: Run)
    requires GoodRun(env, r) && r.suite.kx == KexDHE
    ensures r.params.Some? && Dhe.ParseParams(r.params.value).Some?
    ensures Dhe.PrintParams(Dhe.ParseParams(r.params.value).value) == r.params.value
    ensures r.ske.Some? && r.params.value <= r.ske.value
  {
    hide MasterSecret, FinishedVerifyData, HashedBytes, ParseBody, ServerHelloChoice, ChainOf, GoodKeys, GoodClientAuth,
         Dhe.CutParams, Dhe.ParseParams, SplitSignature;
    assert SkeParams(env, r.suite, r.random, r.serverRandom, r.chain, r.ske.value) == r.params;
    Dhe.CutIsParsed(r.ske.value);
    assert SplitDhe(r.ske.value).Some?;
    SplitKeepsParams(Dhe.CutParams(r.ske.value).value.0, Dhe.CutParams(r.ske.value).value.1);
  }

  lemma SplitKeepsParams(params: seq<byte>, b: seq<byte>)
    ensures SplitSignature(params, b).Some? ==> SplitSignature(params, b).value.params == params
  {
  }

  // ---- A conforming server ------------------------------------------------

  function OptMessage(t: byte, b: Option<seq<byte>>): (r: Msgs)
  {
    if b.None? then [] else [(t, b.value)]
  }

  function FlightMessages(ske: Option<seq<byte>>, request: Option<seq<byte>>): (r: Msgs)
  {
    OptMessage(SERVER_KEY_EXCHANGE, ske) + OptMessage(CERTIFICATE_REQUEST, request) + [(SERVER_HELLO_DONE, [])]
  }

  function ServerMessages(r: Run): (m: Msgs)
  {
    [(SERVER_HELLO, r.serverHello)] + ([(CERTIFICATE, r.certificate)] + FlightMessages(r.ske, r.request))
  }

  predicate FitsRecord(m: Message)
  {
    |MarshalMessage(m)| <= RecordLayer.MAX_PLAINTEXT
  }

  /** Nothing local fails: transport and random source work, and no message or
      transcript is too long. */
  ghost predicate NoLocalFailure(env: Env, r: Run)
  {
    && env.Unfailing()
    && FitsRecord(Hello(env, r.random)) && FitsRecord(ClientKeyExchange(r.exchange.cke))
    && (r.clientCert.Some? ==> FitsRecord(r.clientCert.value))
    && (r.certVerify.Some? ==> FitsRecord(r.certVerify.value))
    && AllFit(ServerMessages(r))
    && |HashedBytes(UpToServerCcs(env, r))| <= Transcript.MAX_TRANSCRIPT
  }

  /** The next record is a ChangeCipherSpec. */
  ghost predicate AtCcs(src: Source)
  {
    src.Sound() && var c := src.Read(); c.Record? && c.ct == RecordLayer.CCS && c.payload == [1]
  }

  /** Behind the ChangeCipherSpec the bytes are read with the new protector. */
  ghost function BehindCcs(src: Source, prot: RecordLayer.Protector): (r: Source)
    requires AtCcs(src)
  {
    Source(src.Read().end, src.Read().rest).Swap(prot)
  }

  /** Successive calls take the messages of run `r`: those of the first flights
      from `src` to `atCcs`, and the Finished from behind the ChangeCipherSpec
      up to `after`. */
  ghost predicate TakesRun(src: Source, atCcs: Source, after: Source, r: Run)
  {
    && Takes([], src, ServerMessages(r), [], atCcs)
    && AtCcs(atCcs)
    && Takes([], BehindCcs(atCcs, r.recvProt), [(FINISHED, r.serverFinished)], [], after)
  }

  /** The bytes that arrive carry run `r`: records of the old protector that hold
      its first messages, cut anyhow, a ChangeCipherSpec, and records of the new
      protector that hold its Finished. Anything may follow. */
  ghost predicate ArrivesIn(src: Source, flight: Payloads, atCcs: Source, last: Payloads, after: Source, r: Run)
  {
    && Supplies(src, flight, ServerMessages(r), atCcs)
    && AtCcs(atCcs)
    && Supplies(BehindCcs(atCcs, r.recvProt), last, [(FINISHED, r.serverFinished)], after)
  }

  ghost predicate Arrives(src: Source, after: Source, r: Run)
  {
    exists flight, atCcs, last :: ArrivesIn(src, flight, atCcs, last, after, r)
  }

  lemma ArrivesIsTaken(src: Source, flight: Payloads, atCcs: Source, last: Payloads, after: Source, r: Run)
    requires ArrivesIn(src, flight, atCcs, last, after, r)
    requires AllFit(ServerMessages(r)) && |r.serverFinished| <= MAX_HANDSHAKE
    ensures TakesRun(src, atCcs, after, r)
  {
    hide Takes, Reads, WireOf, RecordLayer.ReadOne, ServerMessages;
    SuppliedIsTaken([], src, flight, ServerMessages(r), atCcs) by {
      assert [] + Flatten(flight) == Flatten(flight);
    }
    SuppliedIsTaken([], BehindCcs(atCcs, r.recvProt), last, [(FINISHED, r.serverFinished)], after) by {
      assert [] + Flatten(last) == Flatten(last);
    }
  }

  lemma TakenArrives(src: Source, atCcs: Source, after: Source, r: Run)
    requires TakesRun(src, atCcs, after, r)
    ensures Arrives(src, after, r)
  {
    hide Takes, Reads, WireOf, RecordLayer.ReadOne, ServerMessages;
    var flight := TakenIsSupplied([], src, ServerMessages(r), [], atCcs);
    var last := TakenIsSupplied([], BehindCcs(atCcs, r.recvProt), [(FINISHED, r.serverFinished)], [], after);
    assert [] + Flatten(flight) == Flatten(flight) && WireOf(ServerMessages(r)) + [] == WireOf(ServerMessages(r));
    var fin := WireOf([(FINISHED, r.serverFinished)]);
    assert [] + Flatten(last) == Flatten(last) && fin + [] == fin;
    assert ArrivesIn(src, flight, atCcs, last, after, r);
  }

  /** A server that writes the messages of run `r` in handshake records cut
      anyhow, a ChangeCipherSpec, and with its new protector the Finished and
      anything else, makes the run arrive. */
  lemma ConformingServer(r: Run, ws: seq<RecordLayer.Event>, flight: Payloads, iv: seq<byte>,
                         ws': seq<RecordLayer.Event>, last: Payloads, more: seq<RecordLayer.Event>, tail: seq<byte>)
    returns (after: Source)
    requires HandshakeWrites(ws, flight) && Flatten(flight) == WireOf(ServerMessages(r)) && Trimmed(flight)
    requires HandshakeWrites(ws', last) && Flatten(last) == WireOf([(FINISHED, r.serverFinished)]) && Trimmed(last)
    requires RecordLayer.WellFormedRun(RecordLayer.START, ServerWrites(r, ws, iv, ws', more))
    requires RecordLayer.WriterRun(RecordLayer.START, ServerWrites(r, ws, iv, ws', more)).Some?
    ensures var wire := RecordLayer.WriterRun(RecordLayer.START, ServerWrites(r, ws, iv, ws', more)).value.0;
            Arrives(Source(RecordLayer.START, wire + tail), after, r)
  {
    assert RecordLayer.START.prot.Sound();
    hide Reads, WireOf, RecordLayer.ReadOne, ServerMessages, RecordLayer.WriterRun, RecordLayer.WellFormedRun,
         RecordLayer.Protector.Sound, Arrives;
    var es := ServerWrites(r, ws, iv, ws', more);
    RecordLayer.RunRoundTrip(RecordLayer.START, es, tail);
    var src := Source(RecordLayer.START, RecordLayer.WriterRun(RecordLayer.START, es).value.0 + tail);
    hide RecordLayer.ReaderRun, RecordLayer.Sent;
    var atCcs := WritesAreRead(src, ws, flight, CcsAndAfter(r, iv, ws' + more));
    var behind := CcsIsRead(atCcs, r, iv, ws' + more);
    after := WritesAreRead(behind, ws', last, more);
    assert ArrivesIn(src, flight, atCcs, last, after, r);
    assert Arrives(src, after, r) by { ArrivedIn(src, flight, atCcs, last, after, r); }
  }

  lemma ArrivedIn(src: Source, flight: Payloads, atCcs: Source, last: Payloads, after: Source, r: Run)
    requires ArrivesIn(src, flight, atCcs, last, after, r)
    ensures Arrives(src, after, r)
  {
  }

  function CcsAndAfter(r: Run, iv: seq<byte>, es: seq<RecordLayer.Event>): (es': seq<RecordLayer.Event>)
  {
    [RecordLayer.Write(RecordLayer.CCS, [1], iv)] + ([RecordLayer.Swap(r.recvProt)] + es)
  }

  function ServerWrites(r: Run, ws: seq<RecordLayer.Event>, iv: seq<byte>, ws': seq<RecordLayer.Event>,
                        more: seq<RecordLayer.Event>)
    : (es: seq<RecordLayer.Event>)
  {
    ws + CcsAndAfter(r, iv, ws' + more)
  }

  lemma CcsIsRead(src: Source, r: Run, iv: seq<byte>, es: seq<RecordLayer.Event>) returns (behind: Source)
    requires src.Sound() && SwapsSound(CcsAndAfter(r, iv, es))
    requires RecordLayer.ReaderRun(src.end, CcsAndAfter(r, iv, es), src.input).Some?
    requires RecordLayer.ReaderRun(src.end, CcsAndAfter(r, iv, es), src.input).value.records
          == RecordLayer.Sent(CcsAndAfter(r, iv, es))
    ensures AtCcs(src) && behind == BehindCcs(src, r.recvProt) && behind.Sound() && SwapsSound(es)
    ensures RecordLayer.ReaderRun(behind.end, es, behind.input).Some?
    ensures RecordLayer.ReaderRun(behind.end, es, behind.input).value.records == RecordLayer.Sent(es)
  {
    hide RecordLayer.ReadOne, RecordLayer.Protector.Sound;
    var prot := r.recvProt;
    var swap := [RecordLayer.Swap(prot)] + es;
    var all := [RecordLayer.Write(RecordLayer.CCS, [1], iv)] + swap;
    assert all[0] == RecordLayer.Write(RecordLayer.CCS, [1], iv) && all[1..] == swap;
    assert swap[0] == RecordLayer.Swap(prot) && swap[1..] == es;
    assert prot.Sound() by { assert all[1] == RecordLayer.Swap(prot) && all[1] in all; }
    assert SwapsSound(es) by { assert forall x :: x in es ==> x in all; }
    assert SwapsSound(swap) by { assert forall x :: x in swap ==> x in all; }
    var c := src.Read();
    var d := RecordLayer.ReaderRun(c.end, swap, c.rest).value;
    assert RecordLayer.Sent(swap) == [] + RecordLayer.Sent(es) == RecordLayer.Sent(es);
    assert RecordLayer.Sent(all) == [(RecordLayer.CCS, [1])] + RecordLayer.Sent(swap);
    assert ([(c.ct, c.payload)] + d.records)[0] == RecordLayer.Sent(all)[0];
    assert d.records == ([(c.ct, c.payload)] + d.records)[1..] == RecordLayer.Sent(all)[1..] == RecordLayer.Sent(swap);
    behind := Source(c.end, c.rest).Swap(prot);
  }

  lemma {:induction false} HashedPrefix(a: seq<Event>, b: seq<Event>)
    ensures |HashedBytes(a)| <= |HashedBytes(a + b)|
  {
    if b == [] {
      assert a + b == a;
    } else {
      var front, e := b[..|b| - 1], b[|b| - 1];
      HashedPrefix(a, front);
      assert a + b == a + front + [e];
      EnvelopesSnoc(a + front, e);
      FlattenConcat(Envelopes(a + front), if e.Sent? || e.Received? then [Envelope(e.t, e.body)] else []);
    }
  }
}
