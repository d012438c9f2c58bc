/** The conditions under which the handshake is promised to succeed can be met:
    an environment that works as documented has good runs, the shortest and the
    longest kind, and a server can make them arrive. */
module ClientFeasible {
  import opened Bytes
  import opened Wire
  import opened Extensions
  import opened Messages
  import opened KeySchedule
  import opened Reassembly
  import opened ClientSpec
  import Dhe
  import RecordLayer
  import Transcript

  /** No message of the runs below is longer. */
  const SMALL: nat := 0xC00

  type Cert = c: seq<byte> | 0 < |c| <= 0x800 witness [0]

  const RSA_SHA256: SigAndHash := SigAndHash(SHA256, RSA)

  // ---- Environments -------------------------------------------------------

  /** Protectors can be built from keys of the suite's sizes; only those need be
      accepted. */
  ghost predicate BuildsFromSuiteSizes(env: Env, suite: Suite)
  {
    forall key: seq<byte>, mac: seq<byte>, iv: seq<byte> ::
      |key| == suite.cipher.keyLen && |mac| == suite.macKeyLen && |iv| == KeyBlockIvLen(suite) ==>
        env.buildProtector(suite, key, mac, iv).Some?
  }

  /** The suite is offered and known, and `cert` is trusted. */
  ghost predicate Usual(env: Env, suite: Suite, cert: Cert)
  {
    && env.Sound() && env.Unfailing()
    && env.random.Some? && FitsRecord(Hello(env, env.random.value))
    && suite.id in env.offered && env.lookup(suite.id) == Some(suite)
    && KeyBlockLen(suite) > 0 && BuildsFromSuiteSizes(env, suite)
    && env.verifyChain([cert])
  }

  ghost predicate Exchanges(env: Env, suite: Suite, cert: Cert, params: Option<seq<byte>>)
  {
    && env.keyExchange(suite, [cert], params).Some?
    && |env.keyExchange(suite, [cert], params).value.cke| <= SMALL
  }

  /** The server's signature of its parameters is accepted, and the client has
      an RSA key that signs. */
  ghost predicate Signs(env: Env, cert: Cert, d: Dhe.Params, signature: seq<byte>, own: Cert)
    requires env.random.Some?
  {
    && |d.p| <= 0x200 && |d.g| <= 0x200 && |d.ys| <= 0x200 && |signature| <= 0x200
    && env.verifySig([cert], RSA_SHA256, env.random.value + Zeros() + Dhe.PrintParams(d), signature)
    && env.certs == [ClientCert(own, RsaKey)]
    && forall digest ::
         env.sign(RsaKey, RSA_SHA256, digest).Some? && |env.sign(RsaKey, RSA_SHA256, digest).value| <= 0x200
  }

  function Zeros(): (r: Random)
  {
    seq(32, _ => 0)
  }

  // ---- Messages -----------------------------------------------------------

  function ServerHelloOf(suite: Suite): (m: Message)
  {
    ServerHello(TLS12, Zeros(), [], suite.id, 0, false, false, [])
  }

  lemma HelloAccepted(env: Env, suite: Suite)
    requires suite.id in env.offered && env.lookup(suite.id) == Some(suite)
    ensures |Marshal(ServerHelloOf(suite))| == 38
    ensures ServerHelloChoice(env, Marshal(ServerHelloOf(suite))) == Some(Choice(suite, Zeros()))
  {
    hide ParseBody, BigEndian;
    var m := ServerHelloOf(suite);
    assert MarshalExtensions(ServerExt(false, false)) == [] by { NothingPrinted(); }
    assert |Marshal(m)| == 38;
    ParseBodyPrinted(m);
    assert Pieces(ServerExt(false, false)) == [] by { NothingPrinted(); }
    assert Canonical(m) == m;
  }

  lemma NothingPrinted()
    ensures Pieces(NO_EXT) == [] && MarshalExtensions(NO_EXT) == [] && ServerExt(false, false) == NO_EXT
  {
  }

  lemma CertificateSize(cert: Cert)
    ensures |Marshal(Certificate([cert]))| == 6 + |cert|
  {
    hide BigEndian;
    var certs: seq<seq<byte>> := [cert];
    assert certs[1..] == [] && Vector(certs, 3) == Prefixed(cert, 3) + Vector(certs[1..], 3);
  }

  lemma CertificateAccepted(env: Env, cert: Cert)
    requires env.verifyChain([cert])
    ensures ChainOf(env, Marshal(Certificate([cert]))) == Some([cert])
  {
    hide ParseBody, BigEndian;
    var certs: seq<seq<byte>> := [cert];
    var m := Certificate(certs);
    assert certs[1..] == [] && Vector(certs, 3) == Prefixed(cert, 3) + Vector(certs[1..], 3);
    Widths();
    CertificateSize(cert);
    ParseBodyPrinted(m);
  }

  function SignedSke(d: Dhe.Params, signature: seq<byte>): (r: seq<byte>)
  {
    Dhe.PrintParams(d) + ([SHA256, RSA] + Prefixed(signature, 2))
  }

  lemma SignatureSplit(params: seq<byte>, signature: seq<byte>)
    requires |signature| < 0x1_0000
    ensures SplitSignature(params, [SHA256, RSA] + Prefixed(signature, 2))
         == Some(SignedParams(params, RSA_SHA256, signature))
  {
    hide FromBigEndian, BigEndian;
    Widths();
    var b := [SHA256, RSA] + Prefixed(signature, 2);
    assert b[2..4] == BigEndian(|signature|, 2);
    BigEndianDecodes(|signature|, 2);
    assert b[4..4 + |signature|] == signature;
  }

  lemma SkeAccepted(env: Env, suite: Suite, cert: Cert, d: Dhe.Params, signature: seq<byte>, own: Cert)
    requires env.random.Some? && Signs(env, cert, d, signature, own) && suite.kx == KexDHE && suite.auth == AuthRSA
    ensures SkeParams(env, suite, env.random.value, Zeros(), [cert], SignedSke(d, signature))
         == Some(Dhe.PrintParams(d))
    ensures |SignedSke(d, signature)| <= SMALL
  {
    hide Dhe.CutParams, SplitSignature, BigEndian;
    Dhe.CutPrinted(d, [SHA256, RSA] + Prefixed(signature, 2));
    SignatureSplit(Dhe.PrintParams(d), signature);
    assert RSA_SHA256 in ADVERTISED;
  }

  const REQUEST: Message := CertificateRequest([1], [RSA_SHA256], [])

  lemma RequestAccepted()
    ensures ParseBody(CERTIFICATE_REQUEST, PrintCertificateRequest(REQUEST)) == Some(REQUEST)
    ensures |PrintCertificateRequest(REQUEST)| <= SMALL
  {
    hide ParseCertificateRequest, BigEndian;
    Widths();
    var none: seq<seq<byte>> := [];
    assert Vector(none, 2) == [];
    ParseCertificateRequestPrinted(REQUEST);
  }

  // ---- Completing a run ---------------------------------------------------

  /** What a run needs before its keys and Finished values can be computed. */
  ghost predicate Begun(env: Env, b: Run)
  {
    && env.Sound() && ServerSideGood(env, b) && GoodClientAuth(env, b)
    && b.suite.prf.Sound() && |b.serverRandom| == 32
    && KeyBlockLen(b.suite) > 0 && BuildsFromSuiteSizes(env, b.suite)
    && env.keyExchange(b.suite, b.chain, b.params) == Some(b.exchange)
  }

  lemma Keyed(env: Env, b: Run) returns (r: Run)
    requires Begun(env, b)
    ensures r == b.(master := r.master, keys := r.keys, sendProt := r.sendProt, recvProt := r.recvProt)
    ensures MasterSecret(r.suite, r.exchange.preMaster, r.random, r.serverRandom) == Some(r.master)
    ensures GoodKeys(env, r) && r.recvProt.Sound()
  {
    hide StreamPrefix, ServerSideGood, GoodClientAuth, KeyBlockIvLen, RecordLayer.Protector.Sound;
    var suite := b.suite;
    var master := MasterSecret(suite, b.exchange.preMaster, b.random, b.serverRandom).value;
    var block := KeyBlock(suite, master, b.random, b.serverRandom).value;
    var keys := Slices(block, suite.macKeyLen, suite.cipher.keyLen, KeyBlockIvLen(suite));
    SlicesPartition(block, suite.macKeyLen, suite.cipher.keyLen, KeyBlockIvLen(suite));
    var send := env.buildProtector(suite, keys.clientKey, keys.clientMac, keys.clientIv).value;
    var recv := env.buildProtector(suite, keys.serverKey, keys.serverMac, keys.serverIv).value;
    r := b.(master := master, keys := keys, sendProt := send, recvProt := recv);
  }

  /** `x` is `b` with keys and Finished values. */
  predicate Completes(b: Run, x: Run)
  {
    && x.random == b.random && x.serverHello == b.serverHello && x.certificate == b.certificate && x.ske == b.ske
    && x.request == b.request && x.clientCert == b.clientCert && x.exchange == b.exchange
    && x.certVerify == b.certVerify
  }

  lemma Complete(env: Env, b: Run) returns (x: Run)
    requires Begun(env, b)
    ensures GoodRun(env, x) && Completes(b, x)
    ensures |x.clientFinished| <= 32 && |x.serverFinished| <= 32 && x.recvProt.Sound()
  {
    hide StreamPrefix, HashedBytes, MasterSecret, GoodKeys, ServerSideGood, GoodClientAuth, RecordLayer.Protector.Sound,
         KeyBlockLen, BuildsFromSuiteSizes, UpToKeyExchange;
    var r := Keyed(env, b);
    SameBefore(env, b, r);
    var clientVd := FinishedVerifyData(r.suite, r.master, CLIENT_FINISHED_LABEL,
      r.suite.prf.digest(HashedBytes(UpToClientCcs(env, r)))).value;
    var r1 := r.(clientFinished := clientVd);
    SameBefore(env, r, r1);
    var serverVd := FinishedVerifyData(r.suite, r.master, SERVER_FINISHED_LABEL,
      r.suite.prf.digest(HashedBytes(UpToServerCcs(env, r1)))).value;
    x := r1.(serverFinished := serverVd);
    SameBefore(env, r1, x);
    SameKeys(env, r, x);
  }

  /** Neither keys nor Finished values enter what comes before them. */
  lemma SameBefore(env: Env, b: Run, r: Run)
    requires r == b.(master := r.master, keys := r.keys, sendProt := r.sendProt, recvProt := r.recvProt,
                     clientFinished := r.clientFinished, serverFinished := r.serverFinished)
    ensures UpToKeyExchange(env, r) == UpToKeyExchange(env, b)
    ensures ServerSideGood(env, b) ==> ServerSideGood(env, r)
    ensures GoodClientAuth(env, b) ==> GoodClientAuth(env, r)
  {
    hide HashedBytes, Marshal, ParseBody, Preferred, NoneUsable, SkeParams, ServerHelloChoice, ChainOf;
  }

  lemma SameKeys(env: Env, r: Run, x: Run)
    requires r.suite.prf.Sound() && GoodKeys(env, r)
    requires x == r.(clientFinished := x.clientFinished, serverFinished := x.serverFinished)
    ensures GoodKeys(env, x)
  {
    hide StreamPrefix, IsPartition;
  }

  // ---- Sizes --------------------------------------------------------------

  predicate ShortBodies(tr: seq<Event>)
  {
    forall i :: 0 <= i < |tr| && (tr[i].Sent? || tr[i].Received?) ==> |tr[i].body| <= RecordLayer.MAX_PLAINTEXT
  }

  lemma {:induction false} HashedBound(tr: seq<Event>)
    requires ShortBodies(tr)
    ensures |HashedBytes(tr)| <= |tr| * (4 + RecordLayer.MAX_PLAINTEXT)
    decreases |tr|
  {
    hide Envelope;
    if tr != [] {
      var front, e := tr[..|tr| - 1], tr[|tr| - 1];
      HashedBound(front);
      if e.Sent? || e.Received? {
        FlattenSnoc(Envelopes(front), Envelope(e.t, e.body));
      } else {
        assert Envelopes(front) + [] == Envelopes(front);
      }
    }
  }

  predicate SmallMessages(x: Run)
  {
    && |x.serverHello| <= SMALL && |x.certificate| <= SMALL && |x.exchange.cke| <= SMALL
    && (x.ske.Some? ==> |x.ske.value| <= SMALL) && (x.request.Some? ==> |x.request.value| <= SMALL)
    && (x.clientCert.Some? ==> |Marshal(x.clientCert.value)| <= SMALL)
    && (x.certVerify.Some? ==> |Marshal(x.certVerify.value)| <= SMALL)
    && |x.clientFinished| <= SMALL
  }

  lemma SmallParts(env: Env, x: Run)
    requires FitsRecord(Hello(env, x.random)) && SmallMessages(x)
    ensures ShortBodies(FirstFlight(env, x)) && |FirstFlight(env, x)| == 3
    ensures ShortBodies(ServerFlight(x.ske, x.request)) && |ServerFlight(x.ske, x.request)| <= 3
    ensures ShortBodies(OptSent(x.clientCert)) && |OptSent(x.clientCert)| <= 1
    ensures ShortBodies(OptSent(x.certVerify)) && |OptSent(x.certVerify)| <= 1
    ensures ShortBodies([Sent(CLIENT_KEY_EXCHANGE, x.exchange.cke)]) && ShortBodies([Sent(FINISHED, x.clientFinished)])
    ensures ShortBodies([SentCcs] + [InstalledSend(x.sendProt)])
    ensures ShortBodies([ReceivedCcs] + [InstalledRecv(x.recvProt)])
  {
    hide Marshal, Hello;
  }

  lemma SmallFlights(env: Env, x: Run)
    requires FitsRecord(Hello(env, x.random)) && SmallMessages(x)
    ensures ShortBodies(UpToServerCcs(env, x)) && |UpToServerCcs(env, x)| <= 14
  {
    hide Marshal, Hello, ShortBodies, FirstFlight, ServerFlight, OptSent, SmallMessages;
    SmallParts(env, x);
    var first := FirstFlight(env, x) + ServerFlight(x.ske, x.request) + OptSent(x.clientCert)
      + [Sent(CLIENT_KEY_EXCHANGE, x.exchange.cke)];
    assert ShortBodies(first) by {
      ShortConcat(FirstFlight(env, x), ServerFlight(x.ske, x.request));
      ShortConcat(FirstFlight(env, x) + ServerFlight(x.ske, x.request), OptSent(x.clientCert));
      ShortConcat(FirstFlight(env, x) + ServerFlight(x.ske, x.request) + OptSent(x.clientCert),
                  [Sent(CLIENT_KEY_EXCHANGE, x.exchange.cke)]);
    }
    var d, fin := OptSent(x.certVerify), [Sent(FINISHED, x.clientFinished)];
    var ccs, ccs' := [SentCcs] + [InstalledSend(x.sendProt)], [ReceivedCcs] + [InstalledRecv(x.recvProt)];
    ShortConcat(first, d);
    ShortConcat(first + d, ccs);
    ShortConcat(first + d + ccs, fin);
    ShortConcat(first + d + ccs + fin, ccs');
    assert UpToServerCcs(env, x) == first + d + ccs + fin + ccs';
  }

  lemma ShortConcat(a: seq<Event>, b: seq<Event>)
    requires ShortBodies(a) && ShortBodies(b)
    ensures ShortBodies(a + b)
  {
  }

  lemma NothingFails(env: Env, x: Run)
    requires env.Unfailing() && FitsRecord(Hello(env, x.random)) && SmallMessages(x)
    ensures NoLocalFailure(env, x)
  {
    hide Marshal, Hello, HashedBytes, UpToServerCcs, ShortBodies;
    SmallFlights(env, x);
    HashedBound(UpToServerCcs(env, x));
    FlightBound(x);
    CkeMarshal(x.exchange.cke);
  }

  lemma CkeMarshal(cke: seq<byte>)
    ensures Marshal(ClientKeyExchange(cke)) == cke
  {
  }

  /** The first messages of the server fit one record. */
  lemma FlightBound(x: Run)
    requires SmallMessages(x)
    ensures AllFit(ServerMessages(x))
    ensures 0 < |WireOf(ServerMessages(x))| <= RecordLayer.MAX_PLAINTEXT
  {
    hide Marshal;
    var ms := ServerMessages(x);
    assert |ms| <= 5 && forall i :: 0 <= i < |ms| ==> |ms[i].1| <= SMALL;
    assert ms[0] == (SERVER_HELLO, x.serverHello);
    WireBound(ms);
  }

  lemma {:induction false} WireBound(ms: Msgs)
    requires forall i :: 0 <= i < |ms| ==> |ms[i].1| <= SMALL
    ensures |WireOf(ms)| <= |ms| * (4 + SMALL) && (ms != [] ==> |WireOf(ms)| > 0)
  {
    hide Envelope;
    if ms != [] {
      WireBound(ms[1..]);
    }
  }

  // ---- The two runs -------------------------------------------------------

  /** An RSA suite, and no client authentication. */
  lemma SomeGoodRun(env: Env, suite: Suite, cert: Cert) returns (x: Run)
    requires Usual(env, suite, cert) && suite.kx == KexRSA && Exchanges(env, suite, cert, None)
    ensures GoodRun(env, x) && NoLocalFailure(env, x) && SmallMessages(x)
    ensures x.ske.None? && x.request.None? && |x.serverFinished| <= 32 && x.recvProt.Sound()
  {
    hide Marshal, ServerHelloOf, ServerHelloChoice, ChainOf, FitsRecord, Hello, HashedBytes, MasterSecret, GoodKeys,
         RecordLayer.Protector.Sound, KeyBlockLen, BuildsFromSuiteSizes, NoneUsable, Preferred, GoodRun, NoLocalFailure;
    var b := Run(env.random.value, Marshal(ServerHelloOf(suite)), suite, Zeros(), Marshal(Certificate([cert])), [cert],
      None, None, None, None, None, env.keyExchange(suite, [cert], None).value, [], KeyMaterial([], [], [], [], [], []),
      RecordLayer.Null, RecordLayer.Null, None, [], []);
    HelloAccepted(env, suite);
    CertificateAccepted(env, cert);
    CertificateSize(cert);
    KnownPrf(env, suite);
    x := Complete(env, b);
    NothingFails(env, x);
  }

  lemma KnownPrf(env: Env, suite: Suite)
    requires env.Sound() && env.lookup(suite.id) == Some(suite)
    ensures suite.prf.Sound()
  {
    assert env.lookup(suite.id).value == suite;
  }

  /** A DHE suite with a signed ServerKeyExchange, a CertificateRequest, and a
      CertificateVerify. */
  lemma SomeAuthenticatedRun(env: Env, suite: Suite, cert: Cert, d: Dhe.Params, signature: seq<byte>, own: Cert)
    returns (x: Run)
    requires Usual(env, suite, cert) && suite.kx == KexDHE && suite.auth == AuthRSA
    requires Exchanges(env, suite, cert, Some(Dhe.PrintParams(d))) && Signs(env, cert, d, signature, own)
    ensures GoodRun(env, x) && NoLocalFailure(env, x) && SmallMessages(x)
    ensures x.ske.Some? && x.request.Some? && x.certVerify.Some? && |x.serverFinished| <= 32 && x.recvProt.Sound()
  {
    hide Marshal, ServerHelloOf, ServerHelloChoice, ChainOf, SkeParams, ParseBody, FitsRecord, Hello, HashedBytes,
         MasterSecret, GoodKeys, RecordLayer.Protector.Sound, KeyBlockLen, BuildsFromSuiteSizes, GoodRun,
         NoLocalFailure, SignedSke, UpToKeyExchange, Dhe.PrintParams, PrintCertificateRequest;
    var b := Run(env.random.value, Marshal(ServerHelloOf(suite)), suite, Zeros(), Marshal(Certificate([cert])), [cert],
      Some(SignedSke(d, signature)), Some(Dhe.PrintParams(d)), Some(PrintCertificateRequest(REQUEST)), Some(REQUEST),
      Some(Certificate([own])), env.keyExchange(suite, [cert], Some(Dhe.PrintParams(d))).value, [],
      KeyMaterial([], [], [], [], [], []), RecordLayer.Null, RecordLayer.Null, None, [], []);
    var proof := env.sign(RsaKey, RSA_SHA256, env.digest(SHA256, HashedBytes(UpToKeyExchange(env, b)))).value;
    var b' := b.(certVerify := Some(CertificateVerify(RSA_SHA256, proof)));
    assert UpToKeyExchange(env, b') == UpToKeyExchange(env, b) by { SameSigned(env, b, b'); }
    HelloAccepted(env, suite);
    CertificateAccepted(env, cert);
    CertificateSize(cert);
    CertificateSize(own);
    SkeAccepted(env, suite, cert, d, signature, own);
    RequestAccepted();
    RsaPreferred(env.certs);
    KnownPrf(env, suite);
    VerifySize(proof);
    x := Complete(env, b');
    NothingFails(env, x);
  }

  lemma SameSigned(env: Env, b: Run, b': Run)
    requires b' == b.(certVerify := b'.certVerify)
    ensures UpToKeyExchange(env, b') == UpToKeyExchange(env, b)
  {
    hide Marshal;
  }

  lemma RsaPreferred(certs: seq<ClientCert>)
    requires |certs| == 1 && certs[0].key == RsaKey
    ensures Preferred(RSA_SHA256, Some(REQUEST), certs)
  {
    assert ADVERTISED[0] == RSA_SHA256;
  }

  lemma VerifySize(signature: seq<byte>)
    requires |signature| <= 0x200
    ensures |Marshal(CertificateVerify(RSA_SHA256, signature))| <= SMALL
  {
    hide BigEndian;
  }

  // ---- Its arrival --------------------------------------------------------

  /** One record for the first messages, one for the Finished. */
  lemma OneRecordEach(x: Run, iv: seq<byte>) returns (src: Source, after: Source)
    requires x.recvProt.Sound() && x.recvProt.IvFits(iv)
    requires |WireOf(ServerMessages(x))| <= RecordLayer.MAX_PLAINTEXT && WireOf(ServerMessages(x)) != []
    requires |x.serverFinished| <= 0x1000
    ensures src.end == RecordLayer.START && Arrives(src, after, x)
  {
    hide WireOf, ServerMessages, Envelope, RecordLayer.Protector.Sound, RecordLayer.Protector.IvFits, Arrives;
    assert RecordLayer.START.prot.Sound() && RecordLayer.START.prot.IvFits([]) by { ClearEnd(); }
    var first, fin := WireOf(ServerMessages(x)), WireOf([(FINISHED, x.serverFinished)]);
    FinishedWire(x.serverFinished);
    var ws, flight := [RecordLayer.Write(RecordLayer.HANDSHAKE, first, [])], [first];
    var ws', last := [RecordLayer.Write(RecordLayer.HANDSHAKE, fin, iv)], [fin];
    assert Flatten(flight) == first && Flatten(last) == fin by { FlattenOne(first); FlattenOne(fin); }
    var es := ServerWrites(x, ws, [], ws', []);
    var e0 := RecordLayer.START;
    var w1, w2, sw := ws[0], RecordLayer.Write(RecordLayer.CCS, [1], []), RecordLayer.Swap(x.recvProt);
    var e1 := Written(e0, w1);
    var e2 := Written(e1, w2);
    var e3 := RecordLayer.Swapped(x.recvProt);
    var e4 := Written(e3, ws'[0]);
    assert es == [w1] + ([w2] + ([sw] + [ws'[0]]));
    RunOf(e0, w1, w2, x.recvProt, ws'[0]);
    var wire := RecordLayer.WriterRun(e0, es).value.0;
    src := Source(e0, wire + []);
    after := ConformingServer(x, ws, flight, [], ws', last, [], []);
  }

  lemma ClearEnd()
    ensures RecordLayer.START.prot.Sound() && RecordLayer.START.prot.IvFits([])
  {
  }

  lemma FlattenOne(s: seq<byte>)
    ensures Flatten([s]) == s
  {
    assert [s][1..] == [];
  }

  lemma FinishedWire(vd: seq<byte>)
    ensures |WireOf([(FINISHED, vd)])| == 4 + |vd|
  {
    assert [(FINISHED, vd)][1..] == [];
  }

  /** The end after a write that succeeds. */
  lemma Written(e: RecordLayer.End, w: RecordLayer.Event) returns (e': RecordLayer.End)
    requires w.Write? && e.prot.Sound() && e.prot.IvFits(w.iv) && e.seqNum < 10
    requires RecordLayer.KnownContentType(w.ct) && |w.payload| <= RecordLayer.MAX_PLAINTEXT
    ensures RecordLayer.WriteOne(e, w.ct, w.payload, w.iv).Written?
    ensures e' == RecordLayer.WriteOne(e, w.ct, w.payload, w.iv).end
    ensures e'.prot.Sound() && e'.seqNum == e.seqNum + 1 && (e.prot.Null? ==> e'.prot.Null?)
  {
    hide RecordLayer.Protector.Sound, RecordLayer.Protector.IvFits, BigEndian;
    RecordLayer.SealedSound(e.prot, e.seqNum, RecordLayer.Template(w.ct), w.payload, w.iv);
    e' := RecordLayer.WriteOne(e, w.ct, w.payload, w.iv).end;
  }

  lemma RunOf(e0: RecordLayer.End, w1: RecordLayer.Event, w2: RecordLayer.Event, prot: RecordLayer.Protector,
              w3: RecordLayer.Event)
    requires e0 == RecordLayer.START && prot.Sound()
    requires w1.Write? && w2.Write? && w3.Write? && w1.iv == w2.iv == [] && prot.IvFits(w3.iv)
    requires RecordLayer.KnownContentType(w1.ct) && |w1.payload| <= RecordLayer.MAX_PLAINTEXT
    requires RecordLayer.KnownContentType(w2.ct) && |w2.payload| <= RecordLayer.MAX_PLAINTEXT
    requires RecordLayer.KnownContentType(w3.ct) && |w3.payload| <= RecordLayer.MAX_PLAINTEXT
    ensures var es := [w1] + ([w2] + ([RecordLayer.Swap(prot)] + [w3]));
            RecordLayer.WellFormedRun(e0, es) && RecordLayer.WriterRun(e0, es).Some?
  {
    hide RecordLayer.Protector.Sound, RecordLayer.WriteOne, RecordLayer.WellFormedRun, RecordLayer.WriterRun;
    ClearEnd();
    var e1 := Written(e0, w1);
    var e2 := Written(e1, w2);
    var e3 := RecordLayer.Swapped(prot);
    var e4 := Written(e3, w3);
    var s := RecordLayer.Swap(prot);
    RecordLayer.LastStep(e3, w3);
    RunCons(e2, s, [w3]);
    RunCons(e1, w2, [s] + [w3]);
    RunCons(e0, w1, [w2] + ([s] + [w3]));
  }

  /** A step in front of a run. */
  lemma RunCons(e: RecordLayer.End, x: RecordLayer.Event, es: seq<RecordLayer.Event>)
    requires RecordLayer.Succeeds(e, x)
    requires RecordLayer.WellFormedRun(RecordLayer.EndAfter(e, x), es)
    requires RecordLayer.WriterRun(RecordLayer.EndAfter(e, x), es).Some?
    ensures RecordLayer.WellFormedRun(e, [x] + es) && RecordLayer.WriterRun(e, [x] + es).Some?
  {
    hide RecordLayer.Protector.Sound, RecordLayer.WriteOne, RecordLayer.Protector.IvFits;
    assert ([x] + es)[0] == x && ([x] + es)[1..] == es;
  }

  lemma SomeIv(prot: RecordLayer.Protector) returns (iv: seq<byte>)
    ensures prot.IvFits(iv)
  {
    iv := if prot.Cbc? then seq(prot.cbc.blockSize, _ => 0) else [];
  }

  lemma MadeToArrive(x: Run) returns (src: Source, after: Source)
    requires SmallMessages(x) && |x.serverFinished| <= 32 && x.recvProt.Sound()
    ensures src.end == RecordLayer.START && Arrives(src, after, x)
  {
    hide SmallMessages, Arrives, RecordLayer.Protector.Sound, RecordLayer.Protector.IvFits, WireOf, ServerMessages;
    FlightBound(x);
    var iv := SomeIv(x.recvProt);
    src, after := OneRecordEach(x, iv);
  }

  /** In a usual environment there is a run for which the handshake is promised
      to succeed, and there are bytes that bring it about. */
  lemma Feasible(env: Env, suite: Suite, cert: Cert) returns (x: Run, src: Source, after: Source)
    requires Usual(env, suite, cert) && suite.kx == KexRSA && Exchanges(env, suite, cert, None)
    ensures GoodRun(env, x) && NoLocalFailure(env, x)
    ensures src.end == RecordLayer.START && Arrives(src, after, x)
  {
    hide GoodRun, NoLocalFailure, Arrives, Usual, Exchanges, SmallMessages, RecordLayer.Protector.Sound;
    x := SomeGoodRun(env, suite, cert);
    src, after := MadeToArrive(x);
  }

  /** And so there is with every optional message. */
  lemma FeasibleAuthenticated(env: Env, suite: Suite, cert: Cert, d: Dhe.Params, signature: seq<byte>, own: Cert)
    returns (x: Run, src: Source, after: Source)
    requires Usual(env, suite, cert) && suite.kx == KexDHE && suite.auth == AuthRSA
    requires Exchanges(env, suite, cert, Some(Dhe.PrintParams(d))) && Signs(env, cert, d, signature, own)
    ensures GoodRun(env, x) && NoLocalFailure(env, x) && x.ske.Some? && x.request.Some? && x.certVerify.Some?
    ensures src.end == RecordLayer.START && Arrives(src, after, x)
  {
    hide GoodRun, NoLocalFailure, Arrives, Usual, Exchanges, Signs, SmallMessages, RecordLayer.Protector.Sound;
    x := SomeAuthenticatedRun(env, suite, cert, d, signature, own);
    src, after := MadeToArrive(x);
  }
}
